/**
 The connection loop of one worker outside a tunnel (workers.go, multi_vendor.go): choose a vendor, dial,
 check the login, subscribe, close, and start over or leave.
 */
module Reconnect {
  import opened Text

  datatype PathConfig = PathConfig(path: string, preGnmi: bool, gnmi: bool)

  /** The part of a configuration the loop reads; gnmi tells whether the vendor section configures gNMI. */
  datatype Config = Config(vendorName: string, gnmi: bool, host: string, port: int, paths: seq<PathConfig>)

  datatype Vendor = Gnmi | Junos | CiscoXR | PrePostGnmi

  const VENDORS := [Gnmi, Junos, CiscoXR, PrePostGnmi]

  function Name(v: Vendor): string {
    match v
    case Gnmi => "gnmi"
    case Junos => "juniper-junos"
    case CiscoXR => "cisco-iosxr"
    case PrePostGnmi => "pre-post-gnmi"
  }

  /** Does the vendor have a login check to send? */
  predicate CanLogin(v: Vendor) {
    v == Junos || v == PrePostGnmi
  }

  /** What a subscription returns. */
  datatype Code = ConnRetry | SighupRestart | SighupNoRestart | RPCFailedNoRetry | OnceComplete

  /**
   What the environment does to one round of the loop. `early` is a configuration re-read between two
   rounds, while nothing streams; `during` is one re-read while the subscription streams.
   */
  datatype Attempt = Attempt(
    early: Option<Config>, optionsOk: bool, interrupted: bool, dialOk: bool, loginOk: bool,
    during: Option<Config>, code: Code)

  /** StatusOffered is the last act of a loop: it stands at the send of its status token. */
  datatype Event =
    | Reread(config: Config)
    | Dialed
    | LoggedIn(vendor: Vendor, ok: bool)
    | Subscribed(via: Vendor, config: Config, tryGnmi: bool, during: Option<Config>, code: Code)
    | Crashed(vendor: Vendor)
    | Hung
    | Closed
    | StatusOffered

  // ---------- vendors and paths ----------

  function VendorName(config: Config, tryGnmi: bool, prePost: bool): string {
    if prePost then "pre-post-gnmi"
    else if tryGnmi then "gnmi"
    else if config.vendorName == "" then "juniper-junos"
    else config.vendorName
  }

  /** The vendor with the given name. */
  function VendorNamed(name: string): (r: Option<Vendor>)
    ensures r.Some? ==> Name(r.value) == name
    ensures r.None? ==> forall v :: Name(v) != name
  {
    if name == Name(Gnmi) then Some(Gnmi)
    else if name == Name(Junos) then Some(Junos)
    else if name == Name(CiscoXR) then Some(CiscoXR)
    else if name == Name(PrePostGnmi) then Some(PrePostGnmi)
    else
      None
  }

  function VendorOf(config: Config, tryGnmi: bool, prePost: bool): Option<Vendor> {
    VendorNamed(VendorName(config, tryGnmi, prePost))
  }

  /** Search the table of vendors. */
  method GetVendor(config: Config, tryGnmi: bool, prePost: bool) returns (r: Option<Vendor>)
    ensures r == VendorOf(config, tryGnmi, prePost)
  {
    var name := config.vendorName;
    if tryGnmi {
      name := "gnmi";
    }
    if prePost {
      name := "pre-post-gnmi";
    }
    if name == "" {
      name := "juniper-junos";
    }
    NamesDiffer();
    for i := 0 to |VENDORS|
      invariant forall j :: 0 <= j < i ==> Name(VENDORS[j]) != name
    {
      if name == Name(VENDORS[i]) {
        return Some(VENDORS[i]);
      }
    }
    assert VENDORS[0] == Gnmi && VENDORS[1] == Junos && VENDORS[2] == CiscoXR && VENDORS[3] == PrePostGnmi;
    return None;
  }

  lemma NamesDiffer()
    ensures forall v, w :: Name(v) == Name(w) ==> v == w
  {
    assert Name(Gnmi)[0] == 'g' && Name(Junos)[0] == 'j' && Name(CiscoXR)[0] == 'c' && Name(PrePostGnmi)[0] == 'p';
  }

  predicate ViaGnmi(config: Config, p: PathConfig) {
    p.gnmi || (config.gnmi && !p.preGnmi)
  }

  predicate ViaJunos(config: Config, p: PathConfig) {
    p.preGnmi || (!config.gnmi && !p.gnmi)
  }

  /** The paths of a kind, in order. */
  function Select(paths: seq<PathConfig>, keep: PathConfig -> bool): seq<PathConfig> {
    if paths == [] then []
    else
      var k := |paths| - 1;
      Select(paths[..k], keep) + if keep(paths[k]) then [paths[k]] else []
  }

  function GnmiPaths(config: Config, paths: seq<PathConfig>): seq<PathConfig> {
    Select(paths, p => ViaGnmi(config, p))
  }

  function JunosPaths(config: Config, paths: seq<PathConfig>): seq<PathConfig> {
    Select(paths, p => ViaJunos(config, p))
  }

  /** The paths marked both ways. */
  function Marked(paths: seq<PathConfig>): seq<PathConfig> {
    Select(paths, (p: PathConfig) => p.gnmi && p.preGnmi)
  }

  method GetGnmiPaths(config: Config) returns (r: seq<PathConfig>)
    ensures r == GnmiPaths(config, config.paths)
  {
    r := [];
    for i := 0 to |config.paths|
      invariant r == GnmiPaths(config, config.paths[..i])
    {
      assert config.paths[..i + 1][..i] == config.paths[..i];
      if config.paths[i].gnmi || (config.gnmi && !config.paths[i].preGnmi) {
        r := r + [config.paths[i]];
      }
    }
    assert config.paths[..|config.paths|] == config.paths;
  }

  method GetPreGnmiPaths(config: Config) returns (r: seq<PathConfig>)
    ensures r == JunosPaths(config, config.paths)
  {
    r := [];
    for i := 0 to |config.paths|
      invariant r == JunosPaths(config, config.paths[..i])
    {
      assert config.paths[..i + 1][..i] == config.paths[..i];
      if config.paths[i].preGnmi || (!config.gnmi && !config.paths[i].gnmi) {
        r := r + [config.paths[i]];
      }
    }
    assert config.paths[..|config.paths|] == config.paths;
  }

  lemma {:induction false} SelectCount(paths: seq<PathConfig>, keep: PathConfig -> bool, p: PathConfig)
    ensures multiset(Select(paths, keep))[p] == if keep(p) then multiset(paths)[p] else 0
  {
    if paths != [] {
      var k := |paths| - 1;
      SelectCount(paths[..k], keep, p);
      assert paths == paths[..k] + [paths[k]];
    }
  }

  /** No path is lost between the two subscriptions, and only paths marked both ways go to both. */
  lemma PathsAreShared(config: Config, paths: seq<PathConfig>)
    ensures multiset(GnmiPaths(config, paths)) + multiset(JunosPaths(config, paths)) ==
      multiset(paths) + multiset(Marked(paths))
  {
    hide Select;
    var g, j, m := GnmiPaths(config, paths), JunosPaths(config, paths), Marked(paths);
    forall q: PathConfig ensures multiset(g)[q] + multiset(j)[q] == multiset(paths)[q] + multiset(m)[q] {
      SelectCount(paths, p => ViaGnmi(config, p), q);
      SelectCount(paths, p => ViaJunos(config, p), q);
      SelectCount(paths, (p: PathConfig) => p.gnmi && p.preGnmi, q);
    }
  }

  lemma {:induction false} SelectSome(paths: seq<PathConfig>, keep: PathConfig -> bool)
    ensures Select(paths, keep) != [] <==> exists p :: p in paths && keep(p)
  {
    if paths != [] {
      var k := |paths| - 1;
      SelectSome(paths[..k], keep);
      assert paths == paths[..k] + [paths[k]];
    }
  }

  /** The mixed subscription calls each of the two with its paths, if there are any. */
  lemma MixedCalls(config: Config)
    ensures CallsGnmi(PrePostGnmi, config) <==> GnmiPaths(config, config.paths) != []
    ensures CallsJunos(PrePostGnmi, config) <==> JunosPaths(config, config.paths) != []
  {
    hide Select;
    SelectSome(config.paths, p => ViaGnmi(config, p));
    SelectSome(config.paths, p => ViaJunos(config, p));
  }

  // ---------- one round ----------

  /** Do the paths ask for both kinds of subscription? */
  predicate AsksBoth(config: Config) {
    exists p :: p in config.paths && (p.preGnmi || p.gnmi)
  }

  /** Is a login check to be sent? */
  predicate LoginNeeded(v: Vendor, config: Config, tryGnmi: bool, prePost: bool) {
    v == Junos || (prePost && exists p :: p in config.paths && (p.preGnmi || (!tryGnmi && !p.gnmi)))
  }

  /** Does a subscription by this vendor call the gNMI one? */
  predicate CallsGnmi(v: Vendor, config: Config) {
    v == Gnmi || (v == PrePostGnmi && exists p :: p in config.paths && ViaGnmi(config, p))
  }

  /** Does a subscription by this vendor call the Junos one? */
  predicate CallsJunos(v: Vendor, config: Config) {
    v == Junos || (v == PrePostGnmi && exists p :: p in config.paths && ViaJunos(config, p))
  }

  /** The gNMI subscription reads the gNMI section of the configuration, and there is none. */
  predicate Faults(v: Vendor, config: Config) {
    CallsGnmi(v, config) && !config.gnmi
  }

  /** The mixed subscription calls neither kind and waits for a result that never comes. */
  predicate Hangs(v: Vendor, config: Config) {
    v == PrePostGnmi && !CallsGnmi(v, config) && !CallsJunos(v, config)
  }

  /** Every path is of one kind, so that happens exactly without paths. */
  lemma HangsIff(v: Vendor, config: Config)
    ensures Hangs(v, config) <==> v == PrePostGnmi && config.paths == []
  {
    if config.paths != [] {
      var p := config.paths[0];
      assert p in config.paths && (ViaGnmi(config, p) || ViaJunos(config, p));
    }
  }

  predicate Leaves(code: Code) {
    code.SighupNoRestart? || code.OnceComplete?
  }

  /** The events of a subscription. */
  function Streaming(v: Vendor, config: Config, tryGnmi: bool, during: Option<Config>, code: Code): seq<Event> {
    if Faults(v, config) then [Crashed(v)]
    else if Hangs(v, config) then [Hung]
    else if Leaves(code) then [Subscribed(v, config, tryGnmi, during, code), Closed, StatusOffered]
    else [Subscribed(v, config, tryGnmi, during, code), Closed]
  }

  /** The events of a round, from the vendor on. */
  function Connecting(v: Vendor, config: Config, tryGnmi: bool, prePost: bool, a: Attempt): seq<Event> {
    if !a.optionsOk || (config.host == "" && config.port == 0) || a.interrupted then [StatusOffered]
    else if !a.dialOk then []
    else if !LoginNeeded(v, config, tryGnmi, prePost) then [Dialed] + Streaming(v, config, tryGnmi, a.during, a.code)
    else if !a.loginOk then [Dialed, LoggedIn(v, false), Closed]
    else [Dialed, LoggedIn(v, true)] + Streaming(v, config, tryGnmi, a.during, a.code)
  }

  /** The events of a round. */
  function Round(config: Config, tryGnmi: bool, prePost: bool, a: Attempt): seq<Event> {
    var now := Now(config, a.early);
    var v := VendorOf(now, tryGnmi, prePost);
    (if a.early.Some? then [Reread(now)] else []) +
    (if v.None? then [] else Connecting(v.value, now, tryGnmi, prePost, a))
  }

  // ---------- what a log tells ----------

  /** The configuration after a re-read, if there was one. */
  function Now(config: Config, read: Option<Config>): Config {
    if read.Some? then read.value else config
  }

  /** The configuration and the gNMI flag that the next round finds. */
  datatype Mode = Mode(config: Config, tryGnmi: bool)

  function Effect(m: Mode, e: Event): Mode {
    match e
    case Reread(config) => m.(config := config)
    case LoggedIn(_, ok) => if ok then m else m.(tryGnmi := m.config.gnmi)
    case Subscribed(_, _, _, during, code) =>
      var now := Now(m.config, during);
      if Leaves(code) then m
      else Mode(now, if code.RPCFailedNoRetry? then false else now.gnmi)
    case _ => m
  }

  /** The mode after some events. */
  function Effects(m: Mode, events: seq<Event>): Mode {
    if events == [] then m else Effect(Effects(m, events[..|events| - 1]), events[|events| - 1])
  }

  function Replay(initial: Config, log: seq<Event>): Mode {
    Effects(Mode(initial, initial.gnmi), log)
  }

  /** Connections opened and not closed. */
  function Open(log: seq<Event>): int {
    if log == [] then 0
    else
      Open(log[..|log| - 1]) + match log[|log| - 1]
        case Dialed => 1
        case Closed => -1
        case _ => 0
  }

  /** The worker has left the loop, the program has stopped, or the worker waits for ever. */
  predicate Ended(log: seq<Event>) {
    log != [] && (log[|log| - 1].StatusOffered? || log[|log| - 1].Crashed? || log[|log| - 1].Hung?)
  }

  function Trace(initial: Config, script: seq<Attempt>): seq<Event> {
    if script == [] then []
    else
      var before := Trace(initial, script[..|script| - 1]);
      var m := Replay(initial, before);
      if Ended(before) then before
      else before + Round(m.config, m.tryGnmi, AsksBoth(initial), script[|script| - 1])
  }

  lemma EffectsMore(m: Mode, log: seq<Event>, e: Event)
    ensures Effects(m, log + [e]) == Effect(Effects(m, log), e)
  {
    assert (log + [e])[..|log|] == log;
  }

  lemma {:induction false} EffectsAll(m: Mode, log: seq<Event>, events: seq<Event>)
    ensures Effects(m, log + events) == Effects(Effects(m, log), events)
  {
    if events == [] {
      assert log + events == log;
    } else {
      var k := |events| - 1;
      EffectsAll(m, log, events[..k]);
      assert (log + events)[..|log| + k] == log + events[..k];
    }
  }

  lemma OpenMore(log: seq<Event>, e: Event)
    ensures Open(log + [e]) == Open(log) + (match e case Dialed => 1 case Closed => -1 case _ => 0)
  {
    assert (log + [e])[..|log|] == log;
  }

  // ---------- the loop ----------

  /** The loop over a script of what the environment does; it stops early when the worker leaves. */
  method Work(initial: Config, script: seq<Attempt>) returns (log: seq<Event>)
    ensures log == Trace(initial, script)
  {
    hide Round;
    hide Effects;
    var config, tryGnmi := initial, false;
    log := [];
    if config.gnmi {
      tryGnmi := true;
    }
    StartMode(initial);
    var prePost := FindMarks(config);
    for i := 0 to |script|
      invariant log == Trace(initial, script[..i]) && !Ended(log)
      invariant Mode(config, tryGnmi) == Replay(initial, log)
    {
      var events;
      TraceMore(initial, script, i);
      events, config, tryGnmi := WorkRound(config, tryGnmi, prePost, script[i]);
      EffectsAll(Mode(initial, initial.gnmi), log, events);
      log := log + events;
      if Ended(log) {
        TraceStops(initial, script, i + 1);
        return;
      }
    }
    assert script[..|script|] == script;
  }

  lemma StartMode(initial: Config)
    ensures Replay(initial, []) == Mode(initial, initial.gnmi)
  {
  }

  lemma TraceMore(initial: Config, script: seq<Attempt>, i: nat)
    requires i < |script|
    ensures var before := Trace(initial, script[..i]);
      Trace(initial, script[..i + 1]) ==
      if Ended(before) then before
      else before + Round(Replay(initial, before).config, Replay(initial, before).tryGnmi, AsksBoth(initial), script[i])
  {
    assert script[..i + 1][..i] == script[..i];
  }

  /** Is some path marked as gNMI or pre-gNMI? */
  method FindMarks(config: Config) returns (prePost: bool)
    ensures prePost == AsksBoth(config)
  {
    prePost := false;
    for i := 0 to |config.paths|
      invariant prePost <==> exists p :: p in config.paths[..i] && (p.preGnmi || p.gnmi)
    {
      var p := config.paths[i];
      assert config.paths[..i + 1] == config.paths[..i] + [p];
      if p.preGnmi || p.gnmi {
        prePost := true;
      }
    }
    assert config.paths[..|config.paths|] == config.paths;
  }

  /** Is a login check to be sent in the mixed mode? */
  method FindLoginCheck(config: Config, tryGnmi: bool) returns (loginCheck: bool)
    ensures loginCheck <==> exists p :: p in config.paths && (p.preGnmi || (!tryGnmi && !p.gnmi))
  {
    loginCheck := false;
    for i := 0 to |config.paths|
      invariant loginCheck <==> exists p :: p in config.paths[..i] && (p.preGnmi || (!tryGnmi && !p.gnmi))
    {
      var p := config.paths[i];
      assert config.paths[..i + 1] == config.paths[..i] + [p];
      if p.preGnmi || (!tryGnmi && !p.preGnmi && !p.gnmi) {
        loginCheck := true;
      }
    }
    assert config.paths[..|config.paths|] == config.paths;
  }

  /** One round of the loop, from the connect label back to it or out of the loop. */
  method WorkRound(config0: Config, tryGnmi0: bool, prePost: bool, a: Attempt)
    returns (log: seq<Event>, config: Config, tryGnmi: bool)
    ensures log == Round(config0, tryGnmi0, prePost, a)
    ensures Mode(config, tryGnmi) == Effects(Mode(config0, tryGnmi0), log)
  {
    config, tryGnmi, log := config0, tryGnmi0, [];
    if a.early.Some? {
      config, log := a.early.value, [Reread(a.early.value)];
    }
    var vendor := GetVendor(config, tryGnmi, prePost);
    assert Mode(config, tryGnmi) == Effects(Mode(config0, tryGnmi0), log);
    if vendor.Some? {
      var events;
      ghost var head := log;
      events, config, tryGnmi := Connect(vendor.value, config, tryGnmi, prePost, a);
      log := log + events;
      EffectsAll(Mode(config0, tryGnmi0), head, events);
    }
  }

  /** The round once the vendor is known. */
  method Connect(v: Vendor, config0: Config, tryGnmi0: bool, prePost: bool, a: Attempt)
    returns (log: seq<Event>, config: Config, tryGnmi: bool)
    ensures log == Connecting(v, config0, tryGnmi0, prePost, a)
    ensures Mode(config, tryGnmi) == Effects(Mode(config0, tryGnmi0), log)
  {
    hide Streaming;
    hide Effects;
    NoEffect(Mode(config0, tryGnmi0));
    OneEffect(Mode(config0, tryGnmi0), StatusOffered);
    OneEffect(Mode(config0, tryGnmi0), Dialed);
    config, tryGnmi, log := config0, tryGnmi0, [];
    if !a.optionsOk || (config.host == "" && config.port == 0) || a.interrupted {
      log := [StatusOffered];
      return;
    }
    if !a.dialOk {
      return;
    }
    log := [Dialed];
    var loginCheck := false;
    if prePost {
      loginCheck := FindLoginCheck(config, tryGnmi);
    }
    if v == Junos || loginCheck {
      EffectsMore(Mode(config0, tryGnmi0), log, LoggedIn(v, a.loginOk));
      log := log + [LoggedIn(v, a.loginOk)];
      if !a.loginOk {
        EffectsMore(Mode(config0, tryGnmi0), log, Closed);
        log := log + [Closed];
        tryGnmi := config.gnmi;
        return;
      }
    }
    ghost var head := log;
    assert Effects(Mode(config0, tryGnmi0), head) == Mode(config0, tryGnmi0);
    var events;
    events, config, tryGnmi := Stream(v, config, tryGnmi, a.during, a.code);
    log := log + events;
    EffectsAll(Mode(config0, tryGnmi0), head, events);
  }

  lemma NoEffect(m: Mode)
    ensures Effects(m, []) == m
  {
  }

  lemma OneEffect(m: Mode, e: Event)
    ensures Effects(m, [e]) == Effect(m, e)
  {
    assert [e][..0] == [];
  }

  lemma StreamingEffect(m: Mode, e: Event)
    ensures Effects(m, [e, Closed]) == Effects(m, [e, Closed, StatusOffered]) == Effect(m, e)
  {
    OneEffect(m, e);
    EffectsMore(m, [e], Closed);
    EffectsMore(m, [e, Closed], StatusOffered);
    assert [e] + [Closed] == [e, Closed] && [e, Closed] + [StatusOffered] == [e, Closed, StatusOffered];
  }

  /** The subscription and what its code leads to. */
  method Stream(v: Vendor, config0: Config, tryGnmi0: bool, during: Option<Config>, code: Code)
    returns (log: seq<Event>, config: Config, tryGnmi: bool)
    ensures log == Streaming(v, config0, tryGnmi0, during, code)
    ensures Mode(config, tryGnmi) == Effects(Mode(config0, tryGnmi0), log)
  {
    hide Faults;
    hide Hangs;
    hide Effects;
    config, tryGnmi, log := config0, tryGnmi0, [];
    if Faults(v, config) {
      log := [Crashed(v)];
      OneEffect(Mode(config, tryGnmi), Crashed(v));
      return;
    }
    if Hangs(v, config) {
      log := [Hung];
      OneEffect(Mode(config, tryGnmi), Hung);
      return;
    }
    var subscribed := Subscribed(v, config, tryGnmi, during, code);
    StreamingEffect(Mode(config, tryGnmi), subscribed);
    log := [subscribed, Closed];
    match code
    case SighupRestart =>
      config := Now(config, during);
      tryGnmi := config.gnmi;
    case RPCFailedNoRetry =>
      config := Now(config, during);
      if tryGnmi {
        tryGnmi := false;
      }
    case ConnRetry =>
      config := Now(config, during);
      tryGnmi := config.gnmi;
    case SighupNoRestart =>
      log := [subscribed, Closed, StatusOffered];
    case OnceComplete =>
      log := [subscribed, Closed, StatusOffered];
  }

  lemma {:induction false} TraceStops(initial: Config, script: seq<Attempt>, i: nat)
    requires i <= |script| && Ended(Trace(initial, script[..i]))
    ensures Trace(initial, script) == Trace(initial, script[..i])
    decreases |script| - i
  {
    hide Trace;
    hide Round;
    hide Ended;
    if i < |script| {
      TraceMore(initial, script, i);
      TraceStops(initial, script, i + 1);
    } else {
      assert script[..i] == script;
    }
  }

  // ---------- what every run keeps ----------

  /** May this event follow this log? */
  ghost predicate Allowed(initial: Config, log: seq<Event>, e: Event) {
    && !Ended(log)
    && match e
       case Reread(_) => Open(log) == 0
       case Dialed => Open(log) == 0
       case LoggedIn(v, _) => Open(log) == 1 && log != [] && log[|log| - 1] == Dialed && CanLogin(v)
       case Subscribed(v, config, tryGnmi, _, _) =>
         && Open(log) == 1
         && Replay(initial, log) == Mode(config, tryGnmi)
         && VendorOf(config, tryGnmi, AsksBoth(initial)) == Some(v)
         && (CallsGnmi(v, config) ==> config.gnmi)
         && log != [] && log[|log| - 1] == if LoginNeeded(v, config, tryGnmi, AsksBoth(initial)) then
           LoggedIn(v, true) else Dialed
       case Crashed(v) =>
         var m := Replay(initial, log);
         Open(log) == 1 && VendorOf(m.config, m.tryGnmi, AsksBoth(initial)) == Some(v) && Faults(v, m.config)
       case Hung =>
         var m := Replay(initial, log);
         Open(log) == 1 && VendorOf(m.config, m.tryGnmi, AsksBoth(initial)) == Some(PrePostGnmi) &&
           Hangs(PrePostGnmi, m.config)
       case Closed => Open(log) == 1
       case StatusOffered => Open(log) == 0
  }

  ghost predicate Good(initial: Config, log: seq<Event>) {
    forall i :: 0 <= i < |log| ==> Allowed(initial, log[..i], log[i])
  }

  lemma GoodMore(initial: Config, log: seq<Event>, e: Event)
    requires Good(initial, log) && Allowed(initial, log, e)
    ensures Good(initial, log + [e])
    ensures Open(log + [e]) == Open(log) + (match e case Dialed => 1 case Closed => -1 case _ => 0)
    ensures Replay(initial, log + [e]) == Effect(Replay(initial, log), e)
  {
    hide Allowed;
    OpenMore(log, e);
    EffectsMore(Mode(initial, initial.gnmi), log, e);
    var more := log + [e];
    forall i | 0 <= i < |more| ensures Allowed(initial, more[..i], more[i]) {
      if i < |log| {
        assert more[..i] == log[..i];
      } else {
        assert more[..i] == log;
      }
    }
  }

  /** No connection is left open, unless the program has stopped or the worker waits for ever. */
  predicate Settled(log: seq<Event>) {
    Open(log) == 0 || (log != [] && (log[|log| - 1].Crashed? || log[|log| - 1].Hung?))
  }

  /** The state of the loop just before a subscription. */
  ghost predicate Ready(initial: Config, log: seq<Event>, v: Vendor, config: Config, tryGnmi: bool) {
    && Good(initial, log) && !Ended(log) && Open(log) == 1 && log != []
    && Replay(initial, log) == Mode(config, tryGnmi) && VendorOf(config, tryGnmi, AsksBoth(initial)) == Some(v)
    && log[|log| - 1] == if LoginNeeded(v, config, tryGnmi, AsksBoth(initial)) then LoggedIn(v, true) else Dialed
  }

  lemma StreamingGood(initial: Config, log: seq<Event>, v: Vendor, config: Config, tryGnmi: bool,
                      during: Option<Config>, code: Code)
    requires Ready(initial, log, v, config, tryGnmi)
    ensures var all := log + Streaming(v, config, tryGnmi, during, code); Good(initial, all) && Settled(all)
  {
    hide LoginNeeded;
    hide VendorOf;
    hide AsksBoth;
    hide Effects;
    hide Good;
    hide Open;
    hide CallsGnmi;
    if Faults(v, config) {
      GoodMore(initial, log, Crashed(v));
    } else if Hangs(v, config) {
      GoodMore(initial, log, Hung);
    } else {
      var e := Subscribed(v, config, tryGnmi, during, code);
      GoodMore(initial, log, e);
      GoodMore(initial, log + [e], Closed);
      assert log + [e, Closed] == log + [e] + [Closed];
      if Leaves(code) {
        GoodMore(initial, log + [e, Closed], StatusOffered);
        assert log + [e, Closed, StatusOffered] == log + [e, Closed] + [StatusOffered];
      }
    }
  }

  /** The state of the loop at the connect label, with the vendor found. */
  ghost predicate Chosen(initial: Config, log: seq<Event>, v: Vendor, config: Config, tryGnmi: bool) {
    && Good(initial, log) && !Ended(log) && Open(log) == 0
    && Replay(initial, log) == Mode(config, tryGnmi) && VendorOf(config, tryGnmi, AsksBoth(initial)) == Some(v)
  }

  lemma DialedMore(initial: Config, log: seq<Event>)
    requires Good(initial, log) && !Ended(log) && Open(log) == 0
    ensures Good(initial, log + [Dialed]) && Open(log + [Dialed]) == 1 && !Ended(log + [Dialed])
    ensures Replay(initial, log + [Dialed]) == Replay(initial, log)
  {
    hide LoginNeeded;
    hide VendorOf;
    hide AsksBoth;
    hide Effects;
    hide Good;
    hide Open;
    GoodMore(initial, log, Dialed);
  }

  lemma LoggedMore(initial: Config, log: seq<Event>, v: Vendor, ok: bool)
    requires Good(initial, log) && log != [] && log[|log| - 1] == Dialed && Open(log) == 1 && CanLogin(v)
    ensures var more := log + [LoggedIn(v, ok)];
      && Good(initial, more) && Open(more) == 1 && !Ended(more)
      && (ok ==> Replay(initial, more) == Replay(initial, log))
  {
    hide LoginNeeded;
    hide VendorOf;
    hide AsksBoth;
    hide Effects;
    hide Good;
    hide Open;
    GoodMore(initial, log, LoggedIn(v, ok));
  }

  lemma ClosedMore(initial: Config, log: seq<Event>)
    requires Good(initial, log) && !Ended(log) && Open(log) == 1
    ensures Good(initial, log + [Closed]) && Settled(log + [Closed])
  {
    hide LoginNeeded;
    hide VendorOf;
    hide AsksBoth;
    hide Effects;
    hide Good;
    hide Open;
    GoodMore(initial, log, Closed);
  }

  lemma AppendTwo(log: seq<Event>, a: Event, b: Event)
    ensures log + [a, b] == log + [a] + [b]
  {
  }

  lemma AppendThree(log: seq<Event>, a: Event, b: Event, c: Event)
    ensures log + [a, b, c] == log + [a] + [b] + [c]
  {
  }

  lemma DialGood(initial: Config, log: seq<Event>, v: Vendor, config: Config, tryGnmi: bool)
    requires Chosen(initial, log, v, config, tryGnmi) && !LoginNeeded(v, config, tryGnmi, AsksBoth(initial))
    ensures Ready(initial, log + [Dialed], v, config, tryGnmi)
  {
    hide LoginNeeded;
    hide VendorOf;
    hide AsksBoth;
    hide Effects;
    hide Good;
    hide Open;
    DialedMore(initial, log);
  }

  lemma LoginGood(initial: Config, log: seq<Event>, v: Vendor, config: Config, tryGnmi: bool)
    requires Chosen(initial, log, v, config, tryGnmi) && LoginNeeded(v, config, tryGnmi, AsksBoth(initial))
    ensures Ready(initial, log + [Dialed, LoggedIn(v, true)], v, config, tryGnmi)
  {
    LoginIsKnown(v, config, tryGnmi, AsksBoth(initial));
    hide LoginNeeded;
    hide VendorOf;
    hide AsksBoth;
    hide Effects;
    hide Good;
    hide Open;
    hide Replay;
    hide Ended;
    DialedMore(initial, log);
    var dialed := log + [Dialed];
    LoggedMore(initial, dialed, v, true);
    AppendTwo(log, Dialed, LoggedIn(v, true));
  }

  lemma LoginFailedGood(initial: Config, log: seq<Event>, v: Vendor, config: Config, tryGnmi: bool)
    requires Chosen(initial, log, v, config, tryGnmi) && LoginNeeded(v, config, tryGnmi, AsksBoth(initial))
    ensures var all := log + [Dialed, LoggedIn(v, false), Closed]; Good(initial, all) && Settled(all)
  {
    LoginIsKnown(v, config, tryGnmi, AsksBoth(initial));
    hide LoginNeeded;
    hide VendorOf;
    hide AsksBoth;
    hide Effects;
    hide Good;
    hide Open;
    hide Replay;
    hide Allowed;
    hide Ended;
    hide Settled;
    DialedMore(initial, log);
    var dialed := log + [Dialed];
    LoggedMore(initial, dialed, v, false);
    var refused := dialed + [LoggedIn(v, false)];
    ClosedMore(initial, refused);
    AppendThree(log, Dialed, LoggedIn(v, false), Closed);
  }

  /** A login check is asked only of a vendor that has one. */
  lemma LoginIsKnown(v: Vendor, config: Config, tryGnmi: bool, prePost: bool)
    requires VendorOf(config, tryGnmi, prePost) == Some(v) && LoginNeeded(v, config, tryGnmi, prePost)
    ensures CanLogin(v)
  {
    NamesDiffer();
  }

  lemma ConnectingGood(initial: Config, log: seq<Event>, v: Vendor, config: Config, tryGnmi: bool, a: Attempt)
    requires Chosen(initial, log, v, config, tryGnmi)
    ensures var all := log + Connecting(v, config, tryGnmi, AsksBoth(initial), a); Good(initial, all) && Settled(all)
  {
    hide LoginNeeded;
    hide VendorOf;
    hide AsksBoth;
    hide Effects;
    hide Good;
    hide Open;
    hide Streaming;
    hide Ready;
    assert log + [] == log;
    GoodMore(initial, log, StatusOffered);
    var stream := Streaming(v, config, tryGnmi, a.during, a.code);
    if LoginNeeded(v, config, tryGnmi, AsksBoth(initial)) {
      var head := [Dialed, LoggedIn(v, true)];
      LoginGood(initial, log, v, config, tryGnmi);
      LoginFailedGood(initial, log, v, config, tryGnmi);
      StreamingGood(initial, log + head, v, config, tryGnmi, a.during, a.code);
      Associative(log, head, stream);
    } else {
      DialGood(initial, log, v, config, tryGnmi);
      StreamingGood(initial, log + [Dialed], v, config, tryGnmi, a.during, a.code);
      Associative(log, [Dialed], stream);
    }
  }

  /** In every run each event is allowed after those before it. */
  lemma {:induction false} TraceGood(initial: Config, script: seq<Attempt>)
    ensures Good(initial, Trace(initial, script)) && Settled(Trace(initial, script))
  {
    if script != [] {
      var k := |script| - 1;
      TraceGood(initial, script[..k]);
      var before := Trace(initial, script[..k]);
      if !Ended(before) {
        RoundGood(initial, before, script[k]);
      }
    }
  }

  lemma RoundGood(initial: Config, log: seq<Event>, a: Attempt)
    requires Good(initial, log) && !Ended(log) && Open(log) == 0
    ensures var m := Replay(initial, log);
      var all := log + Round(m.config, m.tryGnmi, AsksBoth(initial), a); Good(initial, all) && Settled(all)
  {
    hide Connecting;
    hide VendorOf;
    hide AsksBoth;
    hide Effects;
    hide Good;
    hide Open;
    hide CallsGnmi;
    var m := Replay(initial, log);
    var start := log;
    if a.early.Some? {
      GoodMore(initial, log, Reread(a.early.value));
      start := log + [Reread(a.early.value)];
      m := Replay(initial, start);
    }
    var v := VendorOf(m.config, m.tryGnmi, AsksBoth(initial));
    var rest := if v.None? then [] else Connecting(v.value, m.config, m.tryGnmi, AsksBoth(initial), a);
    if v.Some? {
      ConnectingGood(initial, start, v.value, m.config, m.tryGnmi, a);
    }
    assert start + [] == start;
    if a.early.Some? {
      Associative(log, [Reread(a.early.value)], rest);
    } else {
      assert [] + rest == rest;
    }
  }

  lemma OneOpen(initial: Config, log: seq<Event>, i: nat)
    requires Good(initial, log) && i <= |log|
    ensures 0 <= Open(log[..i]) <= 1
    ensures i < |log| && (log[i].Dialed? || log[i].StatusOffered?) ==> Open(log[..i]) == 0
    ensures 0 < i < |log| ==> !log[i - 1].StatusOffered? && !log[i - 1].Crashed? && !log[i - 1].Hung?
  {
    hide LoginNeeded;
    hide VendorOf;
    hide AsksBoth;
    hide Effects;
    hide CallsGnmi;
    assert i < |log| ==> Allowed(initial, log[..i], log[i]);
    if i > 0 {
      assert log[..i][i - 1] == log[i - 1];
      assert Allowed(initial, log[..i - 1], log[i - 1]);
      OpenMore(log[..i - 1], log[i - 1]);
      assert log[..i] == log[..i - 1] + [log[i - 1]];
    }
  }

  /**
   At most one connection is open at any time, and each is closed before the next dial and before the worker leaves.
   */
  lemma AtMostOneOpen(initial: Config, script: seq<Attempt>, i: nat)
    requires i <= |Trace(initial, script)|
    ensures var log := Trace(initial, script);
      && 0 <= Open(log[..i]) <= 1
      && (i < |log| && (log[i].Dialed? || log[i].StatusOffered?) ==> Open(log[..i]) == 0)
  {
    hide Trace;
    TraceGood(initial, script);
    OneOpen(initial, Trace(initial, script), i);
  }

  /** A worker that leaves offers one status token, as its last act. */
  lemma StatusIsLast(initial: Config, script: seq<Attempt>, i: nat)
    requires i + 1 < |Trace(initial, script)|
    ensures var e := Trace(initial, script)[i]; !e.StatusOffered? && !e.Crashed? && !e.Hung?
  {
    hide Trace;
    TraceGood(initial, script);
    OneOpen(initial, Trace(initial, script), i + 1);
  }

  // ---------- the gNMI flag and the login check ----------

  /** Was the last thing that decides the mode a subscription that failed for good? */
  predicate FallenBack(log: seq<Event>) {
    log != [] &&
    match log[|log| - 1]
    case LoggedIn(_, ok) => ok && FallenBack(log[..|log| - 1])
    case Subscribed(_, _, _, _, code) => code.RPCFailedNoRetry? || (Leaves(code) && FallenBack(log[..|log| - 1]))
    case _ => FallenBack(log[..|log| - 1])
  }

  /**
   While configurations are re-read only as a subscription streams, gNMI is tried exactly if it is configured and
   has not just failed.
   */
  lemma {:induction false} GnmiModeIff(initial: Config, log: seq<Event>)
    requires forall e :: e in log ==> !e.Reread?
    ensures Replay(initial, log).tryGnmi <==> Replay(initial, log).config.gnmi && !FallenBack(log)
  {
    if log != [] {
      assert log[|log| - 1] in log;
      GnmiModeIff(initial, log[..|log| - 1]);
    }
  }

  /** No configuration is read between two rounds. */
  ghost predicate NoEarly(script: seq<Attempt>) {
    forall a :: a in script ==> a.early.None?
  }

  lemma RoundHasNoReread(config: Config, tryGnmi: bool, prePost: bool, a: Attempt)
    requires a.early.None?
    ensures forall e :: e in Round(config, tryGnmi, prePost, a) ==> !e.Reread?
  {
    hide LoginNeeded;
    hide VendorOf;
    hide Streaming;
    var v := VendorOf(config, tryGnmi, prePost);
    if v.Some? {
      StreamingHasNoReread(v.value, config, tryGnmi, a.during, a.code);
    }
  }

  lemma StreamingHasNoReread(v: Vendor, config: Config, tryGnmi: bool, during: Option<Config>, code: Code)
    ensures forall e :: e in Streaming(v, config, tryGnmi, during, code) ==> !e.Reread?
  {
    hide Faults;
  }

  lemma {:induction false} NoReread(initial: Config, script: seq<Attempt>)
    requires NoEarly(script)
    ensures forall e :: e in Trace(initial, script) ==> !e.Reread?
  {
    if script != [] {
      var k := |script| - 1;
      assert script[k] in script;
      NoReread(initial, script[..k]);
      TraceMore(initial, script, k);
      hide Trace;
      hide Round;
      hide Replay;
      hide AsksBoth;
      hide Ended;
      assert script[..k + 1] == script;
      var before := Trace(initial, script[..k]);
      var m := Replay(initial, before);
      RoundHasNoReread(m.config, m.tryGnmi, AsksBoth(initial), script[k]);
      var round := Round(m.config, m.tryGnmi, AsksBoth(initial), script[k]);
      assert forall e: Event :: e in before + round ==> !e.Reread?;
    }
  }

  /** The subscription at i was preceded by a successful login check on its connection. */
  ghost predicate Checked(log: seq<Event>, i: nat) {
    2 <= i < |log| && log[i].Subscribed? && log[i - 2] == Dialed && log[i - 1] == LoggedIn(log[i].via, true)
  }

  /** A login check is on the connection dialed just before it. */
  lemma CheckedIff(initial: Config, script: seq<Attempt>, i: nat)
    requires var log := Trace(initial, script); i < |log| && log[i].Subscribed?
    ensures var log := Trace(initial, script);
      && Allowed(initial, log[..i], log[i])
      && (Checked(log, i) <==> LoginNeeded(log[i].via, log[i].config, log[i].tryGnmi, AsksBoth(initial)))
  {
    TraceGood(initial, script);
    var log := Trace(initial, script);
    hide LoginNeeded;
    hide VendorOf;
    hide AsksBoth;
    hide CallsGnmi;
    hide Effects;
    hide Trace;
    assert Allowed(initial, log[..i], log[i]);
    assert log[..i][i - 1] == log[i - 1];
    if log[i - 1].LoggedIn? {
      assert Allowed(initial, log[..i - 1], log[i - 1]);
    }
  }

  /** gNMI is subscribed only where it is configured, and in gNMI mode it is. */
  lemma GnmiIsConfigured(initial: Config, script: seq<Attempt>, i: nat)
    requires NoEarly(script)
    requires var log := Trace(initial, script); i < |log| && log[i].Subscribed?
    ensures var e := Trace(initial, script)[i];
      && (e.tryGnmi <==> e.config.gnmi && !FallenBack(Trace(initial, script)[..i]))
      && (CallsGnmi(e.via, e.config) ==> e.config.gnmi)
  {
    CheckedIff(initial, script, i);
    NoReread(initial, script);
    GnmiModeIff(initial, Trace(initial, script)[..i]);
  }

  /**
   A subscription that calls the Junos one follows a login check, exactly unless the mixed vendor was configured
   by its name and the first configuration had no marked path.
   */
  lemma JunosIsChecked(initial: Config, script: seq<Attempt>, i: nat)
    requires NoEarly(script)
    requires var log := Trace(initial, script); i < |log| && log[i].Subscribed? && CallsJunos(log[i].via, log[i].config)
    ensures var log := Trace(initial, script);
      Checked(log, i) <==> AsksBoth(initial) || log[i].config.vendorName != "pre-post-gnmi"
  {
    CheckedIff(initial, script, i);
    GnmiIsConfigured(initial, script, i);
    var log := Trace(initial, script);
    var e := log[i];
    hide Trace;
    NamesDiffer();
    LoginIff(e.via, e.config, e.tryGnmi, AsksBoth(initial));
  }

  lemma LoginIff(v: Vendor, config: Config, tryGnmi: bool, prePost: bool)
    requires VendorOf(config, tryGnmi, prePost) == Some(v) && CallsJunos(v, config) && (tryGnmi ==> config.gnmi)
    ensures LoginNeeded(v, config, tryGnmi, prePost) <==> prePost || config.vendorName != "pre-post-gnmi"
  {
    NamesDiffer();
  }

  /**
   The configuration leads to Junos in its own right: by name or by default, and without a gNMI section or after its
   failure.
   */
  predicate IsJunos(config: Config, fallenBack: bool) {
    (config.vendorName == "" || config.vendorName == "juniper-junos") && (!config.gnmi || fallenBack)
  }

  /**
   A subscription of paths marked pre-gNMI follows a login check, exactly if the first configuration had a marked path
   or the present one leads to Junos.
   */
  lemma MarkedIsChecked(initial: Config, script: seq<Attempt>, i: nat, p: PathConfig)
    requires NoEarly(script)
    requires var log := Trace(initial, script); i < |log| && log[i].Subscribed? && p in log[i].config.paths && p.preGnmi
    ensures var log := Trace(initial, script);
      Checked(log, i) <==> AsksBoth(initial) || IsJunos(log[i].config, FallenBack(log[..i]))
  {
    CheckedIff(initial, script, i);
    GnmiIsConfigured(initial, script, i);
    var log := Trace(initial, script);
    var e := log[i];
    hide Trace;
    hide FallenBack;
    if !AsksBoth(initial) {
      JunosIff(e.via, e.config, e.tryGnmi, false);
    }
  }

  lemma JunosIff(v: Vendor, config: Config, tryGnmi: bool, prePost: bool)
    requires VendorOf(config, tryGnmi, prePost) == Some(v) && !prePost
    ensures v == Junos <==> !tryGnmi && (config.vendorName == "" || config.vendorName == "juniper-junos")
  {
    NamesDiffer();
  }

  /** gNMI is asked for without its section: by a path's mark in the mixed mode, or by the vendor's name. */
  predicate AsksGnmiByHand(config: Config, prePost: bool) {
    && !config.gnmi
    && ((config.vendorName == "gnmi" && !prePost)
        || ((prePost || config.vendorName == "pre-post-gnmi") && exists p :: p in config.paths && p.gnmi))
  }

  /** A subscription stops the program exactly if the configuration asks for gNMI by hand and has no section for it. */
  lemma CrashesIff(initial: Config, script: seq<Attempt>, i: nat)
    requires NoEarly(script)
    requires var log := Trace(initial, script); i < |log| && (log[i].Crashed? || log[i].Subscribed?)
    ensures var log := Trace(initial, script);
      log[i].Crashed? <==> AsksGnmiByHand(Replay(initial, log[..i]).config, AsksBoth(initial))
  {
    TraceGood(initial, script);
    NoReread(initial, script);
    var log := Trace(initial, script);
    hide Trace;
    hide AsksBoth;
    hide AsksGnmiByHand;
    hide LoginNeeded;
    hide VendorOf;
    GnmiModeIff(initial, log[..i]);
    assert Allowed(initial, log[..i], log[i]);
    var m := Replay(initial, log[..i]);
    var v := if log[i].Crashed? then log[i].vendor else log[i].via;
    FaultsIff(v, m.config, m.tryGnmi, AsksBoth(initial));
  }

  lemma FaultsIff(v: Vendor, config: Config, tryGnmi: bool, prePost: bool)
    requires VendorOf(config, tryGnmi, prePost) == Some(v) && (tryGnmi ==> config.gnmi)
    ensures Faults(v, config) <==> AsksGnmiByHand(config, prePost)
  {
    NamesDiffer();
  }

  // ---------- what a round leads to ----------

  /** The choice of a vendor: the mixed one, else gNMI, else the one named, Junos by default. */
  lemma VendorChoice(config: Config, tryGnmi: bool)
    ensures VendorOf(config, tryGnmi, true) == Some(PrePostGnmi)
    ensures VendorOf(config, true, false) == Some(Gnmi)
    ensures config.vendorName in {"", "juniper-junos"} ==> VendorOf(config, false, false) == Some(Junos)
    ensures config.vendorName == "cisco-iosxr" ==> VendorOf(config, false, false) == Some(CiscoXR)
    ensures config.vendorName == "gnmi" ==> VendorOf(config, false, false) == Some(Gnmi)
    ensures config.vendorName == "pre-post-gnmi" ==> VendorOf(config, false, false) == Some(PrePostGnmi)
    ensures config.vendorName !in {"", "juniper-junos", "cisco-iosxr", "gnmi", "pre-post-gnmi"} ==>
              VendorOf(config, false, false) == None
  {
    NamesDiffer();
    assert Name(Gnmi) == "gnmi" && Name(Junos) == "juniper-junos";
    assert Name(CiscoXR) == "cisco-iosxr" && Name(PrePostGnmi) == "pre-post-gnmi";
  }

  /** An early exit: the options, the host or an Interrupt ends the round before a dial. */
  predicate EndsEarly(config: Config, a: Attempt) {
    !a.optionsOk || (config.host == "" && config.port == 0) || a.interrupted
  }

  /** The events of a round, case by case, with v the vendor found for the configuration in force. */
  lemma {:induction false} RoundOutcome(config: Config, tryGnmi: bool, prePost: bool, a: Attempt, v: Vendor)
    requires a.early.None? && VendorOf(config, tryGnmi, prePost) == Some(v)
    ensures var events := Round(config, tryGnmi, prePost, a);
      var login := v == Junos || (prePost && exists p :: p in config.paths && (p.preGnmi || (!tryGnmi && !p.gnmi)));
      && (EndsEarly(config, a) ==> events == [StatusOffered])
      && (!EndsEarly(config, a) && !a.dialOk ==> events == [])
      && (!EndsEarly(config, a) && a.dialOk && login && !a.loginOk ==> events == [Dialed, LoggedIn(v, false), Closed])
      && (!EndsEarly(config, a) && a.dialOk && (!login || a.loginOk) ==>
            var head := if login then [Dialed, LoggedIn(v, true)] else [Dialed];
            |events| > |head| && events[..|head|] == head && events[|head| - 1] == head[|head| - 1]
            && (events[|head|].Crashed? || events[|head|].Hung? ||
                events[|head|] == Subscribed(v, config, tryGnmi, a.during, a.code)))
  {
    hide VendorOf;
    var events := Round(config, tryGnmi, prePost, a);
    assert events == Connecting(v, config, tryGnmi, prePost, a) by {
      assert [] + Connecting(v, config, tryGnmi, prePost, a) == Connecting(v, config, tryGnmi, prePost, a);
    }
    var login := LoginNeeded(v, config, tryGnmi, prePost);
    if !EndsEarly(config, a) && a.dialOk && (!login || a.loginOk) {
      StreamingStarts(v, config, tryGnmi, a.during, a.code);
      var head := if login then [Dialed, LoggedIn(v, true)] else [Dialed];
      var stream := Streaming(v, config, tryGnmi, a.during, a.code);
      hide Streaming;
      assert events == head + stream;
      assert (head + stream)[..|head|] == head && (head + stream)[|head|] == stream[0];
    }
  }

  lemma StreamingStarts(v: Vendor, config: Config, tryGnmi: bool, during: Option<Config>, code: Code)
    ensures var stream := Streaming(v, config, tryGnmi, during, code);
      stream != [] && (stream[0].Crashed? || stream[0].Hung? ||
        stream[0] == Subscribed(v, config, tryGnmi, during, code))
  {
    hide Faults;
    hide Hangs;
  }

  /** After an unknown vendor a round has no events. */
  lemma UnknownVendor(config: Config, tryGnmi: bool, prePost: bool, a: Attempt)
    requires a.early.None? && VendorOf(config, tryGnmi, prePost) == None
    ensures Round(config, tryGnmi, prePost, a) == []
  {
    hide VendorOf;
  }

  /** The tail of a subscription in a round, told by its code alone. */
  lemma {:induction false} StreamingTail(v: Vendor, config: Config, tryGnmi: bool, during: Option<Config>, code: Code,
                                         j: nat)
    requires j < |Streaming(v, config, tryGnmi, during, code)|
    ensures var stream := Streaming(v, config, tryGnmi, during, code);
      && (stream[j].Subscribed? ==> j == 0 && stream[0].code == code && |stream| >= 2 && stream[1] == Closed)
      && (stream[0].Subscribed? && code in {SighupNoRestart, OnceComplete} ==>
            |stream| == 3 && stream[2] == StatusOffered)
      && (stream[0].Subscribed? && code in {ConnRetry, SighupRestart, RPCFailedNoRetry} ==> |stream| == 2)
      && (stream[j].StatusOffered? ==> j == 2 && stream[0].Subscribed? && code in {SighupNoRestart, OnceComplete})
  {
    hide Faults;
    hide Hangs;
  }

  /** A subscription is closed, and its code tells whether the worker leaves. */
  predicate GoesOnAs(events: seq<Event>, j: nat)
    requires j < |events|
  {
    events[j].Subscribed? ==>
      && j + 1 < |events| && events[j + 1] == Closed
      && (events[j].code in {SighupNoRestart, OnceComplete} ==> |events| == j + 3 && events[j + 2] == StatusOffered)
      && (events[j].code in {ConnRetry, SighupRestart, RPCFailedNoRetry} ==> |events| == j + 2)
  }

  /** A status token comes from a subscription that ended the worker. */
  predicate ComesFromEnd(events: seq<Event>, j: nat)
    requires j < |events|
  {
    j >= 2 && events[j - 2].Subscribed? && events[j - 2].code in {SighupNoRestart, OnceComplete}
  }

  /** The same in a whole round: a subscription's close and end, and the two reasons for a status token. */
  lemma {:induction false} RoundTail(config: Config, tryGnmi: bool, prePost: bool, a: Attempt, j: nat)
    requires j < |Round(config, tryGnmi, prePost, a)|
    ensures var events := Round(config, tryGnmi, prePost, a);
      && GoesOnAs(events, j)
      && (events[j].StatusOffered? ==>
            || ComesFromEnd(events, j)
            || (EndsEarly(Now(config, a.early), a) && j == if a.early.Some? then 1 else 0))
  {
    hide VendorOf;
    hide LoginNeeded;
    hide Streaming;
    var now := Now(config, a.early);
    var v := VendorOf(now, tryGnmi, prePost);
    var front: seq<Event> := if a.early.Some? then [Reread(now)] else [];
    var events := Round(config, tryGnmi, prePost, a);
    if v.Some? && !EndsEarly(now, a) && a.dialOk {
      var login := LoginNeeded(v.value, now, tryGnmi, prePost);
      if !login || a.loginOk {
        var head := if login then [Dialed, LoggedIn(v.value, true)] else [Dialed];
        var stream := Streaming(v.value, now, tryGnmi, a.during, a.code);
        assert events == front + (head + stream);
        StreamTail(v.value, now, tryGnmi, a, front, head, events, j);
      }
    }
  }

  lemma {:induction false} StreamTail(v: Vendor, config: Config, tryGnmi: bool, a: Attempt, front: seq<Event>,
                                      head: seq<Event>, events: seq<Event>, j: nat)
    requires events == front + (head + Streaming(v, config, tryGnmi, a.during, a.code)) && j < |events|
    requires forall i :: 0 <= i < |front| ==> front[i].Reread?
    requires forall i :: 0 <= i < |head| ==> head[i].Dialed? || head[i].LoggedIn?
    ensures GoesOnAs(events, j) && (events[j].StatusOffered? ==> ComesFromEnd(events, j))
  {
    var stream := Streaming(v, config, tryGnmi, a.during, a.code);
    RoundIs(front, head, stream, events);
    var o := |front| + |head|;
    hide Streaming;
    if j >= o {
      StreamingTail(v, config, tryGnmi, a.during, a.code, j - o);
      assert events[j] == stream[j - o];
      assert j + 1 < |events| ==> events[j + 1] == stream[j + 1 - o];
      assert j + 2 < |events| ==> events[j + 2] == stream[j + 2 - o];
      assert events[o] == stream[0];
    } else if j >= |front| {
      assert events[j] == head[j - |front|];
    }
  }

  lemma RoundIs(front: seq<Event>, head: seq<Event>, stream: seq<Event>, events: seq<Event>)
    requires events == front + (head + stream)
    ensures |events| == |front| + |head| + |stream|
    ensures forall i :: 0 <= i < |stream| ==> events[|front| + |head| + i] == stream[i]
    ensures forall i :: 0 <= i < |head| ==> events[|front| + i] == head[i]
    ensures forall i :: 0 <= i < |front| ==> events[i] == front[i]
  {
  }

  /** A longer script has a longer log. */
  lemma {:induction false} TraceGrows(initial: Config, script: seq<Attempt>, k: nat)
    requires k <= |script|
    ensures Trace(initial, script[..k]) <= Trace(initial, script)
    decreases |script| - k
  {
    hide Trace;
    hide Round;
    hide Replay;
    hide AsksBoth;
    hide Ended;
    if k < |script| {
      TraceMore(initial, script, k);
      TraceGrows(initial, script, k + 1);
    } else {
      assert script[..k] == script;
    }
  }

  lemma NoRounds(initial: Config)
    ensures Trace(initial, []) == []
  {
  }

  /** Every event of a log is of one round. */
  lemma {:induction false} RoundOf(initial: Config, script: seq<Attempt>, i: nat) returns (k: nat)
    requires i < |Trace(initial, script)|
    ensures k < |script| && |Trace(initial, script[..k])| <= i < |Trace(initial, script[..k + 1])|
    ensures !Ended(Trace(initial, script[..k]))
    decreases |script|
  {
    hide Trace;
    hide Round;
    hide Replay;
    hide AsksBoth;
    hide Ended;
    NoRounds(initial);
    var n := |script| - 1;
    TraceMore(initial, script, n);
    assert script[..n + 1] == script;
    if i < |Trace(initial, script[..n])| {
      k := RoundOf(initial, script[..n], i);
      assert script[..n][..k] == script[..k] && script[..n][..k + 1] == script[..k + 1];
    } else {
      k := n;
    }
  }

  /** An event of a round, seen in the whole log. */
  lemma {:induction false} InRound(initial: Config, script: seq<Attempt>, i: nat, k: nat)
    requires k < |script| && |Trace(initial, script[..k])| <= i < |Trace(initial, script[..k + 1])|
    requires !Ended(Trace(initial, script[..k]))
    ensures var before := Trace(initial, script[..k]);
      var m := Replay(initial, before);
      var events := Round(m.config, m.tryGnmi, AsksBoth(initial), script[k]);
      && Trace(initial, script[..k + 1]) == before + events
      && Trace(initial, script[..k + 1]) <= Trace(initial, script)
      && i - |before| < |events| && Trace(initial, script)[i] == events[i - |before|]
  {
    hide Trace;
    hide Round;
    hide Replay;
    hide AsksBoth;
    hide Ended;
    TraceMore(initial, script, k);
    TraceGrows(initial, script, k + 1);
    var before, after := Trace(initial, script[..k]), Trace(initial, script[..k + 1]);
    SameEvent(after, Trace(initial, script), i);
    assert after[i] == after[|before|..][i - |before|];
  }

  lemma SameEvent(a: seq<Event>, b: seq<Event>, i: nat)
    requires a <= b && i < |a|
    ensures a[i] == b[i]
  {
  }

  /** Event i of the log is one of round k. */
  ghost predicate OfRound(initial: Config, script: seq<Attempt>, i: nat, k: nat) {
    k < |script| && |Trace(initial, script[..k])| <= i < |Trace(initial, script[..k + 1])|
  }

  /**
   A subscription is followed by the close of its connection. After SighupNoRestart and OnceComplete the worker offers
   its status token, and the log ends there; after any other code the round ends with the close, and the loop goes on.
   */
  lemma {:induction false} AfterSubscribed(initial: Config, script: seq<Attempt>, log: seq<Event>, i: nat)
    returns (k: nat)
    requires log == Trace(initial, script) && i < |log| && log[i].Subscribed?
    ensures OfRound(initial, script, i, k)
    ensures i + 1 < |log| && log[i + 1] == Closed
    ensures log[i].code in {SighupNoRestart, OnceComplete} ==> |log| == i + 3 && log[i + 2] == StatusOffered
    ensures log[i].code in {ConnRetry, SighupRestart, RPCFailedNoRetry} ==>
      |Trace(initial, script[..k + 1])| == i + 2 && !Ended(Trace(initial, script[..k + 1]))
  {
    hide Trace;
    hide Round;
    hide Replay;
    hide AsksBoth;
    k := RoundOf(initial, script, i);
    InRound(initial, script, i, k);
    var before, after := Trace(initial, script[..k]), Trace(initial, script[..k + 1]);
    var m := Replay(initial, before);
    var events := Round(m.config, m.tryGnmi, AsksBoth(initial), script[k]);
    var j := i - |before|;
    RoundTail(m.config, m.tryGnmi, AsksBoth(initial), script[k], j);
    assert log[i + 1] == after[i + 1] == events[j + 1];
    if log[i].code in {SighupNoRestart, OnceComplete} {
      assert after[i + 2] == events[j + 2] && Ended(after);
      TraceStops(initial, script, k + 1);
    } else {
      assert log[i].code.ConnRetry? || log[i].code.SighupRestart? || log[i].code.RPCFailedNoRetry?;
      assert |after| == i + 2 && after[|after| - 1] == Closed;
    }
  }

  /**
   A status token has one of two reasons: the subscription just before it returned SighupNoRestart or OnceComplete, or
   its round ended early, before any dial.
   */
  lemma {:induction false} StatusReason(initial: Config, script: seq<Attempt>, log: seq<Event>, i: nat)
    returns (k: nat)
    requires log == Trace(initial, script) && i < |log| && log[i].StatusOffered?
    ensures OfRound(initial, script, i, k)
    ensures var before := Trace(initial, script[..k]);
      || (i >= |before| + 2 && log[i - 2].Subscribed? && log[i - 2].code in {SighupNoRestart, OnceComplete})
      || (EndsEarly(Now(Replay(initial, before).config, script[k].early), script[k])
          && i == |before| + if script[k].early.Some? then 1 else 0)
  {
    hide Trace;
    hide Round;
    hide Replay;
    hide AsksBoth;
    k := RoundOf(initial, script, i);
    InRound(initial, script, i, k);
    var before, after := Trace(initial, script[..k]), Trace(initial, script[..k + 1]);
    var m := Replay(initial, before);
    var events := Round(m.config, m.tryGnmi, AsksBoth(initial), script[k]);
    RoundTail(m.config, m.tryGnmi, AsksBoth(initial), script[k], i - |before|);
    if i >= |before| + 2 {
      assert log[i - 2] == after[i - 2] == events[i - |before| - 2];
    }
  }

  // ---------- runs that fail ----------

  /** A round that nothing in the environment disturbs. */
  function Plain(during: Option<Config>, code: Code): Attempt {
    Attempt(None, true, false, true, true, during, code)
  }

  lemma TraceOne(initial: Config, a: Attempt)
    ensures Trace(initial, [a]) == Round(initial, initial.gnmi, AsksBoth(initial), a)
  {
    hide Round;
    assert [a][..0] == [];
    assert Trace(initial, [a][..0]) == [];
    assert Replay(initial, []) == Mode(initial, initial.gnmi);
    assert [] + Round(initial, initial.gnmi, AsksBoth(initial), a) ==
      Round(initial, initial.gnmi, AsksBoth(initial), a);
  }

  /** An undisturbed round with a Cisco device. */
  lemma CiscoRound(config: Config, during: Option<Config>, code: Code)
    requires config.vendorName == "cisco-iosxr" && config.host != "" && !Leaves(code)
    ensures Round(config, false, false, Plain(during, code)) ==
      [Dialed, Subscribed(CiscoXR, config, false, during, code), Closed]
  {
    assert VendorOf(config, false, false) == Some(CiscoXR) by {
      NamesDiffer();
      assert Name(CiscoXR) == "cisco-iosxr";
    }
    hide VendorOf;
  }

  /** A path marked pre-gNMI that comes with a restart is subscribed from a Cisco device without a login check. */
  lemma MarkedUnchecked()
    ensures exists initial: Config, script: seq<Attempt> ::
      && NoEarly(script) && |Trace(initial, script)| == 6
      && var log := Trace(initial, script);
         && log[4].Subscribed? && !Checked(log, 4) && exists p :: p in log[4].config.paths && p.preGnmi
  {
    var first := Config("cisco-iosxr", false, "r", 1, []);
    var p := PathConfig("/a", true, false);
    var second := first.(paths := [p]);
    var a, b := Plain(Some(second), SighupRestart), Plain(None, ConnRetry);
    assert !AsksBoth(first);
    CiscoRound(first, Some(second), SighupRestart);
    CiscoRound(second, None, ConnRetry);
    hide Round;
    TraceOne(first, a);
    var one := [Dialed, Subscribed(CiscoXR, first, false, Some(second), SighupRestart), Closed];
    TwoRounds(first, a, b, one, second);
    hide Trace;
    var two := [Dialed, Subscribed(CiscoXR, second, false, None, ConnRetry), Closed];
    var log := Trace(first, [a, b]);
    assert log == one + two;
    assert log[4] == two[1] && log[3] == Dialed;
    assert p in log[4].config.paths && p.preGnmi;
    assert !Checked(log, 4);
  }

  lemma TwoRounds(initial: Config, a: Attempt, b: Attempt, log: seq<Event>, next: Config)
    requires Trace(initial, [a]) == log && |log| == 3 && log[0] == Dialed && log[2] == Closed
    requires log[1].Subscribed? && log[1].during == Some(next) && log[1].code == SighupRestart
    ensures Trace(initial, [a, b]) == log + Round(next, next.gnmi, AsksBoth(initial), b)
  {
    hide Round;
    var m := Mode(initial, initial.gnmi);
    EffectsMore(m, [], log[0]);
    assert [] + [log[0]] == [log[0]];
    EffectsMore(m, [log[0]], log[1]);
    EffectsMore(m, [log[0]] + [log[1]], log[2]);
    assert log == [log[0]] + [log[1]] + [log[2]];
    assert [a, b][..1] == [a];
  }

  /**
   With the mixed vendor configured by its name, a plain path goes to the Junos subscription without a login check.
   */
  lemma JunosUnchecked()
    ensures exists initial: Config, script: seq<Attempt> ::
      && NoEarly(script) && |Trace(initial, script)| == 3
      && var log := Trace(initial, script);
         log[1].Subscribed? && CallsJunos(log[1].via, log[1].config) && !Checked(log, 1)
  {
    var p := PathConfig("/a", false, false);
    var initial := Config("pre-post-gnmi", false, "r", 1, [p]);
    var a := Plain(None, ConnRetry);
    assert VendorOf(initial, false, false) == Some(PrePostGnmi) by {
      NamesDiffer();
      assert Name(PrePostGnmi) == "pre-post-gnmi";
    }
    hide VendorNamed;
    assert !AsksBoth(initial);
    assert p in initial.paths && ViaJunos(initial, p);
    assert CallsJunos(PrePostGnmi, initial) && !CallsGnmi(PrePostGnmi, initial);
    TraceOne(initial, a);
    var log := Trace(initial, [a]);
    assert log == [Dialed, Subscribed(PrePostGnmi, initial, false, None, ConnRetry), Closed];
  }

  /** A path marked gNMI in a configuration without a gNMI section stops the program. */
  lemma MarkedCrashes()
    ensures exists initial: Config, script: seq<Attempt> ::
      && NoEarly(script) && initial.vendorName == "" && !initial.gnmi
      && Trace(initial, script) == [Dialed, Crashed(PrePostGnmi)]
  {
    var p := PathConfig("/a", false, true);
    var initial := Config("", false, "r", 1, [p]);
    var a := Plain(None, ConnRetry);
    assert VendorOf(initial, false, true) == Some(PrePostGnmi) by {
      NamesDiffer();
      assert Name(PrePostGnmi) == "pre-post-gnmi";
    }
    hide VendorNamed;
    assert p in initial.paths && AsksBoth(initial) && ViaGnmi(initial, p);
    assert CallsGnmi(PrePostGnmi, initial) && !LoginNeeded(PrePostGnmi, initial, false, true);
    TraceOne(initial, a);
    assert Trace(initial, [a]) == [Dialed, Crashed(PrePostGnmi)];
    assert initial.vendorName == "" && NoEarly([a]);
  }

  /** A configuration re-read between rounds can drop the gNMI section while the flag still asks for gNMI. */
  lemma EarlyRereadCrashes()
    ensures exists initial: Config, script: seq<Attempt> ::
      && |script| == 1 && initial.vendorName == "" && initial.paths == []
      && script[0].early == Some(initial.(gnmi := false))
      && Trace(initial, script) == [Reread(initial.(gnmi := false)), Dialed, Crashed(Gnmi)]
  {
    var initial := Config("", true, "r", 1, []);
    var next := initial.(gnmi := false);
    var a := Attempt(Some(next), true, false, true, true, None, ConnRetry);
    assert !AsksBoth(initial);
    assert VendorOf(next, true, false) == Some(Gnmi) by {
      NamesDiffer();
      assert Name(Gnmi) == "gnmi";
    }
    hide VendorNamed;
    TraceOne(initial, a);
    assert Trace(initial, [a]) == [Reread(next), Dialed, Crashed(Gnmi)];
    assert [a][0].early == Some(next);
  }
}

/**
 The hand-over of configurations from the Kafka consumer to the session of one device (dialout.go).

 The k-th configuration sent is known by its number k. The consumer sends a configuration into the
 channel of the device's slot-0 record and then stores it there; a session reads the length of the
 channel, then either takes the stored configuration or drains the channel. These are separate steps.
 */
module DialoutHandoff {
  import opened Text

  /**
   Where a running session's configuration came from. A read of the store notes what it saw: whether the last
   configuration sent was still to be stored, the length of the channel, and how many had been sent.
   */
  datatype Source = FromChannel | FromStore(pending: bool, queued: nat, sent: nat)

  /** One session: the configuration it uses, and how many had been sent when it began. */
  datatype Use = Use(cfg: nat, began: nat, source: Source)

  datatype Session = Idle | Reading(length: nat, began: nat) | Draining(left: nat, began: nat) | Running(now: Use)

  /** sent counts the configurations sent; pending says that the last one is not stored yet. */
  datatype State = State(sent: nat, ch: seq<nat>, config: Option<nat>, pending: bool, session: Session, uses: seq<Use>)

  const INIT := State(0, [], None, false, Idle, [])

  const CHANNEL_SIZE: nat := 512

  datatype Action = Send | Store | Begin | Decide | Receive | NewConfig | End

  function Start(s: State, u: Use): State {
    s.(session := Running(u), uses := s.uses + [u])
  }

  /** One step; None if it cannot be taken. */
  function Next(s: State, act: Action): Option<State> {
    match act
    case Send =>       // dialout.go:382
      if s.pending || |s.ch| >= CHANNEL_SIZE then None
      else Some(s.(sent := s.sent + 1, ch := s.ch + [s.sent], pending := true))
    case Store =>      // dialout.go:383
      if !s.pending || s.sent == 0 then None else Some(s.(config := Some(s.sent - 1), pending := false))
    case Begin =>      // dialout.go:206-217
      if !s.session.Idle? then None else Some(s.(session := Reading(|s.ch|, s.sent)))
    case Decide =>     // dialout.go:219-224
      if !s.session.Reading? then None
      else if s.session.length == 0 && s.config.Some? then
        Some(Start(s, Use(s.config.value, s.session.began, FromStore(s.pending, |s.ch|, s.sent))))
      else
        Some(s.(session := Draining(if s.session.length == 0 then 1 else s.session.length, s.session.began)))
    case Receive =>    // dialout.go:225, dialout.go:229
      if !s.session.Draining? || s.ch == [] then None
      else
        var rest := s.(ch := s.ch[1..]);
        if s.session.left <= 1 then Some(Start(rest, Use(s.ch[0], s.session.began, FromChannel)))
        else Some(rest.(session := Draining(s.session.left - 1, s.session.began)))
    case NewConfig =>  // dialout.go:268-273
      if !s.session.Running? || s.ch == [] then None else Some(s.(ch := s.ch[1..], session := Idle))
    case End =>        // dialout.go:283-291
      if !s.session.Running? then None else Some(s.(session := Idle))
  }

  /** The state after a run of steps from the start; None if some step could not be taken. */
  function Exec(acts: seq<Action>): Option<State> {
    if acts == [] then Some(INIT)
    else
      var before := Exec(acts[..|acts| - 1]);
      if before.None? then None else Next(before.value, acts[|acts| - 1])
  }

  /** How many configurations have left the channel. */
  function Taken(s: State): int {
    s.sent - |s.ch|
  }

  function Bool(b: bool): nat {
    if b then 1 else 0
  }

  // ---------- the invariant ----------

  /** The channel holds the last configurations sent, in order. */
  ghost predicate IsSuffix(s: State) {
    |s.ch| <= s.sent && forall i :: 0 <= i < |s.ch| ==> s.ch[i] == s.sent - |s.ch| + i
  }

  /** The stored configuration is the last one sent, or the one before while the store is pending. */
  ghost predicate StoredLast(s: State) {
    && Bool(s.pending) <= s.sent
    && s.config == if s.sent == Bool(s.pending) then None else Some(s.sent - Bool(s.pending) - 1)
  }

  /**
   What the session knows: no configuration sent before it began is newer than what it will use, the pending one
   aside.
   */
  ghost predicate SessionOk(s: State) {
    match s.session
    case Idle => true
    case Reading(length, began) => began == Taken(s) + length && length <= |s.ch|
    case Draining(left, began) => began <= Taken(s) + left && left >= 1
    case Running(u) =>
      && u.cfg < s.sent && u.began <= s.sent
      && match u.source
         case FromChannel => u.cfg + 1 == Taken(s)
         case FromStore(p, q, _) => u.cfg + 1 + Bool(p) == Taken(s) + q && q <= |s.ch|
  }

  /** A session uses nothing older than what had been sent when it began, unless it read the store in between. */
  ghost predicate UseOk(u: Use, sent: nat) {
    && u.cfg < sent && u.began <= sent
    && u.cfg + 1 + (match u.source case FromChannel => 0 case FromStore(p, _, _) => Bool(p)) >= u.began
  }

  ghost predicate UsesOk(s: State) {
    && (forall i :: 0 <= i < |s.uses| ==> UseOk(s.uses[i], s.sent))
    && (forall i, j :: 0 <= i < j < |s.uses| ==> s.uses[i].cfg < s.uses[j].began)
    && (s.session.Running? ==> s.uses != [] && s.uses[|s.uses| - 1] == s.session.now)
    && (s.session.Reading? ==> forall i :: 0 <= i < |s.uses| ==> s.uses[i].cfg < s.session.began)
    && (s.session.Draining? ==> forall i :: 0 <= i < |s.uses| ==> s.uses[i].cfg < s.session.began)
  }

  ghost predicate Inv(s: State) {
    IsSuffix(s) && StoredLast(s) && SessionOk(s) && UsesOk(s)
  }

  lemma StepKeepsChannel(s: State, act: Action)
    requires IsSuffix(s) && StoredLast(s) && SessionOk(s) && Next(s, act).Some?
    ensures IsSuffix(Next(s, act).value) && StoredLast(Next(s, act).value)
  {
  }

  lemma StepKeepsSession(s: State, act: Action)
    requires IsSuffix(s) && StoredLast(s) && SessionOk(s) && Next(s, act).Some?
    ensures SessionOk(Next(s, act).value)
  {
    match act
    case Decide => DecideKeepsSession(s);
    case Receive => ReceiveKeepsSession(s);
    case _ =>
  }

  lemma DecideKeepsSession(s: State)
    requires IsSuffix(s) && StoredLast(s) && SessionOk(s) && Next(s, Decide).Some?
    ensures SessionOk(Next(s, Decide).value)
  {
  }

  lemma ReceiveKeepsSession(s: State)
    requires IsSuffix(s) && SessionOk(s) && Next(s, Receive).Some?
    ensures SessionOk(Next(s, Receive).value)
  {
    assert s.ch[0] == s.sent - |s.ch|;
  }

  lemma StepKeepsUses(s: State, act: Action)
    requires Inv(s) && Next(s, act).Some?
    ensures UsesOk(Next(s, act).value)
  {
    match act
    case Decide => DecideKeepsUses(s);
    case Receive => ReceiveKeepsUses(s);
    case _ =>
  }

  lemma DecideKeepsUses(s: State)
    requires Inv(s) && Next(s, Decide).Some?
    ensures UsesOk(Next(s, Decide).value)
  {
  }

  lemma ReceiveKeepsUses(s: State)
    requires Inv(s) && Next(s, Receive).Some?
    ensures UsesOk(Next(s, Receive).value)
  {
  }

  /** Every reachable state keeps the invariant. */
  lemma {:induction false} Reachable(acts: seq<Action>)
    requires Exec(acts).Some?
    ensures Inv(Exec(acts).value)
  {
    if acts != [] {
      var before, act := acts[..|acts| - 1], acts[|acts| - 1];
      Reachable(before);
      var s := Exec(before).value;
      StepKeepsChannel(s, act);
      StepKeepsSession(s, act);
      StepKeepsUses(s, act);
    }
  }

  // ---------- what holds in every run ----------

  function Count(acts: seq<Action>, act: Action): nat {
    multiset(acts)[act]
  }

  /**
   What was sent is what was received, by a session that begins or by one that thereby ends, and what is still
   queued.
   */
  lemma {:induction false} Conservation(acts: seq<Action>)
    requires Exec(acts).Some?
    ensures var s := Exec(acts).value;
      && s.sent == Count(acts, Send)
      && s.sent == Count(acts, Receive) + Count(acts, NewConfig) + |s.ch|
  {
    if acts != [] {
      var before, act := acts[..|acts| - 1], acts[|acts| - 1];
      Conservation(before);
      StepConserves(Exec(before).value, act);
      assert acts == before + [act];
      CountMore(before, act, Send);
      CountMore(before, act, Receive);
      CountMore(before, act, NewConfig);
      hide Count;
      hide Next;
    }
  }

  lemma StepConserves(s: State, act: Action)
    requires Next(s, act).Some?
    ensures var t := Next(s, act).value;
      && t.sent == s.sent + Bool(act.Send?)
      && |t.ch| + Bool(act.Receive?) + Bool(act.NewConfig?) == |s.ch| + Bool(act.Send?)
  {
  }

  lemma CountMore(acts: seq<Action>, last: Action, act: Action)
    ensures Count(acts + [last], act) == Count(acts, act) + Bool(last == act)
  {
  }

  /** The last configuration leads to a new session: it ends the running one and is gone from the channel. */
  lemma NewConfigEnds(s: State)
    requires s.session.Running? && s.ch != []
    ensures Next(s, NewConfig) == Some(s.(session := Idle, ch := s.ch[1..]))
  {
  }

  /** The channel never holds more than its 512 places. */
  lemma {:induction false} ChannelBound(acts: seq<Action>)
    requires Exec(acts).Some?
    ensures |Exec(acts).value.ch| <= 512
  {
    if acts != [] {
      ChannelBound(acts[..|acts| - 1]);
    }
  }

  /** Did the session read the store while the last configuration sent was still to be stored? */
  predicate ReadEarly(u: Use) {
    u.source.FromStore? && u.source.pending
  }

  /** What a run tells about its last session, and whether a publication is under way. */
  datatype Scan = Scan(publishing: bool, decided: bool, received: bool, sends: nat, amid: bool)

  /**
   Since the last Begin: whether there was a Decide, whether something was received, how many Sends came before the
   Decide, and whether the Decide fell between a Send and its Store.
   */
  function Scanned(acts: seq<Action>): Scan {
    if acts == [] then Scan(false, false, false, 0, false)
    else
      var before := Scanned(acts[..|acts| - 1]);
      match acts[|acts| - 1]
      case Send => before.(publishing := true, sends := if before.decided then before.sends else before.sends + 1)
      case Store => before.(publishing := false)
      case Begin => Scan(before.publishing, false, false, 0, false)
      case Decide => before.(decided := true, amid := before.publishing)
      case Receive => before.(received := true)
      case _ => before
  }

  /** The state agrees with what the run tells. */
  ghost predicate ScanOk(s: State, c: Scan) {
    && s.pending == c.publishing
    && match s.session
       case Idle => true
       case Reading(length, _) => !c.decided && !c.received && |s.ch| == length + c.sends
       case Draining(_, _) => c.decided
       case Running(u) =>
         && c.decided && (u.source.FromChannel? <==> c.received)
         && (u.source.FromStore? ==> u.source.queued == c.sends && u.source.pending == c.amid)
  }

  lemma {:induction false} ScanAgrees(acts: seq<Action>)
    requires Exec(acts).Some?
    ensures ScanOk(Exec(acts).value, Scanned(acts))
  {
    if acts != [] {
      ScanAgrees(acts[..|acts| - 1]);
    }
  }

  /**
   A running session uses the entry just before the channel's suffix exactly if it took its configuration from the
   channel, or if the Sends between its Begin and its Decide are none, or one that is still to be stored.
   */
  lemma EntryBeforeSuffix(acts: seq<Action>, s: State)
    requires Exec(acts) == Some(s) && s.session.Running?
    ensures IsSuffix(s)
    ensures var c := Scanned(acts); s.session.now.cfg + 1 == Taken(s) <==> c.received || c.sends == Bool(c.amid)
  {
    hide Exec;
    Reachable(acts);
    ScanAgrees(acts);
  }

  /**
   With an empty channel a session uses the newest configuration, exactly if it took it from the channel or its Decide
   did not fall between a Send and its Store.
   */
  lemma EmptyChannelIsNewest(acts: seq<Action>, s: State)
    requires Exec(acts) == Some(s) && s.session.Running? && s.ch == []
    ensures s.session.now.cfg == s.sent - 1 <==> Scanned(acts).received || !Scanned(acts).amid
  {
    hide Exec;
    Reachable(acts);
    ScanAgrees(acts);
  }

  /**
   A session's configuration is not older than any sent before it began, nor than any used before, unless
   it read the store too early; and then it is behind by at most one.
   */
  lemma NeverGoesBack(acts: seq<Action>, s: State, i: nat, j: nat)
    requires Exec(acts) == Some(s) && i < j < |s.uses|
    ensures !ReadEarly(s.uses[j]) ==> s.uses[i].cfg <= s.uses[j].cfg && s.uses[j].began <= s.uses[j].cfg + 1
    ensures s.uses[i].cfg <= s.uses[j].cfg + 1
  {
    hide Exec;
    Reachable(acts);
    assert UseOk(s.uses[j], s.sent);
  }

  /** What was read from the store had been stored, also when a later session read it. */
  ghost predicate StoresOk(s: State) {
    && (forall i :: 0 <= i < |s.uses| && s.uses[i].source.FromStore? ==>
          && s.uses[i].cfg + Bool(s.pending) < s.sent
          && s.uses[i].cfg + 1 + Bool(s.uses[i].source.pending) == s.uses[i].source.sent)
    && (forall i, j :: 0 <= i < j < |s.uses| && s.uses[i].source.FromStore? && s.uses[j].source.FromStore? ==>
          s.uses[i].cfg + Bool(s.uses[j].source.pending) < s.uses[j].source.sent)
  }

  lemma StepKeepsStores(s: State, act: Action)
    requires StoredLast(s) && StoresOk(s) && Next(s, act).Some?
    ensures StoresOk(Next(s, act).value)
  {
    match act
    case Decide => DecideKeepsStores(s);
    case Receive => ReceiveKeepsStores(s);
    case _ =>
  }

  lemma DecideKeepsStores(s: State)
    requires StoredLast(s) && StoresOk(s) && Next(s, Decide).Some?
    ensures StoresOk(Next(s, Decide).value)
  {
  }

  lemma ReceiveKeepsStores(s: State)
    requires StoresOk(s) && Next(s, Receive).Some?
    ensures StoresOk(Next(s, Receive).value)
  {
  }

  lemma {:induction false} ReachableStores(acts: seq<Action>)
    requires Exec(acts).Some?
    ensures StoresOk(Exec(acts).value)
  {
    if acts != [] {
      hide StoresOk;
      hide Next;
      var before := acts[..|acts| - 1];
      ReachableStores(before);
      Reachable(before);
      StepKeepsStores(Exec(before).value, acts[|acts| - 1]);
    } else {
      NoStores();
    }
  }

  lemma NoStores()
    ensures StoresOk(INIT)
  {
  }

  /**
   A session goes back behind an earlier one exactly if it read the store too early and the earlier one had taken
   from the channel just that configuration which was then still to be stored.
   */
  lemma GoesBackIff(acts: seq<Action>, s: State, i: nat, j: nat)
    requires Exec(acts) == Some(s) && i < j < |s.uses|
    ensures s.uses[j].cfg < s.uses[i].cfg <==>
      ReadEarly(s.uses[j]) && s.uses[i].source.FromChannel? && s.uses[i].cfg + 1 == s.uses[j].source.sent
  {
    hide Exec;
    NeverGoesBack(acts, s, i, j);
    ReachableStores(acts);
  }

  // ---------- when no session reads too early ----------

  /** Is the last Send not followed by its Store? */
  predicate Publishing(acts: seq<Action>) {
    acts != [] &&
    var last := acts[|acts| - 1];
    last == Send || (last != Store && Publishing(acts[..|acts| - 1]))
  }

  /** No session decides between a Send and its Store. */
  ghost predicate Separate(acts: seq<Action>) {
    forall i :: 0 <= i < |acts| && acts[i] == Decide ==> !Publishing(acts[..i])
  }

  /** Publishing is one step: each Send is directly followed by its Store. */
  ghost predicate Atomic(acts: seq<Action>) {
    forall i :: 0 < i < |acts| && acts[i - 1] == Send ==> acts[i] == Store
  }

  lemma {:induction false} PendingIsPublishing(acts: seq<Action>)
    requires Exec(acts).Some?
    ensures Exec(acts).value.pending == Publishing(acts)
  {
    if acts != [] {
      PendingIsPublishing(acts[..|acts| - 1]);
    }
  }

  lemma {:induction false} SeparateNeverReadsEarly(acts: seq<Action>)
    requires Exec(acts).Some? && Separate(acts)
    ensures forall u :: u in Exec(acts).value.uses ==> !ReadEarly(u)
  {
    if acts != [] {
      var before, act := acts[..|acts| - 1], acts[|acts| - 1];
      assert Separate(before) by {
        forall i | 0 <= i < |before| && before[i] == Decide ensures !Publishing(before[..i]) {
          assert acts[i] == Decide && before[..i] == acts[..i];
        }
      }
      SeparateNeverReadsEarly(before);
      PendingIsPublishing(before);
      if act == Decide {
        assert acts[|acts| - 1] == Decide;
        assert !Exec(before).value.pending;
      }
    }
  }

  lemma AtomicIsSeparate(acts: seq<Action>)
    requires Atomic(acts)
    ensures Separate(acts)
  {
    forall i | 0 <= i < |acts| && acts[i] == Decide ensures !Publishing(acts[..i]) {
      NotPublishing(acts, i);
    }
  }

  lemma {:induction false} NotPublishing(acts: seq<Action>, i: nat)
    requires Atomic(acts) && i < |acts| && acts[i] != Store
    ensures !Publishing(acts[..i])
  {
    if i > 0 {
      assert acts[..i][..i - 1] == acts[..i - 1];
      if acts[i - 1] != Store {
        NotPublishing(acts, i - 1);
      }
    }
  }

  /**
   With publishing taken as one step, in every run: successive sessions never go back to an older configuration,
   every session is as new as what had been sent when it began, and with an empty channel it uses the newest one.
   */
  lemma AtomicHandoff(acts: seq<Action>, s: State)
    requires Exec(acts) == Some(s) && Atomic(acts)
    ensures forall i, j :: 0 <= i <= j < |s.uses| ==> s.uses[i].cfg <= s.uses[j].cfg
    ensures forall i :: 0 <= i < |s.uses| ==> s.uses[i].began <= s.uses[i].cfg + 1
    ensures s.session.Running? && s.ch == [] ==> s.session.now.cfg == s.sent - 1
  {
    hide Exec;
    AtomicIsSeparate(acts);
    SeparateNeverReadsEarly(acts);
    Reachable(acts);
    forall j | 0 <= j < |s.uses| ensures s.uses[j].began <= s.uses[j].cfg + 1 {
      assert s.uses[j] in s.uses && UseOk(s.uses[j], s.sent);
    }
    if s.session.Running? && s.ch == [] {
      assert s.session.now in s.uses;
    }
  }

  lemma {:induction false} SeparateScan(acts: seq<Action>)
    requires Separate(acts)
    ensures !Scanned(acts).amid && Scanned(acts).publishing == Publishing(acts)
  {
    if acts != [] {
      var k := |acts| - 1;
      assert Separate(acts[..k]) by {
        forall i | 0 <= i < k && acts[..k][i] == Decide ensures !Publishing(acts[..k][..i]) {
          assert acts[i] == Decide && acts[..k][..i] == acts[..i];
        }
      }
      SeparateScan(acts[..k]);
    }
  }

  /**
   With publishing as one step a running session uses the entry just before the channel's suffix exactly if it took
   its configuration from the channel or nothing was sent between its Begin and its Decide.
   */
  lemma AtomicEntryIff(acts: seq<Action>, s: State)
    requires Exec(acts) == Some(s) && s.session.Running? && Atomic(acts)
    ensures s.session.now.cfg + 1 == Taken(s) <==> Scanned(acts).received || Scanned(acts).sends == 0
  {
    hide Exec;
    AtomicIsSeparate(acts);
    SeparateScan(acts);
    EntryBeforeSuffix(acts, s);
  }

  /**
   Such a Send makes a session use an entry that is still in the channel, even with publishing as one step; the
   channel will then end the session for a configuration that it already has.
   */
  lemma AtomicCanBeAhead()
    ensures exists acts ::
      && Atomic(acts) && Exec(acts).Some? && Exec(acts).value.session.Running?
      && Exec(acts).value.ch == [Exec(acts).value.session.now.cfg]
  {
    hide Exec;
    var acts := FirstSessionEnded();
    var a := Step(acts, Begin);
    var b := Step(a, Send);
    var c := Step(b, Store);
    var d := Step(c, Decide);
    assert a == acts + [Begin] && b == a + [Send] && c == b + [Store] && d == c + [Decide];
    assert d == [Send, Store, Begin, Decide, Receive, End, Begin, Send, Store, Decide];
    assert Atomic(d);
  }

  /** One configuration was sent and stored, and a session took it from the channel and ended. */
  lemma FirstSessionEnded() returns (acts: seq<Action>)
    ensures acts == [Send, Store, Begin, Decide, Receive, End]
    ensures Exec(acts) == Some(State(1, [], Some(0), false, Idle, [Use(0, 1, FromChannel)]))
  {
    hide Exec;
    NoSteps();
    acts := [];
    acts := Step(acts, Send);
    acts := Step(acts, Store);
    assert Exec(acts).value.ch == [0];
    acts := Step(acts, Begin);
    acts := Step(acts, Decide);
    acts := Step(acts, Receive);
    acts := Step(acts, End);
    assert Exec(acts).value.uses == [Use(0, 1, FromChannel)];
  }

  lemma NoSteps()
    ensures Exec([]) == Some(INIT)
  {
  }

  /**
   Publishing is two steps in the code. A session that ends after taking a configuration whose store is still to
   come is followed by one that goes back to the older configuration, and stays there: the channel is empty.
   */
  lemma TwoStepsGoBack()
    ensures exists acts: seq<Action> ::
      && Exec(acts).Some?
      && var s := Exec(acts).value;
         && s.session.Running? && s.ch == [] && s.session.now.cfg == 0 && s.sent == 2 && !s.pending
         && |s.uses| == 2 && s.uses[0].cfg == 1
  {
    var a0: seq<Action> := [];
    var a1 := Step(a0, Send);
    var a2 := Step(a1, Store);
    var a3 := Step(a2, Send);
    var a4 := Step(a3, Begin);
    var a5 := Step(a4, Decide);
    var a6 := Step(a5, Receive);
    var a7 := Step(a6, Receive);
    var a8 := Step(a7, End);
    var a9 := Step(a8, Begin);
    var a10 := Step(a9, Decide);
    var a11 := Step(a10, Store);
  }

  function Step(acts: seq<Action>, act: Action): (r: seq<Action>)
    ensures r == acts + [act]
    ensures Exec(r) == if Exec(acts).None? then None else Next(Exec(acts).value, act)
  {
    assert (acts + [act])[..|acts|] == acts;
    acts + [act]
  }
}

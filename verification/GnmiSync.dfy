/** The initial-sync gate of a gNMI session (gnmiHandleResponse in subscribe_gnmi.go). */
module GnmiSync {
  import opened Text
  import opened Points
  import opened GnmiPaths
  import opened GnmiNotification

  /** A Juniper header from the updates or from an extension, with its sequence number; neither may be usable. */
  datatype JuniperHeader = JuniperHeader(hdr: Option<nat>, ext: Option<nat>, subscribed: string)

  /** What looking for the Juniper header gave; a header path with fewer than three parts stops the program. */
  datatype HeaderOutcome = NotJuniper | BadHeader | Panics | Found(header: JuniperHeader)

  /**
   What unpacking a header value gives: not a packed message, one with a bad name, or the header's two fields used
   here.
   */
  datatype Unpacked = NotAny | BadAny | AnyHeader(seqNum: nat, path: string)

  /** A registered extension; msg is the Juniper header in it, None if it cannot be unmarshalled. */
  datatype Extension = Extension(isJuniper: bool, msg: Option<ExtHeader>)
  datatype ExtHeader = ExtHeader(seqNum: nat, subscribed: string)

  datatype Response =
    | SyncResponse
    | NoUpdate     // neither a sync response nor a notification
    | Notify(prefix: Prefix, updates: seq<Update>, deletes: seq<seq<PathElem>>, timestamp: int, exts: seq<Extension>)

  datatype Packet = Packet(out: ParseOutput, inKvs: nat, header: Option<JuniperHeader>, mName: string)

  const ISYNC_BEGIN: nat := 0x20_0000        // 2^21
  const ISYNC_END: nat := 0x3F_FFFF          // 2^22 - 1

  predicate IsInitialSync(seqNum: Option<nat>) {
    seqNum.Some? && ISYNC_BEGIN <= seqNum.value <= ISYNC_END
  }

  function CountPaths(out: ParseOutput): nat {
    |out.xpaths| + if out.jXpaths.Some? then |out.jXpaths.value.xpaths| else 0
  }

  /** The configuration of the parser: whether origins count, and how the header values in updates are unpacked. */
  datatype Parser = Parser(parseOrigin: bool, unpack: Datum -> Unpacked)

  /** The first Juniper extension. */
  function JuniperExtension(exts: seq<Extension>): Option<Extension> {
    if exts == [] then None else if exts[0].isJuniper then Some(exts[0]) else JuniperExtension(exts[1..])
  }

  function HeaderInUpdates(ps: Parser, jx: JuniperXpaths): HeaderOutcome {
    if jx.hdr !in jx.xpaths then NotJuniper
    else if jx.xpaths[jx.hdr].None? then Found(JuniperHeader(None, Some(0), ""))
    else
      match ps.unpack(jx.xpaths[jx.hdr].value)
      case NotAny => Found(JuniperHeader(None, None, ""))
      case BadAny => BadHeader
      case AnyHeader(seqNum, path) =>
        var splits := Split(path, ':');
        if |splits| < 3 then Panics else Found(JuniperHeader(Some(seqNum), None, splits[2]))
  }

  /** The header is looked for in the extensions only if the updates have no reserved field at all. */
  function HeaderOf(ps: Parser, jx: Option<JuniperXpaths>, exts: seq<Extension>): HeaderOutcome {
    if jx.Some? then HeaderInUpdates(ps, jx.value)
    else
      var ext := JuniperExtension(exts);
      if ext.None? then NotJuniper
      else if ext.value.msg.None? then BadHeader
      else Found(JuniperHeader(None, Some(ext.value.msg.value.seqNum), ext.value.msg.value.subscribed))
  }

  /** The response whose header stops the program. */
  predicate Stops(ps: Parser, r: Response) {
    r.Notify? &&
    var out := Notification(ps.parseOrigin, r.prefix, r.updates, r.deletes);
    out.Some? && HeaderOf(ps, out.value.jXpaths, r.exts).Panics?
  }

  /** The packet of a response; None for a sync response and for everything that cannot be parsed. */
  function PacketOf(ps: Parser, r: Response): Option<Packet> {
    match r
    case SyncResponse => None
    case NoUpdate => None
    case Notify(prefix, us, ds, ts, exts) =>
      var out := Notification(ps.parseOrigin, prefix, us, ds);
      var header := if out.None? then BadHeader else HeaderOf(ps, out.value.jXpaths, exts);
      if out.None? || header.BadHeader? || header.Panics? || (header.NotJuniper? && ts == 0) then None
      else
        var subscribed := if header.Found? then header.header.subscribed else "";
        Some(Packet(out.value, CountPaths(out.value), if header.Found? then Some(header.header) else None,
                    if subscribed != "" then subscribed else out.value.prefixPath + "/"))
  }

  /** A packet that is let through before the initial sync is over. */
  predicate PassesEarly(p: Packet) {
    p.header.Some? && !IsInitialSync(p.header.value.hdr) && !IsInitialSync(p.header.value.ext)
  }

  // ---------- what a run means ----------

  /** Some response before index i ended the initial sync. */
  predicate SyncedBefore(rs: seq<Response>, i: nat)
    requires i <= |rs|
  {
    exists j :: 0 <= j < i && rs[j].SyncResponse?
  }

  /** Whether response i is published. */
  predicate IsPublished(ps: Parser, eos: bool, rs: seq<Response>, i: nat)
    requires i < |rs|
  {
    var p := PacketOf(ps, rs[i]);
    p.Some? && (eos || SyncedBefore(rs, i) || PassesEarly(p.value))
  }

  /** The published packets of the first n responses, in order. */
  function Published(ps: Parser, eos: bool, rs: seq<Response>, n: nat): seq<Packet>
    requires n <= |rs|
  {
    if n == 0 then []
    else Published(ps, eos, rs, n - 1) +
         if IsPublished(ps, eos, rs, n - 1) then [PacketOf(ps, rs[n - 1]).value] else []
  }

  /** The distinct paths of all parsed packets, published or not. */
  function TotalPaths(ps: Parser, rs: seq<Response>, n: nat): nat
    requires n <= |rs|
  {
    if n == 0 then 0
    else
      var p := PacketOf(ps, rs[n - 1]);
      TotalPaths(ps, rs, n - 1) + if p.Some? then p.value.inKvs else 0
  }

  // ---------- the handler ----------

  class Session {
    const ps: Parser
    const eos: bool
    const stats: bool
    var receivedSyncRsp: bool
    var totalIn: nat
    var totalKV: nat
    var published: seq<Packet>

    constructor (ps: Parser, eos: bool, stats: bool)
      ensures this.ps == ps && this.eos == eos && this.stats == stats
      ensures !receivedSyncRsp && totalIn == 0 && totalKV == 0 && published == []
    {
      this.ps, this.eos, this.stats := ps, eos, stats;
      receivedSyncRsp, totalIn, totalKV, published := false, 0, 0, [];
    }

    /** The session agrees with the responses it has handled. */
    ghost predicate Agrees(rs: seq<Response>)
      reads this
    {
      && (receivedSyncRsp <==> SyncedBefore(rs, |rs|))
      && published == Published(ps, eos, rs, |rs|)
      && totalIn == (if stats then |rs| else 0)
      && totalKV == (if stats then TotalPaths(ps, rs, |rs|) else 0)
    }

    /** Looking for the header in the extensions, one by one. */
    method FindExtension(exts: seq<Extension>) returns (ext: Option<Extension>)
      ensures ext == JuniperExtension(exts)
    {
      for i := 0 to |exts|
        invariant JuniperExtension(exts) == JuniperExtension(exts[i..])
      {
        if exts[i].isJuniper {
          return Some(exts[i]);
        }
      }
      assert exts[|exts|..] == [];
      ext := None;
    }

    /** formJuniperTelemetryHdr, and the part of the header's path that names the subscription. */
    method FormHeader(jx: Option<JuniperXpaths>, exts: seq<Extension>) returns (outcome: HeaderOutcome)
      ensures outcome == HeaderOf(ps, jx, exts)
    {
      var hdrValue: Option<Datum> := None;
      var ext: Option<Extension> := None;
      if jx.Some? {
        if jx.value.hdr !in jx.value.xpaths {
          return NotJuniper;
        }
        hdrValue := jx.value.xpaths[jx.value.hdr];
      } else {
        ext := FindExtension(exts);
        if ext.None? {
          return NotJuniper;
        }
      }
      if hdrValue.Some? {
        match ps.unpack(hdrValue.value) {
          case NotAny => outcome := Found(JuniperHeader(None, None, ""));
          case BadAny => outcome := BadHeader;
          case AnyHeader(seqNum, path) =>
            var splits := Split(path, ':');
            if |splits| < 3 {
              return Panics;
            }
            outcome := Found(JuniperHeader(Some(seqNum), None, splits[2]));
        }
      } else {
        // a value that could not be converted leaves no extension either, and unmarshalling nothing gives an empty
        // header
        var msg := if ext.Some? then ext.value.msg else Some(ExtHeader(0, ""));
        outcome := if msg.None? then BadHeader
          else Found(JuniperHeader(None, Some(msg.value.seqNum), msg.value.subscribed));
      }
    }

    /** Parsing one notification and its header. */
    method Parse(r: Response) returns (p: Option<Packet>, stops: bool)
      requires !r.SyncResponse?
      ensures stops == Stops(ps, r)
      ensures p == PacketOf(ps, r)
    {
      p, stops := None, false;
      if r.NoUpdate? {
        return;
      }
      var out, inKvs := GnmiParseNotification(ps.parseOrigin, r.prefix, r.updates, r.deletes);
      if out.None? {
        return;
      }
      var mName := out.value.prefixPath + "/";
      var outcome := FormHeader(out.value.jXpaths, r.exts);
      match outcome {
        case NotJuniper =>
          if r.timestamp != 0 {
            p := Some(Packet(out.value, inKvs, None, mName));
          }
        case BadHeader =>
        case Panics =>
          stops := true;
        case Found(header) =>
          if header.subscribed != "" {
            mName := header.subscribed;
          }
          p := Some(Packet(out.value, inKvs, Some(header), mName));
      }
    }

    /** gnmiHandleResponse, for responses handled in order. */
    method HandleResponse(r: Response, ghost rs: seq<Response>) returns (stops: bool)
      requires Agrees(rs)
      modifies this
      ensures stops == Stops(ps, r)
      ensures !stops ==> Agrees(rs + [r])
      ensures stops ==> published == old(published) && receivedSyncRsp == old(receivedSyncRsp)
      ensures stops ==> totalKV == old(totalKV) && totalIn == old(totalIn) + if stats then 1 else 0
    {
      stops := false;
      OneMore(ps, eos, rs, r);
      if stats {
        totalIn := totalIn + 1;
      }
      if r.SyncResponse? {
        receivedSyncRsp := true;
        return;
      }
      var p;
      p, stops := Parse(r);
      if p.None? {
        return;
      }
      if stats {
        totalKV := totalKV + p.value.inKvs;
      }
      if !eos {
        if !receivedSyncRsp {
          if p.value.header.Some? {
            var header := p.value.header.value;
            if IsInitialSync(header.hdr) || IsInitialSync(header.ext) {
              return;
            }
          } else {
            return;
          }
        }
      }
      if p.value.mName == "" {
        return;
      }
      published := published + [p.value];
    }

    /** Every run of responses, up to one that stops the program. */
    method Run(rs: seq<Response>) returns (handled: nat)
      requires Agrees([])
      modifies this
      ensures handled <= |rs| && published == Published(ps, eos, rs[..handled], handled)
      ensures receivedSyncRsp <==> SyncedBefore(rs[..handled], handled)
      ensures totalKV == if stats then TotalPaths(ps, rs[..handled], handled) else 0
      ensures totalIn == if stats then (if handled < |rs| then handled + 1 else handled) else 0
      ensures handled == |rs| ==> Agrees(rs)
      ensures handled < |rs| ==> Stops(ps, rs[handled])
      ensures forall i :: 0 <= i < handled ==> !Stops(ps, rs[i])
    {
      hide Stops;
      hide Published;
      hide PacketOf;
      assert rs[..0] == [];
      for i := 0 to |rs|
        invariant Agrees(rs[..i])
        invariant forall j :: 0 <= j < i ==> !Stops(ps, rs[j])
      {
        ghost var before := rs[..i];
        assert rs[..i + 1] == before + [rs[i]];
        var stops := HandleResponse(rs[i], before);
        if stops {
          return i;
        }
      }
      handled := |rs|;
      assert rs[..|rs|] == rs;
    }
  }

  /** What a response adds to a run depends on the responses before it only through the sync flag. */
  lemma OneMore(ps: Parser, eos: bool, rs: seq<Response>, r: Response)
    ensures var more := rs + [r];
            var p := PacketOf(ps, r);
            && (SyncedBefore(more, |more|) <==> SyncedBefore(rs, |rs|) || r.SyncResponse?)
            && Published(ps, eos, more, |more|) == Published(ps, eos, rs, |rs|) +
               (if p.Some? && (eos || SyncedBefore(rs, |rs|) || PassesEarly(p.value)) then [p.value] else [])
            && TotalPaths(ps, more, |more|) == TotalPaths(ps, rs, |rs|) + (if p.Some? then p.value.inKvs else 0)
  {
    hide PacketOf;
    hide PassesEarly;
    var more := rs + [r];
    assert more[|rs|] == r;
    SamePrefix(ps, eos, rs, more, |rs|);
    SyncedSame(rs, more, |rs|);
    if SyncedBefore(rs, |rs|) {
      var j :| 0 <= j < |rs| && rs[j].SyncResponse?;
      assert more[j].SyncResponse?;
    }
  }

  lemma SyncedSame(rs: seq<Response>, more: seq<Response>, n: nat)
    requires n <= |rs| <= |more| && more[..|rs|] == rs
    ensures SyncedBefore(rs, n) <==> SyncedBefore(more, n)
  {
    assert forall j :: 0 <= j < |rs| ==> rs[j] == more[..|rs|][j] == more[j];
    if SyncedBefore(rs, n) {
      var j :| 0 <= j < n && rs[j].SyncResponse?;
      assert more[j].SyncResponse?;
    }
  }

  lemma {:induction false} SamePrefix(ps: Parser, eos: bool, rs: seq<Response>, more: seq<Response>, n: nat)
    requires n <= |rs| <= |more| && more[..|rs|] == rs
    ensures Published(ps, eos, more, n) == Published(ps, eos, rs, n)
    ensures TotalPaths(ps, more, n) == TotalPaths(ps, rs, n)
  {
    if n > 0 {
      SamePrefix(ps, eos, rs, more, n - 1);
      SyncedSame(rs, more, n - 1);
      assert more[..|rs|][n - 1] == more[n - 1];
    }
  }

  /** The packets of the responses lo to hi, only those let through early if so asked. */
  function Parsed(ps: Parser, rs: seq<Response>, lo: nat, hi: nat, early: bool): seq<Packet>
    requires lo <= hi <= |rs|
    decreases hi - lo
  {
    if lo == hi then []
    else
      var p := PacketOf(ps, rs[hi - 1]);
      Parsed(ps, rs, lo, hi - 1, early) + if p.Some? && (early ==> PassesEarly(p.value)) then [p.value] else []
  }

  /**
   The packets published with EOS off. Until the first sync response at s, or to the end if there is none, they are the
   Juniper packets numbered outside the initial sync; from there on they are all packets that parse.
   */
  lemma {:induction false} PublishedSplit(ps: Parser, rs: seq<Response>, s: nat, n: nat)
    requires s <= n <= |rs| && (s == n || rs[s].SyncResponse?) && forall j :: 0 <= j < s ==> !rs[j].SyncResponse?
    ensures Published(ps, false, rs, n) == Parsed(ps, rs, 0, s, true) + Parsed(ps, rs, s, n, false)
    decreases n
  {
    hide PacketOf;
    if s < n {
      PublishedSplit(ps, rs, s, n - 1);
      assert n - 1 > s ==> SyncedBefore(rs, n - 1);
      if n - 1 == s {
        NoPacket(ps, rs[s]);
      }
      var p := PacketOf(ps, rs[n - 1]);
      Associative(Parsed(ps, rs, 0, s, true), Parsed(ps, rs, s, n - 1, false), if p.Some? then [p.value] else []);
    } else if n > 0 {
      PublishedSplit(ps, rs, n - 1, n - 1);
      assert !SyncedBefore(rs, n - 1);
      var e := Parsed(ps, rs, 0, n - 1, true);
      assert e + [] == e && Parsed(ps, rs, 0, n, true) + [] == Parsed(ps, rs, 0, n, true);
    }
  }

  lemma NoPacket(ps: Parser, r: Response)
    requires r.SyncResponse?
    ensures PacketOf(ps, r).None?
  {
  }

  // ---------- the gate in numbers ----------

  /**
   With EOS off and no sync response so far, a response is published exactly if it parses, has a Juniper header, and
   neither sequence number in that header lies from 2^21 up to, but not including, 2^22.
   */
  lemma {:induction false} EarlyGate(ps: Parser, rs: seq<Response>, i: nat)
    requires i < |rs| && forall j :: 0 <= j < i ==> !rs[j].SyncResponse?
    ensures IsPublished(ps, false, rs, i) <==>
      && PacketOf(ps, rs[i]).Some? && PacketOf(ps, rs[i]).value.header.Some?
      && var h := PacketOf(ps, rs[i]).value.header.value;
         && (h.hdr.Some? ==> !(0x20_0000 <= h.hdr.value < 0x40_0000))
         && (h.ext.Some? ==> !(0x20_0000 <= h.ext.value < 0x40_0000))
  {
    hide PacketOf;
  }

  /** The first Juniper extension is the one that counts. */
  lemma {:induction false} FirstExtension(exts: seq<Extension>, k: nat)
    requires k < |exts| && exts[k].isJuniper && forall j :: 0 <= j < k ==> !exts[j].isJuniper
    ensures JuniperExtension(exts) == Some(exts[k])
    decreases k
  {
    if k > 0 {
      FirstExtension(exts[1..], k - 1);
    }
  }

  lemma {:induction false} NoExtension(exts: seq<Extension>)
    requires forall j :: 0 <= j < |exts| ==> !exts[j].isJuniper
    ensures JuniperExtension(exts) == None
  {
    if exts != [] {
      NoExtension(exts[1..]);
    }
  }

  /**
   A notification without reserved fields. Its header is that of the first Juniper extension; a packet without one
   needs a timestamp. The measurement is the subscribed path of the header, or else the prefix path and a slash.
   */
  lemma {:induction false} PacketFromExtension(ps: Parser, r: Response, k: nat)
    requires r.Notify? && Notification(ps.parseOrigin, r.prefix, r.updates, r.deletes).Some?
    requires Notification(ps.parseOrigin, r.prefix, r.updates, r.deletes).value.jXpaths.None?
    requires k <= |r.exts| && (forall j :: 0 <= j < k ==> !r.exts[j].isJuniper) &&
      (k < |r.exts| ==> r.exts[k].isJuniper)
    ensures var out, p := Notification(ps.parseOrigin, r.prefix, r.updates, r.deletes).value, PacketOf(ps, r);
      && (p.Some? ==> p.value.out == out && p.value.inKvs == |out.xpaths|)
      && (k == |r.exts| ==> (p.Some? <==> r.timestamp != 0))
      && (k == |r.exts| && p.Some? ==> p.value.header.None? && p.value.mName == out.prefixPath + "/")
      && (k < |r.exts| ==> (p.Some? <==> r.exts[k].msg.Some?))
      && (k < |r.exts| && p.Some? ==>
            var msg := r.exts[k].msg.value;
            && p.value.header == Some(JuniperHeader(None, Some(msg.seqNum), msg.subscribed))
            && p.value.mName == if msg.subscribed != "" then msg.subscribed else out.prefixPath + "/")
  {
    if k < |r.exts| {
      FirstExtension(r.exts, k);
    } else {
      NoExtension(r.exts);
    }
    hide Notification;
    hide JuniperExtension;
  }

  /** A notification whose updates hold a header message: its sequence number and the third part of its path count. */
  lemma {:induction false} PacketFromUpdates(ps: Parser, r: Response, d: Datum, n: nat, path: string)
    requires r.Notify? && Notification(ps.parseOrigin, r.prefix, r.updates, r.deletes).Some?
    requires var jx := Notification(ps.parseOrigin, r.prefix, r.updates, r.deletes).value.jXpaths;
      jx.Some? && jx.value.hdr in jx.value.xpaths && jx.value.xpaths[jx.value.hdr] == Some(d)
    requires ps.unpack(d) == AnyHeader(n, path)
    ensures |Split(path, ':')| < 3 <==> Stops(ps, r)
    ensures |Split(path, ':')| >= 3 ==>
      && PacketOf(ps, r).Some?
      && var out, p := Notification(ps.parseOrigin, r.prefix, r.updates, r.deletes).value, PacketOf(ps, r).value;
         var third := Split(path, ':')[2];
         && p.header == Some(JuniperHeader(Some(n), None, third))
         && p.inKvs == |out.xpaths| + |out.jXpaths.value.xpaths|
         && p.mName == if third != "" then third else out.prefixPath + "/"
  {
    hide Notification;
    hide Split;
  }

  /** The gate for the sequence number of an extension header. */
  lemma {:induction false} ExtensionGate(ps: Parser, r: Response, n: nat, subscribed: string)
    requires r.Notify? && Notification(ps.parseOrigin, r.prefix, r.updates, r.deletes).Some?
    requires Notification(ps.parseOrigin, r.prefix, r.updates, r.deletes).value.jXpaths.None?
    requires r.exts == [Extension(true, Some(ExtHeader(n, subscribed)))]
    ensures Published(ps, false, [r], 1) == if n < 0x20_0000 || 0x40_0000 <= n then [PacketOf(ps, r).value] else []
    ensures PacketOf(ps, r).Some?
  {
    PacketFromExtension(ps, r, 0);
    EarlyGate(ps, [r], 0);
    hide PacketOf;
    hide IsPublished;
    hide Notification;
    assert Published(ps, false, [r], 0) == [];
  }

  /** The four numbers at the edges of the range. */
  lemma {:induction false} GateEdges(ps: Parser, r: Response, subscribed: string)
    requires r.Notify? && Notification(ps.parseOrigin, r.prefix, r.updates, r.deletes).Some?
    requires Notification(ps.parseOrigin, r.prefix, r.updates, r.deletes).value.jXpaths.None?
    ensures Published(ps, false, [Numbered(r, 2097151, subscribed)], 1) != []
    ensures Published(ps, false, [Numbered(r, 2097152, subscribed)], 1) == []
    ensures Published(ps, false, [Numbered(r, 4194303, subscribed)], 1) == []
    ensures Published(ps, false, [Numbered(r, 4194304, subscribed)], 1) != []
  {
    hide Published;
    hide Notification;
    ExtensionGate(ps, Numbered(r, 2097151, subscribed), 2097151, subscribed);
    ExtensionGate(ps, Numbered(r, 2097152, subscribed), 2097152, subscribed);
    ExtensionGate(ps, Numbered(r, 4194303, subscribed), 4194303, subscribed);
    ExtensionGate(ps, Numbered(r, 4194304, subscribed), 4194304, subscribed);
  }

  /** The notification with one Juniper extension of the given number. */
  function Numbered(r: Response, n: nat, subscribed: string): Response
    requires r.Notify?
  {
    r.(exts := [Extension(true, Some(ExtHeader(n, subscribed)))])
  }
}

/** The periodic writers of Junos points (influx.go): one batch stream per measurement, or one for all. */
module Batching {
  import opened Points

  datatype Packet = Packet(measurement: string, points: seq<Point>)

  /** A batch handed to the database, with the measurement whose turn it was. */
  datatype Write = Write(measurement: string, batch: seq<Point>)

  function Concat(batches: seq<seq<Point>>): seq<Point> {
    if batches == [] then [] else Concat(batches[..|batches| - 1]) + batches[|batches| - 1]
  }

  /** The points of one measurement, in arrival order. */
  function PointsFor(packets: seq<Packet>, name: string): seq<Point> {
    if packets == [] then []
    else
      var last := packets[|packets| - 1];
      PointsFor(packets[..|packets| - 1], name) + if last.measurement == name then last.points else []
  }

  /** The batches of one measurement, in the order they were written. */
  function BatchesFor(log: seq<Write>, name: string): seq<seq<Point>> {
    if log == [] then []
    else
      var last := log[|log| - 1];
      BatchesFor(log[..|log| - 1], name) + if last.measurement == name then [last.batch] else []
  }

  /** A batch is written as soon as it holds this many points; a size of zero acts like one. */
  function Limit(batchSize: nat): nat {
    if batchSize == 0 then 1 else batchSize
  }

  /** A batch is full at the configured size; only a size of zero is taken as one. */
  lemma LimitIsSize(batchSize: nat)
    ensures batchSize >= 1 ==> Limit(batchSize) == batchSize
    ensures Limit(0) == 1
  {
  }

  /** Full batches that hold all the points in order: only the last may be short, and none is empty. */
  ghost predicate IsBatching(batches: seq<seq<Point>>, pts: seq<Point>, limit: nat) {
    && Concat(batches) == pts
    && (forall i :: 0 <= i < |batches| ==> 0 < |batches[i]| <= limit)
    && (forall i :: 0 <= i < |batches| - 1 ==> |batches[i]| == limit)
  }

  /** There is only one way to batch. */
  lemma {:induction false} BatchingUnique(a: seq<seq<Point>>, b: seq<seq<Point>>, pts: seq<Point>, limit: nat)
    requires IsBatching(a, pts, limit) && IsBatching(b, pts, limit)
    ensures a == b
  {
    ConcatLength(a, limit);
    ConcatLength(b, limit);
    if a == [] || b == [] {
    } else {
      assert |a| == |b| by { SameCount(|a|, |b|, |pts|, limit); }
      var x, y := a[|a| - 1], b[|b| - 1];
      assert |x| == |y|;
      var cut := |pts| - |x|;
      assert x == pts[cut..] == y;
      assert Concat(a[..|a| - 1]) == pts[..cut] == Concat(b[..|b| - 1]);
      BatchingUnique(a[..|a| - 1], b[..|b| - 1], pts[..cut], limit);
    }
  }

  lemma {:induction false} ConcatLength(a: seq<seq<Point>>, limit: nat)
    requires forall i :: 0 <= i < |a| - 1 ==> |a[i]| == limit
    ensures a != [] ==> |Concat(a)| == (|a| - 1) * limit + |a[|a| - 1]|
  {
    if |a| > 1 {
      var init := a[..|a| - 1];
      ConcatLength(init, limit);
      assert |init[|init| - 1]| == limit;
      assert (|init| - 1) * limit + limit == |init| * limit;
    } else if |a| == 1 {
      assert Concat(a[..0]) == [];
    }
  }

  lemma SameCount(m: nat, n: nat, total: nat, limit: nat)
    requires m > 0 && n > 0 && limit > 0
    requires (m - 1) * limit < total <= m * limit && (n - 1) * limit < total <= n * limit
    ensures m == n
  {
  }

  /** Full batches so far, and the open one. */
  ghost predicate Filling(done: seq<seq<Point>>, open: seq<Point>, pts: seq<Point>, limit: nat) {
    && Concat(done) + open == pts
    && (forall i :: 0 <= i < |done| ==> |done[i]| == limit)
    && |open| < limit
  }

  lemma BatchesForMore(log: seq<Write>, w: Write, name: string)
    ensures BatchesFor(log + [w], name) == BatchesFor(log, name) + if w.measurement == name then [w.batch] else []
  {
    assert (log + [w])[..|log|] == log;
  }

  lemma ConcatMore(done: seq<seq<Point>>, b: seq<Point>)
    ensures Concat(done + [b]) == Concat(done) + b
  {
    assert (done + [b])[..|done|] == done;
  }

  lemma PointsForMore(packets: seq<Packet>, d: Packet, name: string)
    ensures PointsFor(packets + [d], name) == PointsFor(packets, name) + if d.measurement == name then d.points else []
  {
    assert (packets + [d])[..|packets|] == packets;
  }

  /** Closing a packet's loop: the batches of the measurement are complete once the open batch is flushed. */
  lemma Flushed(done: seq<seq<Point>>, open: seq<Point>, pts: seq<Point>, limit: nat)
    requires Filling(done, open, pts, limit)
    ensures IsBatching(if open == [] then done else done + [open], pts, limit)
  {
    if open != [] {
      ConcatMore(done, open);
    }
  }

  /** Nothing but the batches of one measurement differs between two logs. */
  ghost predicate OnlyFor(measurement: string, log: seq<Write>, was: seq<Write>) {
    forall name :: name != measurement ==> BatchesFor(log, name) == BatchesFor(was, name)
  }

  /** A batch is written for one measurement. */
  method WriteBatch(log: seq<Write>, measurement: string, batch: seq<Point>) returns (log': seq<Write>)
    ensures BatchesFor(log', measurement) == BatchesFor(log, measurement) + [batch]
    ensures OnlyFor(measurement, log', log)
  {
    log' := log + [Write(measurement, batch)];
    forall name ensures BatchesFor(log', name) == BatchesFor(log, name) + if measurement == name then [batch] else [] {
      BatchesForMore(log, Write(measurement, batch), name);
    }
  }

  /** All points of one packet go through the open batch; a full one is written and a new one started. */
  method AddPacket(log: seq<Write>, measurement: string, packet: seq<Point>, open: seq<Point>, batchSize: nat,
                   ghost pts: seq<Point>)
    returns (log': seq<Write>, open': seq<Point>)
    requires Filling(BatchesFor(log, measurement), open, pts, Limit(batchSize))
    ensures Filling(BatchesFor(log', measurement), open', pts + packet, Limit(batchSize))
    ensures OnlyFor(measurement, log', log)
  {
    log', open' := log, open;
    for k := 0 to |packet|
      invariant Filling(BatchesFor(log', measurement), open', pts + packet[..k], Limit(batchSize))
      invariant OnlyFor(measurement, log', log)
    {
      assert pts + packet[..k + 1] == pts + packet[..k] + [packet[k]];
      assert Concat(BatchesFor(log', measurement)) + (open' + [packet[k]]) == pts + packet[..k + 1];
      open' := open' + [packet[k]];
      if |open'| >= batchSize {
        ConcatMore(BatchesFor(log', measurement), open');
        log' := WriteBatch(log', measurement, open');
        open' := [];
      }
    }
    assert packet[..|packet|] == packet;
  }

  /** All packets of one measurement, and the last batch if it holds anything. */
  method WriteMeasurement(log: seq<Write>, measurement: string, data: seq<Packet>, batchSize: nat)
    returns (log': seq<Write>)
    requires forall i :: 0 <= i < |data| ==> data[i].measurement == measurement
    requires BatchesFor(log, measurement) == []
    ensures IsBatching(BatchesFor(log', measurement), PointsFor(data, measurement), Limit(batchSize))
    ensures OnlyFor(measurement, log', log)
  {
    var open: seq<Point> := [];
    log' := log;
    for j := 0 to |data|
      invariant Filling(BatchesFor(log', measurement), open, PointsFor(data[..j], measurement), Limit(batchSize))
      invariant OnlyFor(measurement, log', log)
    {
      log', open := AddPacket(log', measurement, data[j].points, open, batchSize, PointsFor(data[..j], measurement));
      assert data[..j + 1] == data[..j] + [data[j]];
      PointsForMore(data[..j], data[j], measurement);
    }
    assert data[..|data|] == data;
    Flushed(BatchesFor(log', measurement), open, PointsFor(data, measurement), Limit(batchSize));
    if |open| > 0 {
      log' := WriteBatch(log', measurement, open);
    }
  }

  /** The packets of one measurement. */
  function Only(packets: seq<Packet>, name: string): seq<Packet> {
    if packets == [] then []
    else
      var last := packets[|packets| - 1];
      Only(packets[..|packets| - 1], name) + if last.measurement == name then [last] else []
  }

  lemma OnlyMore(packets: seq<Packet>, d: Packet, name: string)
    ensures Only(packets + [d], name) == Only(packets, name) + if d.measurement == name then [d] else []
  {
    assert (packets + [d])[..|packets|] == packets;
  }

  lemma {:induction false} OnlyPoints(packets: seq<Packet>, name: string)
    ensures PointsFor(Only(packets, name), name) == PointsFor(packets, name)
    ensures forall i :: 0 <= i < |Only(packets, name)| ==> Only(packets, name)[i].measurement == name
  {
    if packets != [] {
      var init, last := packets[..|packets| - 1], packets[|packets| - 1];
      OnlyPoints(init, name);
      if last.measurement == name {
        PointsForMore(Only(init, name), last, name);
      } else {
        assert Only(init, name) + [] == Only(init, name);
      }
    }
  }

  /** The map of the drained packets: each measurement seen, with its packets in arrival order. */
  ghost predicate Grouped(m: map<string, seq<Packet>>, packets: seq<Packet>) {
    && (forall name :: name in m ==> m[name] == Only(packets, name))
    && (forall name :: name !in m ==> Only(packets, name) == [])
  }

  /** A tick's writes: per measurement, the batches of its drained points. */
  ghost predicate Batched(log: seq<Write>, packets: seq<Packet>, batchSize: nat) {
    forall name :: IsBatching(BatchesFor(log, name), PointsFor(packets, name), Limit(batchSize))
  }

  /** dbBatchWriteM's second half: the measurements are handled in any order. */
  method WriteGroups(m: map<string, seq<Packet>>, ghost packets: seq<Packet>, batchSize: nat) returns (log: seq<Write>)
    requires Grouped(m, packets)
    ensures Batched(log, packets, batchSize)
  {
    log := [];
    var left := m.Keys;
    forall name | name !in left ensures PointsFor(packets, name) == [] {
      OnlyPoints(packets, name);
    }
    while left != {}
      invariant left <= m.Keys
      invariant forall name :: name in left ==> BatchesFor(log, name) == []
      invariant forall name :: name !in left ==>
                  IsBatching(BatchesFor(log, name), PointsFor(packets, name), Limit(batchSize))
    {
      var measurement :| measurement in left;
      OnlyPoints(packets, measurement);
      log := WriteMeasurement(log, measurement, m[measurement], batchSize);
      left := left - {measurement};
    }
  }

  lemma GroupNone()
    ensures Grouped(map[], [])
  {
  }

  lemma GroupMore(m: map<string, seq<Packet>>, packets: seq<Packet>, d: Packet)
    requires Grouped(m, packets)
    ensures Grouped(m[d.measurement := (if d.measurement in m then m[d.measurement] else []) + [d]], packets + [d])
  {
    forall name ensures Only(packets + [d], name) == Only(packets, name) + if d.measurement == name then [d] else [] {
      OnlyMore(packets, d, name);
    }
  }

  class MeasurementWriter {
    var ch: seq<Packet>
    var log: seq<Write>

    constructor ()
      ensures ch == [] && log == []
    {
      ch, log := [], [];
    }

    /** One tick of dbBatchWriteM: n is the length of the channel when the tick looked at it. */
    method Tick(n: nat, batchSize: nat)
      requires n <= |ch|
      modifies this
      ensures ch == old(ch)[n..]
      ensures |log| >= |old(log)| && log[..|old(log)|] == old(log)
      ensures Batched(log[|old(log)|..], old(ch)[..n], batchSize)
    {
      hide Grouped;
      hide Batched;
      var m: map<string, seq<Packet>> := map[];
      ghost var queue := ch;
      GroupNone();
      for i := 0 to n
        invariant ch == queue[i..] && log == old(log)
        invariant Grouped(m, queue[..i])
      {
        var d := ch[0];
        ch := ch[1..];
        assert queue[..i + 1] == queue[..i] + [d];
        GroupMore(m, queue[..i], d);
        var v := if d.measurement in m then m[d.measurement] else [];
        m := m[d.measurement := v + [d]];
      }
      var writes := WriteGroups(m, queue[..n], batchSize);
      log := log + writes;
      assert log[|old(log)|..] == writes;
    }
  }

  // ---------- one stream for everything ----------

  function AllPoints(packets: seq<Packet>): seq<Point> {
    if packets == [] then [] else AllPoints(packets[..|packets| - 1]) + packets[|packets| - 1].points
  }

  class PlainWriter {
    var ch: seq<Packet>
    var log: seq<seq<Point>>

    constructor ()
      ensures ch == [] && log == []
    {
      ch, log := [], [];
    }

    /** One tick of dbBatchWrite: everything drained goes into one batch. */
    method Tick(n: nat)
      requires n <= |ch|
      modifies this
      ensures ch == old(ch)[n..]
      ensures log == old(log) + if n == 0 then [] else [AllPoints(old(ch)[..n])]
    {
      if n != 0 {
        var bp: seq<Point> := [];
        ghost var queue := ch;
        for i := 0 to n
          invariant ch == queue[i..] && log == old(log)
          invariant bp == AllPoints(queue[..i])
        {
          var packet := ch[0].points;
          ch := ch[1..];
          assert queue[..i + 1][..i] == queue[..i];
          bp := bp + packet;
        }
        log := log + [bp];
      }
    }
  }

  /** The subsequence of the points with one measurement name. */
  function Named(pts: seq<Point>, name: string): seq<Point> {
    if pts == [] then []
    else Named(pts[..|pts| - 1], name) + if pts[|pts| - 1].name == name then [pts[|pts| - 1]] else []
  }

  lemma {:induction false} NamedAppend(a: seq<Point>, b: seq<Point>, name: string)
    ensures Named(a + b, name) == Named(a, name) + Named(b, name)
  {
    if b == [] {
      assert a + b == a;
    } else {
      var init := b[..|b| - 1];
      NamedAppend(a, init, name);
      assert (a + b)[..|a + b| - 1] == a + init;
    }
  }

  lemma {:induction false} NamedUniform(pts: seq<Point>, measurement: string, name: string)
    requires forall i :: 0 <= i < |pts| ==> pts[i].name == measurement
    ensures Named(pts, name) == if measurement == name then pts else []
  {
    if pts != [] {
      NamedUniform(pts[..|pts| - 1], measurement, name);
    }
  }

  /** Both producers name the points of a packet after its measurement. */
  ghost predicate NamedAfter(packets: seq<Packet>) {
    forall i, j :: 0 <= i < |packets| && 0 <= j < |packets[i].points| ==>
      packets[i].points[j].name == packets[i].measurement
  }

  /** Per measurement, the two writers write the same points in the same order. */
  lemma {:induction false} SamePoints(packets: seq<Packet>, log: seq<Write>, batchSize: nat, name: string)
    requires NamedAfter(packets) && Batched(log, packets, batchSize)
    ensures Concat(BatchesFor(log, name)) == Named(AllPoints(packets), name)
  {
    NamedPoints(packets, name);
  }

  lemma {:induction false} NamedPoints(packets: seq<Packet>, name: string)
    requires NamedAfter(packets)
    ensures Named(AllPoints(packets), name) == PointsFor(packets, name)
  {
    if packets != [] {
      var init, last := packets[..|packets| - 1], packets[|packets| - 1];
      NamedPoints(init, name);
      NamedAppend(AllPoints(init), last.points, name);
      NamedUniform(last.points, last.measurement, name);
    }
  }
}

/**
 The accumulator (influx.go): every tick drains the queued metrics and merges neighbours into points.
 */
module Accumulator {
  import opened Text
  import opened Points

  /** The configured measurement name, the client library's limit on series keys, and its reader of raw bytes. */
  datatype Influx = Influx(measurement: string, fits: (string, Tags, string) -> bool, parses: seq<int> -> bool)

  /** A drained metric with the clock reading taken while it was handled. */
  datatype Item = Item(m: Metric, at: int)

  function MeasurementName(db: Influx, tags: Tags): string {
    if db.measurement != "" then db.measurement
    else if "sensor" in tags then tags["sensor"]
    else ""
  }

  /** The fields of a metric that starts a point. */
  function Stamped(m: Metric): Fields {
    m.fields[DEVICE_TS := IntDatum(ToInt64(m.ts))]
  }

  /** The check that a metric has to pass: it makes a point, and the point's fields can be read back. */
  function Validated(db: Influx, m: Metric): Option<Point> {
    if FieldsRead(db.parses, m.fields) then NewPoint(db.fits, "tmpmeasure", m.tags, m.fields, 0) else None
  }

  function FirstPoint(db: Influx, x: Item): Option<Point> {
    NewPoint(db.fits, MeasurementName(db, x.m.tags), x.m.tags, Stamped(x.m), x.at)
  }

  /** The metrics that the client library accepts; all others are skipped. */
  predicate Usable(db: Influx, x: Item) {
    Validated(db, x.m).Some? && FirstPoint(db, x).Some?
  }

  function Kept(db: Influx, items: seq<Item>): seq<Item> {
    if items == [] then []
    else (if Usable(db, items[0]) then [items[0]] else []) + Kept(db, items[1..])
  }

  // ---------- runs ----------

  /**
   Metrics that may share a point: the tags of the first (tags without a value aside), no field
   twice, and no device timestamp of their own after the first.
   */
  predicate Mergeable(run: seq<Item>) {
    && (forall i :: 0 < i < |run| ==> run[i].m.tags == DropEmpty(run[0].m.tags))
    && (forall i :: 0 < i < |run| ==> DEVICE_TS !in run[i].m.fields)
    && (forall i, j :: 0 <= i < j < |run| ==> run[i].m.fields.Keys !! run[j].m.fields.Keys)
  }

  lemma SubrunMergeable(run: seq<Item>, lo: nat, hi: nat)
    requires lo <= hi <= |run| && Mergeable(run)
    ensures Mergeable(run[lo..hi])
  {
    var sub := run[lo..hi];
    forall i | 0 < i < |sub| ensures sub[i].m.tags == DropEmpty(sub[0].m.tags) {
      assert sub[i] == run[lo + i];
    }
    forall i, j | 0 <= i < j < |sub| ensures sub[i].m.fields.Keys !! sub[j].m.fields.Keys {
      assert sub[i] == run[lo + i] && sub[j] == run[lo + j];
    }
  }

  lemma OneIsMergeable(x: Item)
    ensures Mergeable([x])
  {
  }

  /** The greedy split: a run is closed by the first metric that does not fit into it. */
  function GreedyFrom(cur: seq<Item>, rest: seq<Item>): seq<seq<Item>>
    decreases |rest|
  {
    if rest == [] then [cur]
    else if Mergeable(cur + [rest[0]]) then GreedyFrom(cur + [rest[0]], rest[1..])
    else [cur] + GreedyFrom([rest[0]], rest[1..])
  }

  function Greedy(ms: seq<Item>): seq<seq<Item>> {
    if ms == [] then [] else GreedyFrom([ms[0]], ms[1..])
  }

  function Concat(runs: seq<seq<Item>>): seq<Item> {
    if runs == [] then [] else runs[0] + Concat(runs[1..])
  }

  predicate AllNonempty(runs: seq<seq<Item>>) {
    forall i :: 0 <= i < |runs| ==> runs[i] != []
  }

  ghost predicate IsSplit(runs: seq<seq<Item>>, ms: seq<Item>) {
    Concat(runs) == ms && forall r :: r in runs ==> Mergeable(r)
  }

  lemma {:induction false} GreedyFromSplits(cur: seq<Item>, rest: seq<Item>)
    requires cur != [] && Mergeable(cur)
    ensures IsSplit(GreedyFrom(cur, rest), cur + rest)
    ensures AllNonempty(GreedyFrom(cur, rest))
    decreases |rest|
  {
    if rest == [] {
      assert Concat([cur]) == cur + Concat([]);
    } else {
      assert cur + rest == (cur + [rest[0]]) + rest[1..];
      if Mergeable(cur + [rest[0]]) {
        GreedyFromSplits(cur + [rest[0]], rest[1..]);
      } else {
        GreedyFromSplits([rest[0]], rest[1..]);
        var tail := GreedyFrom([rest[0]], rest[1..]);
        assert ([cur] + tail)[1..] == tail;
        assert [rest[0]] + rest[1..] == rest;
      }
    }
  }

  /** The greedy runs are nonempty, mergeable and contiguous: they cover the metrics in order. */
  lemma GreedySplits(ms: seq<Item>)
    ensures IsSplit(Greedy(ms), ms)
    ensures AllNonempty(Greedy(ms))
  {
    if ms != [] {
      GreedyFromSplits([ms[0]], ms[1..]);
      assert [ms[0]] + ms[1..] == ms;
    }
  }

  /** The first greedy run is the longest mergeable prefix, and the rest is split the same way. */
  lemma {:induction false} FirstRun(cur: seq<Item>, rest: seq<Item>) returns (k: nat)
    requires cur != [] && Mergeable(cur)
    ensures k <= |rest|
    ensures GreedyFrom(cur, rest) == [cur + rest[..k]] + Greedy(rest[k..])
    ensures k < |rest| ==> !Mergeable(cur + rest[..k + 1])
    decreases |rest|
  {
    hide Mergeable;
    if rest == [] {
      k := 0;
      assert cur + rest[..0] == cur && Greedy(rest[0..]) == [];
      assert [cur] + [] == [cur];
    } else if Mergeable(cur + [rest[0]]) {
      var tail := rest[1..];
      var j := FirstRun(cur + [rest[0]], tail);
      k := j + 1;
      assert cur + rest[..k] == cur + [rest[0]] + tail[..j];
      assert rest[k..] == tail[j..];
      if k < |rest| {
        assert cur + rest[..k + 1] == cur + [rest[0]] + tail[..j + 1];
      }
    } else {
      k := 0;
      assert cur + rest[..0] == cur && rest[0..] == rest;
      assert rest[..1] == [rest[0]];
    }
  }

  /** No split of a sequence into mergeable runs is shorter than the greedy split of any of its suffixes. */
  lemma {:induction false} GreedyBelow(runs: seq<seq<Item>>, ms: seq<Item>, j: nat)
    requires IsSplit(runs, ms) && j <= |ms|
    ensures |Greedy(ms[j..])| <= |runs|
    decreases |runs|
  {
    hide Mergeable;
    hide GreedyFrom;
    var t := ms[j..];
    if t != [] {
      assert runs != [];
      var s, others := runs[0], runs[1..];
      var rest := Concat(others);
      assert IsSplit(others, rest);
      if j >= |s| {
        GreedyBelow(others, rest, j - |s|);
        assert t == rest[j - |s|..];
      } else {
        OneIsMergeable(t[0]);
        var k := FirstRun([t[0]], t[1..]);
        var used := k + 1;
        if used < |s| - j {
          PrefixMergeable(s, j, rest, t, k);
          assert false;
        }
        GreedyBelow(others, rest, used - (|s| - j));
        assert t[1..][k..] == rest[used - (|s| - j)..];
      }
    }
  }

  /** Within the first run of a split, every prefix of what follows is mergeable. */
  lemma PrefixMergeable(s: seq<Item>, j: nat, rest: seq<Item>, t: seq<Item>, k: nat)
    requires j < |s| && Mergeable(s)
    requires t == s[j..] + rest
    requires k + 1 < |s| - j
    ensures Mergeable([t[0]] + t[1..][..k + 1])
  {
    SubrunMergeable(s, j, j + k + 2);
    assert [t[0]] + t[1..][..k + 1] == s[j..j + k + 2];
  }

  /** Greedy is optimal: no contiguous split into mergeable runs has fewer runs. */
  lemma GreedyOptimal(ms: seq<Item>, runs: seq<seq<Item>>)
    requires IsSplit(runs, ms)
    ensures |Greedy(ms)| <= |runs|
  {
    GreedyBelow(runs, ms, 0);
    assert ms[0..] == ms;
  }

  // ---------- the point of a run ----------

  function RunFields(run: seq<Item>): Fields
    requires run != []
  {
    if |run| == 1 then Stamped(run[0].m)
    else run[|run| - 1].m.fields + RunFields(run[..|run| - 1])
  }

  function PointOf(db: Influx, run: seq<Item>): Point
    requires run != []
  {
    Point(MeasurementName(db, run[0].m.tags), DropEmpty(run[0].m.tags), RunFields(run), run[|run| - 1].at)
  }

  ghost predicate Carries(run: seq<Item>, k: string) {
    exists i :: 0 <= i < |run| && k in run[i].m.fields
  }

  /** A point has the device timestamp of its first metric, and otherwise only fields of its metrics. */
  lemma {:induction false} RunFieldNames(run: seq<Item>, k: string)
    requires run != [] && Mergeable(run)
    ensures k in RunFields(run) <==> k == DEVICE_TS || Carries(run, k)
    ensures DEVICE_TS in RunFields(run) && RunFields(run)[DEVICE_TS] == IntDatum(ToInt64(run[0].m.ts))
  {
    var last := |run| - 1;
    if last > 0 {
      var init := run[..last];
      SubrunMergeable(run, 0, last);
      assert init == run[0..last];
      RunFieldNames(init, k);
      assert Carries(run, k) <==> Carries(init, k) || k in run[last].m.fields by {
        if Carries(init, k) {
          var i :| 0 <= i < |init| && k in init[i].m.fields;
          assert k in run[i].m.fields;
        }
        if i :| 0 <= i < |run| && k in run[i].m.fields {
          assert i < last ==> k in init[i].m.fields;
        }
      }
    } else {
      assert Carries(run, k) <==> k in run[0].m.fields;
    }
  }

  /** Every field of every metric of a run is in its point with its own value. */
  lemma {:induction false} RunFieldValues(run: seq<Item>, i: nat, k: string)
    requires i < |run| && Mergeable(run)
    requires k in run[i].m.fields && k != DEVICE_TS
    ensures k in RunFields(run) && RunFields(run)[k] == run[i].m.fields[k]
  {
    var last := |run| - 1;
    if last > 0 {
      var init := run[..last];
      SubrunMergeable(run, 0, last);
      assert init == run[0..last];
      if i < last {
        RunFieldValues(init, i, k);
      } else {
        RunFieldNames(init, k);
        assert !Carries(init, k);
      }
    }
  }

  // ---------- a tick ----------

  function PointsOf(db: Influx, runs: seq<seq<Item>>): (pts: seq<Point>)
    requires AllNonempty(runs)
    ensures |pts| == |runs|
    ensures forall i :: 0 <= i < |runs| ==> pts[i] == PointOf(db, runs[i])
  {
    seq(|runs|, i requires 0 <= i < |runs| => PointOf(db, runs[i]))
  }

  /** The drained metrics with their clock readings. */
  function ItemsOf(ms: seq<Metric>, now: nat -> int): (r: seq<Item>)
    ensures |r| == |ms|
    ensures forall i :: 0 <= i < |ms| ==> r[i] == Item(ms[i], now(i))
  {
    seq(|ms|, i requires 0 <= i < |ms| => Item(ms[i], now(i)))
  }

  function Runs(db: Influx, items: seq<Item>): (runs: seq<seq<Item>>)
    ensures AllNonempty(runs)
  {
    GreedySplits(Kept(db, items));
    Greedy(Kept(db, items))
  }

  /** What the loop holds: the points of the closed runs, and the point of the open one. */
  ghost predicate Holds(db: Influx, closed: seq<seq<Item>>, cur: seq<Item>, last: Option<Point>, points: seq<Point>) {
    && AllNonempty(closed)
    && points == PointsOf(db, closed)
    && (cur == [] <==> last.None?) && (cur == [] ==> closed == [])
    && (cur != [] ==> Mergeable(cur) && last == Some(PointOf(db, cur))
                      && FieldsOk(db.fits, last.value.name, last.value.tags, last.value.fields)
                      && FieldsRead(db.parses, last.value.fields))
  }

  /** Whether two field maps share a name; the source looks at them one by one. */
  method SharesField(a: Fields, b: Fields) returns (found: bool)
    ensures found <==> !(a.Keys !! b.Keys)
  {
    found := false;
    var left := a.Keys;
    while left != {}
      invariant left <= a.Keys
      invariant (a.Keys - left) !! b.Keys
    {
      var k :| k in left;
      if k in b {
        return true;
      }
      left := left - {k};
    }
  }

  /** The fields of the open point are those of its run, so disjointness means that the run may grow. */
  lemma ExtendIff(run: seq<Item>, x: Item)
    requires run != [] && Mergeable(run)
    ensures Mergeable(run + [x]) <==>
            x.m.tags == DropEmpty(run[0].m.tags) && x.m.fields.Keys !! RunFields(run).Keys
  {
    var more := run + [x];
    RunFieldNames(run, DEVICE_TS);
    if x.m.tags == DropEmpty(run[0].m.tags) && x.m.fields.Keys !! RunFields(run).Keys {
      forall i, j | 0 <= i < j < |more| ensures more[i].m.fields.Keys !! more[j].m.fields.Keys {
        if j == |run| {
          forall k | k in run[i].m.fields.Keys ensures k !in x.m.fields.Keys {
            RunFieldNames(run, k);
          }
        }
      }
    }
    if Mergeable(more) {
      assert more[|run|] == x;
      forall k | k in RunFields(run) ensures k !in x.m.fields {
        RunFieldNames(run, k);
        if Carries(run, k) {
          var i :| 0 <= i < |run| && k in run[i].m.fields;
          assert more[i].m.fields.Keys !! more[|run|].m.fields.Keys;
        }
      }
    }
  }

  /** Merging a usable metric always gives an acceptable point. */
  lemma MergeOk(db: Influx, run: seq<Item>, x: Item)
    requires run != [] && Mergeable(run + [x]) && Usable(db, x)
    requires FieldsOk(db.fits, PointOf(db, run).name, PointOf(db, run).tags, RunFields(run))
    ensures NewPoint(db.fits, PointOf(db, run).name, x.m.tags, x.m.fields + RunFields(run), x.at) ==
      Some(PointOf(db, run + [x]))
    ensures FieldsOk(db.fits, PointOf(db, run).name, x.m.tags, RunFields(run + [x]))
    ensures FieldsRead(db.parses, RunFields(run)) ==> FieldsRead(db.parses, RunFields(run + [x]))
    ensures DropEmpty(x.m.tags) == x.m.tags
  {
    var more := run + [x];
    assert more[|run|] == x && more[..|run|] == run;
    var name := PointOf(db, run).name;
    assert DropEmpty(x.m.tags) == x.m.tags;
    assert MeasurementName(db, x.m.tags) == name;
    forall k | k in x.m.fields ensures FieldOk(db.fits, name, x.m.tags, k, x.m.fields[k]) {
      assert k in Stamped(x.m) && FieldOk(db.fits, name, x.m.tags, k, Stamped(x.m)[k]);
      assert FieldOk(db.fits, "tmpmeasure", x.m.tags, k, x.m.fields[k]);
    }
  }

  /** One drained metric: skipped, merged into the open point, or the start of the next one. */
  method Take(db: Influx, x: Item, last: Option<Point>, points: seq<Point>, ghost closed: seq<seq<Item>>,
              ghost cur: seq<Item>)
    returns (last': Option<Point>, points': seq<Point>, ghost closed': seq<seq<Item>>, ghost cur': seq<Item>)
    requires Holds(db, closed, cur, last, points)
    ensures Holds(db, closed', cur', last', points')
    ensures if !Usable(db, x) then closed' == closed && cur' == cur
            else if cur == [] || Mergeable(cur + [x]) then closed' == closed && cur' == cur + [x]
            else closed' == closed + [cur] && cur' == [x]
  {
    last', points', closed', cur' := last, points, closed, cur;
    SameName(db, x.m.tags);
    if NewPoint(db.fits, "tmpmeasure", x.m.tags, x.m.fields, x.at).None? {
      return;
    }
    if !FieldsRead(db.parses, x.m.fields) {
      return;
    }
    if last.None? {
      var pt := NewPoint(db.fits, MeasurementName(db, x.m.tags), x.m.tags, Stamped(x.m), x.at);
      if pt.Some? {
        last', cur' := pt, [x];
      }
    } else {
      ExtendIff(cur, x);
      var fieldFound := false;
      var eq := x.m.tags == last.value.tags;
      if eq {
        fieldFound := SharesField(x.m.fields, last.value.fields);
      }
      if eq && !fieldFound {
        assert FieldsRead(db.parses, last.value.fields);  // reading the open point back never fails
        SameName(db, cur[0].m.tags);
        UsableIff(db, cur, x);
        var pt := NewPoint(db.fits, last.value.name, x.m.tags, x.m.fields + last.value.fields, x.at);
        if pt.Some? {
          MergeOk(db, cur, x);
          last', cur' := pt, cur + [x];
        }
      } else {
        var pt := NewPoint(db.fits, MeasurementName(db, x.m.tags), x.m.tags, Stamped(x.m), x.at);
        if pt.Some? {
          points', closed' := points + [last.value], closed + [cur];
          last', cur' := pt, [x];
        }
      }
    }
  }

  lemma SameName(db: Influx, tags: Tags)
    ensures MeasurementName(db, DropEmpty(tags)) == MeasurementName(db, tags)
    ensures DropEmpty(DropEmpty(tags)) == DropEmpty(tags)
  {
  }

  /** For a metric that fits the open run, the two ways of making its point succeed together. */
  lemma UsableIff(db: Influx, run: seq<Item>, x: Item)
    requires run != [] && Mergeable(run + [x]) && Validated(db, x.m).Some?
    requires FieldsOk(db.fits, PointOf(db, run).name, PointOf(db, run).tags, RunFields(run))
    ensures Usable(db, x) <==>
      NewPoint(db.fits, PointOf(db, run).name, x.m.tags, x.m.fields + RunFields(run), x.at).Some?
  {
    var more := run + [x];
    assert more[|run|] == x;
    SameName(db, run[0].m.tags);
    var name := PointOf(db, run).name;
    var merged, first := x.m.fields + RunFields(run), Stamped(x.m);
    SubrunMergeable(more, 0, |run|);
    assert more[0..|run|] == run;
    RunFieldNames(run, DEVICE_TS);
    assert FieldOk(db.fits, name, x.m.tags, DEVICE_TS, RunFields(run)[DEVICE_TS]);
    if FieldsOk(db.fits, name, x.m.tags, merged) {
      forall k | k in first ensures FieldOk(db.fits, name, x.m.tags, k, first[k]) {
        if k in x.m.fields {
          assert FieldOk(db.fits, name, x.m.tags, k, merged[k]);
        }
      }
    }
    if FieldsOk(db.fits, name, x.m.tags, first) {
      forall k | k in merged ensures FieldOk(db.fits, name, x.m.tags, k, merged[k]) {
        if k in RunFields(run) {
          assert FieldOk(db.fits, name, x.m.tags, k, RunFields(run)[k]);
        } else {
          assert FieldOk(db.fits, name, x.m.tags, k, first[k]);
        }
      }
    }
  }

  /** The runs that the loop will have found in the end. */
  function Total(closed: seq<seq<Item>>, cur: seq<Item>, rest: seq<Item>): seq<seq<Item>> {
    closed + if cur == [] then Greedy(rest) else GreedyFrom(cur, rest)
  }

  lemma TotalAdvances(db: Influx, x: Item, rest: seq<Item>, closed: seq<seq<Item>>, cur: seq<Item>,
                      closed': seq<seq<Item>>, cur': seq<Item>)
    requires if !Usable(db, x) then closed' == closed && cur' == cur
             else if cur == [] || Mergeable(cur + [x]) then closed' == closed && cur' == cur + [x]
             else closed' == closed + [cur] && cur' == [x]
    ensures Total(closed', cur', Kept(db, rest)) == Total(closed, cur, Kept(db, [x] + rest))
  {
    hide Usable;
    hide Mergeable;
    hide Kept;
    hide GreedyFrom;
    hide Greedy;
    var kept := Kept(db, rest);
    KeptStep(db, x, rest);
    if Usable(db, x) {
      GreedyStep(cur, x, kept);
      if cur == [] {
        assert cur + [x] == [x];
      } else if !Mergeable(cur + [x]) {
        var tail := GreedyFrom([x], kept);
        assert closed + [cur] + tail == closed + ([cur] + tail);
      }
    } else {
      assert [] + kept == kept;
    }
  }

  lemma KeptStep(db: Influx, x: Item, rest: seq<Item>)
    ensures Kept(db, [x] + rest) == (if Usable(db, x) then [x] else []) + Kept(db, rest)
  {
    assert ([x] + rest)[1..] == rest;
  }

  lemma GreedyStep(cur: seq<Item>, x: Item, rest: seq<Item>)
    ensures GreedyFrom(cur, [x] + rest) ==
            if Mergeable(cur + [x]) then GreedyFrom(cur + [x], rest) else [cur] + GreedyFrom([x], rest)
    ensures Greedy([x] + rest) == GreedyFrom([x], rest)
  {
    assert ([x] + rest)[1..] == rest;
  }

  /** After the last metric, the open run is the last one. */
  lemma TotalAtEnd(closed: seq<seq<Item>>, cur: seq<Item>)
    ensures Total(closed, cur, []) == if cur == [] then closed else closed + [cur]
  {
  }

  /**
   What a tick hands to the database: nothing for a single point, and no point equal to the one before it at the
   end.
   */
  function Batch(pts: seq<Point>): seq<seq<Point>> {
    if |pts| <= 1 then []
    else if pts[|pts| - 2] == pts[|pts| - 1] then [pts[..|pts| - 1]]
    else [pts]
  }

  lemma PointsOfMore(db: Influx, closed: seq<seq<Item>>, cur: seq<Item>)
    requires AllNonempty(closed) && cur != []
    ensures AllNonempty(closed + [cur])
    ensures PointsOf(db, closed + [cur]) == PointsOf(db, closed) + [PointOf(db, cur)]
  {
    var runs := closed + [cur];
    forall i | 0 <= i < |runs| ensures runs[i] != [] {
    }
  }

  /** The end of a tick: the open point joins the others if there are any and it differs from the last of them. */
  method Close(db: Influx, last: Option<Point>, points: seq<Point>, ghost closed: seq<seq<Item>>, ghost cur: seq<Item>)
    returns (all: seq<Point>)
    requires Holds(db, closed, cur, last, points)
    ensures var runs := Total(closed, cur, []);
            && AllNonempty(runs)
            && Batch(PointsOf(db, runs)) == if all == [] then [] else [all]
  {
    hide Mergeable;
    hide GreedyFrom;
    hide Greedy;
    hide FieldsOk;
    hide FieldsRead;
    hide RunFields;
    all := points;
    TotalAtEnd(closed, cur);
    ghost var pts := PointsOf(db, Total(closed, cur, []));
    if |points| > 0 {
      PointsOfMore(db, closed, cur);
      assert pts == points + [last.value];
      assert pts[|pts| - 2] == points[|points| - 1] && pts[..|pts| - 1] == points;
      if points[|points| - 1] != last.value {
        all := points + [last.value];
      }
    } else {
      assert |pts| <= 1;
    }
  }

  class PointAccumulator {
    var ch: seq<Metric>
    var written: seq<seq<Point>>

    constructor ()
      ensures ch == [] && written == []
    {
      ch, written := [], [];
    }

    /** metricIDB.accumulate */
    method Accumulate(m: Metric)
      modifies this
      ensures ch == old(ch) + [m] && written == old(written)
    {
      ch := ch + [m];
    }

    /** The loop of a tick: drains n metrics and merges them. */
    method Drain(db: Influx, n: nat, now: nat -> int)
      returns (last: Option<Point>, points: seq<Point>, ghost closed: seq<seq<Item>>, ghost cur: seq<Item>)
      requires n <= |ch|
      modifies this`ch
      ensures ch == old(ch)[n..]
      ensures Holds(db, closed, cur, last, points)
      ensures Total(closed, cur, []) == Runs(db, ItemsOf(old(ch)[..n], now))
    {
      last, points, closed, cur := None, [], [], [];
      ghost var queue := ch;
      ghost var items := ItemsOf(queue[..n], now);
      ghost var rest := items;
      for i := 0 to n
        invariant ch == queue[i..] && rest == items[i..]
        invariant Holds(db, closed, cur, last, points)
        invariant Total(closed, cur, Kept(db, rest)) == Runs(db, items)
      {
        var x := Item(ch[0], now(i));
        ch := ch[1..];
        ghost var closed0, cur0 := closed, cur;
        last, points, closed, cur := Take(db, x, last, points, closed, cur);
        assert rest == [x] + rest[1..];
        rest := rest[1..];
        TotalAdvances(db, x, rest, closed0, cur0, closed, cur);
      }
    }

    /**
     One tick. n is the length of the channel when the tick looked at it; what arrives later stays queued.
     now(i) is the clock while the i-th metric is handled.
     */
    method Tick(db: Influx, n: nat, now: nat -> int)
      requires n <= |ch|
      modifies this
      ensures ch == old(ch)[n..]
      ensures written == old(written) + Batch(PointsOf(db, Runs(db, ItemsOf(old(ch)[..n], now))))
    {
      var last, points, closed, cur := Drain(db, n, now);
      points := Close(db, last, points, closed, cur);
      if |points| > 0 {
        written := written + [points];
      }
    }
  }

  // ---------- what a tick keeps, and when it loses everything ----------

  ghost predicate Increasing(ms: seq<Item>) {
    forall i, j :: 0 <= i < j < |ms| ==> ms[i].at < ms[j].at
  }

  lemma {:induction false} KeptIncreasing(db: Influx, items: seq<Item>)
    requires Increasing(items)
    ensures Increasing(Kept(db, items))
    ensures forall x :: x in Kept(db, items) ==> x in items
  {
    if items != [] {
      var rest := Kept(db, items[1..]);
      KeptIncreasing(db, items[1..]);
      forall y | y in rest ensures items[0].at < y.at {
        var j :| 0 <= j < |items[1..]| && items[1..][j] == y;
      }
    }
  }

  lemma {:induction false} LaterRunsEndLater(runs: seq<seq<Item>>, a: nat)
    requires AllNonempty(runs) && a + 1 < |runs|
    requires Increasing(Concat(runs))
    ensures runs[a][|runs[a]| - 1].at < runs[a + 1][|runs[a + 1]| - 1].at
  {
    var all, tail := Concat(runs), Concat(runs[1..]);
    if a == 0 {
      var x, y := runs[0], runs[1];
      assert tail == y + Concat(runs[1..][1..]);
      assert all[|x| - 1] == x[|x| - 1] && all[|x| + |y| - 1] == y[|y| - 1];
    } else {
      forall i, j | 0 <= i < j < |tail| ensures tail[i].at < tail[j].at {
        assert tail[i] == all[|runs[0]| + i] && tail[j] == all[|runs[0]| + j];
      }
      LaterRunsEndLater(runs[1..], a - 1);
    }
  }

  /** With a clock that moves, a tick that forms two points or more writes all of them, in one batch. */
  lemma TickWritesAll(db: Influx, items: seq<Item>)
    requires Increasing(items) && |Runs(db, items)| >= 2
    ensures Batch(PointsOf(db, Runs(db, items))) == [PointsOf(db, Runs(db, items))]
  {
    var runs := Runs(db, items);
    KeptIncreasing(db, items);
    GreedySplits(Kept(db, items));
    LaterRunsEndLater(runs, |runs| - 2);
  }

  /** A tick that has something to write writes nothing at all exactly when everything merges into one point. */
  lemma TickLosesIff(db: Influx, items: seq<Item>)
    ensures Kept(db, items) != [] && Batch(PointsOf(db, Runs(db, items))) == []
            <==> Kept(db, items) != [] && Mergeable(Kept(db, items))
  {
    var ms := Kept(db, items);
    GreedySplits(ms);
    if ms != [] {
      if Mergeable(ms) {
        assert Concat([ms]) == ms + Concat([]);
        GreedyOptimal(ms, [ms]);
      }
      if |Greedy(ms)| == 1 {
        assert Concat(Greedy(ms)) == Greedy(ms)[0] + Concat([]);
        assert Greedy(ms)[0] in Greedy(ms);
      }
      assert Greedy(ms) != [];
    }
  }

  /** A point has the clock reading of its last metric, and name and tags of its first. */
  lemma PointStamp(db: Influx, items: seq<Item>, r: nat)
    requires r < |Runs(db, items)|
    ensures var pt, run := PointsOf(db, Runs(db, items))[r], Runs(db, items)[r];
      && pt.time == run[|run| - 1].at
      && (forall k :: k in pt.tags <==> k in run[0].m.tags && run[0].m.tags[k] != "")
      && (forall k :: k in pt.tags ==> pt.tags[k] == run[0].m.tags[k])
  {
  }

  /** A tick that forms two points or more writes them all, but for the last one if it equals the one before it. */
  lemma TickDropsEqual(db: Influx, items: seq<Item>)
    requires |Runs(db, items)| >= 2
    ensures var pts := PointsOf(db, Runs(db, items));
      var n := |pts|;
      && n >= 2
      && (pts[n - 2] != pts[n - 1] ==> Batch(pts) == [pts])
      && (pts[n - 2] == pts[n - 1] ==> Batch(pts) == [pts[..n - 1]])
  {
  }

  /** The loss is real: one acceptable metric alone in its tick is never written. */
  lemma OneMetricIsLost()
    ensures var db := Influx("m", (_, _, _) => true, _ => true);
            var x := Item(Metric(map["sensor" := "s"], map["/a/b" := IntDatum(1)], 7), 0);
            Kept(db, [x]) == [x] && Batch(PointsOf(db, Runs(db, [x]))) == []
  {
    var db := Influx("m", (_, _, _) => true, _ => true);
    var x := Item(Metric(map["sensor" := "s"], map["/a/b" := IntDatum(1)], 7), 0);
    assert "/a/b" in x.m.fields && DEVICE_TS in Stamped(x.m);
    assert [x][1..] == [];
    assert Kept(db, [x]) == [x];
    TickLosesIff(db, [x]);
  }

  /** Where run r starts among the metrics. */
  function Offset(runs: seq<seq<Item>>, r: nat): nat
    requires r <= |runs|
  {
    if r == 0 then 0 else Offset(runs, r - 1) + |runs[r - 1]|
  }

  ghost predicate InRun(runs: seq<seq<Item>>, r: nat, i: nat) {
    r < |runs| && Offset(runs, r) <= i < Offset(runs, r + 1)
  }

  lemma {:induction false} OffsetTail(runs: seq<seq<Item>>, r: nat)
    requires 1 <= r <= |runs|
    ensures Offset(runs, r) == |runs[0]| + Offset(runs[1..], r - 1)
  {
    if r > 1 {
      OffsetTail(runs, r - 1);
      assert runs[1..][r - 2] == runs[r - 1];
    }
  }

  lemma {:induction false} OffsetMonotone(runs: seq<seq<Item>>, a: nat, b: nat)
    requires a <= b <= |runs|
    ensures Offset(runs, a) <= Offset(runs, b)
  {
    if a < b {
      OffsetMonotone(runs, a, b - 1);
    }
  }

  /** Every metric lies in exactly one run of a split, at its own place. */
  lemma {:induction false} Located(runs: seq<seq<Item>>, i: nat) returns (r: nat)
    requires i < |Concat(runs)|
    ensures InRun(runs, r, i) && runs[r][i - Offset(runs, r)] == Concat(runs)[i]
    ensures forall q: nat :: InRun(runs, q, i) ==> q == r
  {
    if i < |runs[0]| {
      r := 0;
      assert Offset(runs, 1) == Offset(runs, 0) + |runs[0]|;
    } else {
      var q := Located(runs[1..], i - |runs[0]|);
      r := q + 1;
      OffsetTail(runs, r);
      OffsetTail(runs, r + 1);
    }
    forall q: nat | InRun(runs, q, i) ensures q == r {
      if q < r {
        OffsetMonotone(runs, q + 1, r);
      } else if r < q {
        OffsetMonotone(runs, r + 1, q);
      }
    }
  }
}

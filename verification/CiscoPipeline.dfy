/** From a leaf of a Cisco message to the point it is written in. */
module CiscoPipeline {
  import opened Text
  import opened Points
  import opened CiscoWalk
  import opened CiscoLeaves
  import opened Accumulator

  /** The field name of the leaf at a position: the names on the way, from the last unnamed container on. */
  function LeafPath(c: WalkConfig, f: seq<Field>, p: seq<string>, pos: Position): string
    requires IsLeafAt(f, pos)
    decreases |pos|
  {
    var field := f[pos[0]];
    if |pos| == 1 then ParentPath(c.removeNS, p) + field.name
    else LeafPath(c, field.kids.fields, ChildPath(p, field.name), pos[1..])
  }

  function LeafDatum(c: WalkConfig, f: seq<Field>, pos: Position): Datum
    requires IsLeafAt(f, pos)
    decreases |pos|
  {
    if |pos| == 1 then DatumOf(f[pos[0]].value, c.enableUint)
    else LeafDatum(c, f[pos[0]].kids.fields, pos[1..])
  }

  /** The names of the containers above a leaf, the outermost first. */
  function Names(f: seq<Field>, pos: Position): seq<string>
    requires IsLeafAt(f, pos)
    decreases |pos|
  {
    if |pos| == 1 then [] else [f[pos[0]].name] + Names(f[pos[0]].kids.fields, pos[1..])
  }

  function LeafName(f: seq<Field>, pos: Position): string
    requires IsLeafAt(f, pos)
    decreases |pos|
  {
    if |pos| == 1 then f[pos[0]].name else LeafName(f[pos[0]].kids.fields, pos[1..])
  }

  /** The field of a leaf below named containers: all names, stripped, each between slashes, and the leaf's own. */
  lemma {:induction false} LeafPathNamed(c: WalkConfig, f: seq<Field>, p: seq<string>, pos: Position)
    requires IsLeafAt(f, pos) && forall i :: 0 <= i < |Names(f, pos)| ==> Names(f, pos)[i] != ""
    ensures LeafPath(c, f, p, pos) == Trail(Strip(c.removeNS, p + Names(f, pos))) + LeafName(f, pos)
    decreases |pos|
  {
    hide Names;
    hide LeafPath;
    hide LeafName;
    hide Trail;
    hide Strip;
    hide IsLeafAt;
    if Names(f, pos) == [] {
      LeafItself(c, f, p, pos);
      assert p + [] == p;
    } else {
      Below(c, f, p, pos);
      var name, kids := f[pos[0]].name, f[pos[0]].kids.fields;
      var all, rest := Names(f, pos), Names(kids, pos[1..]);
      assert all[0] == name && forall i :: 0 <= i < |rest| ==> rest[i] == all[i + 1];
      LeafPathNamed(c, kids, p + [name], pos[1..]);
      Associative(p, [name], rest);
    }
  }

  /** Below an unnamed container only the names after the last one of these count. */
  lemma {:induction false} LeafPathUnnamed(c: WalkConfig, f: seq<Field>, p: seq<string>, pos: Position, j: nat)
    requires IsLeafAt(f, pos) && j < |Names(f, pos)| && Names(f, pos)[j] == ""
    requires forall i :: j < i < |Names(f, pos)| ==> Names(f, pos)[i] != ""
    ensures LeafPath(c, f, p, pos) == Trail(Strip(c.removeNS, Names(f, pos)[j + 1..])) + LeafName(f, pos)
    decreases |pos|
  {
    hide Names;
    hide LeafPath;
    hide LeafName;
    hide Trail;
    hide Strip;
    hide IsLeafAt;
    Below(c, f, p, pos);
    var name, kids := f[pos[0]].name, f[pos[0]].kids.fields;
    var all, rest := Names(f, pos), Names(kids, pos[1..]);
    assert forall i :: 0 <= i < |rest| ==> rest[i] == all[i + 1];
    if j == 0 {
      LeafPathNamed(c, kids, [], pos[1..]);
      assert [] + rest == rest == all[1..];
    } else {
      LeafPathUnnamed(c, kids, ChildPath(p, name), pos[1..], j - 1);
      assert rest[j..] == all[j + 1..];
    }
  }

  lemma {:induction false} LeafItself(c: WalkConfig, f: seq<Field>, p: seq<string>, pos: Position)
    requires IsLeafAt(f, pos) && Names(f, pos) == []
    ensures LeafPath(c, f, p, pos) == Trail(Strip(c.removeNS, p)) + LeafName(f, pos)
  {
    ParentPathText(c.removeNS, p);
  }

  /** One level down. */
  lemma {:induction false} Below(c: WalkConfig, f: seq<Field>, p: seq<string>, pos: Position)
    requires IsLeafAt(f, pos) && Names(f, pos) != []
    ensures pos != [] && pos[0] < |f|
    ensures f[pos[0]].kids.Kids? && IsLeafAt(f[pos[0]].kids.fields, pos[1..]) && |pos[1..]| < |pos|
    ensures var name, kids := f[pos[0]].name, f[pos[0]].kids.fields;
      && Names(f, pos) == [name] + Names(kids, pos[1..])
      && LeafName(f, pos) == LeafName(kids, pos[1..])
      && LeafPath(c, f, p, pos) == LeafPath(c, kids, ChildPath(p, name), pos[1..])
  {
  }

  /** A leaf right under one qualified name, with namespaces removed. */
  lemma QualifiedLeaf(c: WalkConfig, f: seq<Field>, ns: string, name: string, i: nat)
    requires c.removeNS && ':' !in ns && ':' !in name && i < |f| && f[i].kids.NoKids?
    ensures LeafPath(c, f, [ns + ":" + name], [i]) == "/" + name + "/" + f[i].name
  {
    QualifiedPathText(ns, name);
  }

  /** A leaf's metric has one field, which the schema does not influence. */
  lemma {:induction false} LeafField(c: WalkConfig, n: Option<SchemaNode>, f: seq<Field>, p: seq<string>,
                                     tags: seq<KeyInfo>, pos: Position, ts: nat)
    requires IsLeafAt(f, pos)
    ensures MetricAt(c, n, f, p, tags, pos, ts).fields == map[LeafPath(c, f, p, pos) := LeafDatum(c, f, pos)]
    ensures LeafPath(c, f, p, pos) != "" && LeafPath(c, f, p, pos)[0] == '/'
    decreases |pos|
  {
    if |pos| > 1 {
      var i := pos[0];
      LeafField(c, NodeAt(n, f, i), f[i].kids.fields, ChildPath(p, f[i].name), TagsAt(c, n, f, i, p, tags), pos[1..],
        ts);
    }
  }

  /**
   A leaf's metric is accepted exactly when its value is finite and can be read back, and the series keys are short
   enough.
   */
  lemma LeafUsable(db: Influx, m: Metric, path: string, datum: Datum, at: int)
    requires m.fields == map[path := datum] && path != "" && path[0] == '/'
    ensures var name, tags := MeasurementName(db, m.tags), DropEmpty(m.tags);
            Usable(db, Item(m, at)) <==>
            && !datum.NonFinite? && ReadsBack(db.parses, datum)
            && db.fits("tmpmeasure", tags, path) && db.fits(name, tags, path) && db.fits(name, tags, DEVICE_TS)
  {
    var name := MeasurementName(db, m.tags);
    var stamped := Stamped(m);
    assert path in m.fields && path in stamped && DEVICE_TS in stamped;
    assert FieldOk(db.fits, name, m.tags, DEVICE_TS, stamped[DEVICE_TS]) == db.fits(name, DropEmpty(m.tags), DEVICE_TS);
    assert FieldOk(db.fits, name, m.tags, path, stamped[path]) ==
      (!datum.NonFinite? && db.fits(name, DropEmpty(m.tags), path));
    assert FieldOk(db.fits, "tmpmeasure", m.tags, path, m.fields[path]) ==
      (!datum.NonFinite? && db.fits("tmpmeasure", DropEmpty(m.tags), path));
    assert forall k :: k in stamped ==> k == path || k == DEVICE_TS;
  }

  /** A point is named after the configured measurement, or else after the sensor. */
  lemma PointName(db: Influx, tags: Tags)
    ensures db.measurement != "" ==> MeasurementName(db, tags) == db.measurement
    ensures db.measurement == "" && "sensor" in tags ==> MeasurementName(db, tags) == tags["sensor"]
    ensures db.measurement == "" && "sensor" !in tags ==> MeasurementName(db, tags) == ""
  {
  }

  /** The fixed tags of a top-level message: whatever keys its leaves have, these name device, sensor and vendor. */
  lemma {:induction false} TopLevelName(db: Influx, c: WalkConfig, host: string, node: SchemaNode, f: seq<Field>,
                                        pos: Position, ts: nat)
    requires IsLeafAt(f, pos)
    ensures var m := MetricAt(c, Some(node), f, [node.name], TopLevelTags(host, node.name), pos, ts);
      && "device" in m.tags && m.tags["device"] == host
      && "sensor" in m.tags && m.tags["sensor"] == node.name
      && "vendor" in m.tags && m.tags["vendor"] == "cisco"
      && MeasurementName(db, m.tags) == if db.measurement != "" then db.measurement else node.name
  {
    var tags := TopLevelTags(host, node.name);
    TopLevelMap(host, node.name);
    assert forall i :: 0 <= i < |tags| ==> tags[i].key != "" && tags[i].key[0] != '/';
    FixedTag(c, Some(node), f, [node.name], tags, pos, ts, "device");
    FixedTag(c, Some(node), f, [node.name], tags, pos, ts, "sensor");
    FixedTag(c, Some(node), f, [node.name], tags, pos, ts, "vendor");
  }

  lemma TopLevelMap(host: string, sensor: string)
    ensures var m := TagMap(TopLevelTags(host, sensor));
      && "device" in m && m["device"] == host && "sensor" in m && m["sensor"] == sensor
      && "vendor" in m && m["vendor"] == "cisco"
  {
    var tags := TopLevelTags(host, sensor);
    TagMapLast(tags, "device");
    TagMapLast(tags, "sensor");
    TagMapLast(tags, "vendor");
    assert tags[0].key == "device" && tags[1].key == "sensor" && tags[2].key == "vendor";
  }

  /** The tags that a walk adds begin with a slash, so they leave all others as they were. */
  lemma {:induction false} FixedTag(c: WalkConfig, n: Option<SchemaNode>, f: seq<Field>, p: seq<string>,
                                    tags: seq<KeyInfo>, pos: Position, ts: nat, k: string)
    requires IsLeafAt(f, pos) && k in TagMap(tags) && k != "" && k[0] != '/'
    ensures var m := MetricAt(c, n, f, p, tags, pos, ts); k in m.tags && m.tags[k] == TagMap(tags)[k]
    decreases |pos|
  {
    var i := pos[0];
    AddedTag(c, n, f, i, p, tags, k);
    if |pos| > 1 {
      FixedTag(c, NodeAt(n, f, i), f[i].kids.fields, ChildPath(p, f[i].name), TagsAt(c, n, f, i, p, tags), pos[1..],
               ts, k);
    }
  }

  lemma {:induction false} AddedTag(c: WalkConfig, n: Option<SchemaNode>, f: seq<Field>, i: int, p: seq<string>,
                                    tags: seq<KeyInfo>, k: string)
    requires i < |f| && k in TagMap(tags) && k != "" && k[0] != '/'
    ensures k in TagMap(TagsAt(c, n, f, i, p, tags)) && TagMap(TagsAt(c, n, f, i, p, tags))[k] == TagMap(tags)[k]
    decreases i + 1
  {
    if i >= 0 {
      if IsKey(KidsOf(n), f[i].name) {
        var key := KeyOf(c, p, f[i]);
        assert key.key[0] == '/';
        assert (tags + [key])[..|tags|] == tags;
      } else {
        AddedTag(c, n, f, i - 1, p, tags, k);
      }
    }
  }

  /** A leaf of raw bytes that begin like no number or text and spell no truth value is never accepted. */
  lemma BareBytesAreDropped(db: Influx, m: Metric, path: string, bytes: seq<int>, at: int)
    requires m.fields == map[path := BytesDatum(bytes)] && path != "" && path[0] == '/'
    requires IsBare(bytes) && !IsTruthText(bytes)
    ensures !Usable(db, Item(m, at))
    ensures var abc := BytesOf("abc"); IsBare(abc) && !IsTruthText(abc)
  {
    LeafUsable(db, m, path, BytesDatum(bytes), at);
  }

  /** How many of the metrics before index q are kept: the place of metric q among the kept ones. */
  lemma {:induction false} KeptAt(db: Influx, items: seq<Item>, q: nat)
    requires q < |items| && Usable(db, items[q])
    ensures var k := |Kept(db, items[..q])|; k < |Kept(db, items)| && Kept(db, items)[k] == items[q]
  {
    if q > 0 {
      KeptAt(db, items[1..], q - 1);
      assert items[..q][1..] == items[1..][..q - 1];
      assert items[..q][0] == items[0];
    } else {
      assert items[..0] == [];
    }
  }

  /**
   The rank of a leaf in pre-order is its place among the metrics that one walk appends to the queue.
   */
  lemma LeafRank(c: WalkConfig, n: Option<SchemaNode>, f: seq<Field>, p: seq<string>, tags: seq<KeyInfo>, ts: nat,
                 pos: Position) returns (i: nat)
    requires IsLeafAt(f, pos)
    ensures i < |WalkMetrics(c, n, f, p, tags, ts)| == |Positions(f, 0)|
    ensures Positions(f, 0)[i] == pos
    ensures WalkMetrics(c, n, f, p, tags, ts)[i] == MetricAt(c, n, f, p, tags, pos, ts)
  {
    WalkByPosition(c, n, f, 0, p, tags, ts);
    i := PositionsComplete(f, 0, pos);
  }

  /** The place of the q-th drained metric: its run, and with it the index of its point in the written batch. */
  ghost predicate SitsIn(db: Influx, items: seq<Item>, q: nat, r: nat)
    requires q < |items|
  {
    InRun(Runs(db, items), r, |Kept(db, items[..q])|)
  }

  /**
   A usable metric of a tick that forms two points or more sits in exactly one of the written points:
   one with its tags, that holds each of its fields with its value.
   */
  lemma MetricIsWritten(db: Influx, items: seq<Item>, q: nat) returns (r: nat)
    requires Increasing(items) && |Runs(db, items)| >= 2
    requires q < |items| && Usable(db, items[q])
    ensures Batch(PointsOf(db, Runs(db, items))) == [PointsOf(db, Runs(db, items))]
    ensures SitsIn(db, items, q, r) && forall r': nat :: SitsIn(db, items, q, r') ==> r' == r
    ensures var pt := PointsOf(db, Runs(db, items))[r];
            && pt.tags == DropEmpty(items[q].m.tags)
            && pt.name == MeasurementName(db, items[q].m.tags)
            && forall k :: k in items[q].m.fields && k != DEVICE_TS ==>
                 k in pt.fields && pt.fields[k] == items[q].m.fields[k]
  {
    TickWritesAll(db, items);
    KeptAt(db, items, q);
    var runs, k := Runs(db, items), |Kept(db, items[..q])|;
    GreedySplits(Kept(db, items));
    r := Located(runs, k);
    var run, o := runs[r], k - Offset(runs, r);
    assert run in runs;
    SameName(db, run[0].m.tags);
    forall key | key in items[q].m.fields && key != DEVICE_TS
      ensures key in RunFields(run) && RunFields(run)[key] == items[q].m.fields[key]
    {
      RunFieldValues(run, o, key);
    }
  }

  /** One field value of the q-th drained metric is in point r of the one batch written, and in no other place. */
  ghost predicate WrittenOnce(db: Influx, items: seq<Item>, q: nat, r: nat, tags: Tags, path: string, datum: Datum)
    requires q < |items|
  {
    && Batch(PointsOf(db, Runs(db, items))) == [PointsOf(db, Runs(db, items))]
    && SitsIn(db, items, q, r) && (forall r': nat :: SitsIn(db, items, q, r') ==> r' == r)
    && var pt := PointsOf(db, Runs(db, items))[r];
       pt.tags == DropEmpty(tags) && path in pt.fields && pt.fields[path] == datum
  }

  lemma FieldIsWritten(db: Influx, items: seq<Item>, q: nat, path: string) returns (r: nat)
    requires Increasing(items) && |Runs(db, items)| >= 2
    requires q < |items| && Usable(db, items[q]) && path in items[q].m.fields && path != DEVICE_TS
    ensures WrittenOnce(db, items, q, r, items[q].m.tags, path, items[q].m.fields[path])
  {
    r := MetricIsWritten(db, items, q);
  }

  lemma Between(a: seq<Metric>, b: seq<Metric>, c: seq<Metric>, i: nat)
    requires i < |b|
    ensures |a| + i < |a + b + c| && (a + b + c)[|a| + i] == b[i]
  {
  }

  /**
   End to end: whatever was queued before and after one walk, once a tick drains the metric of a leaf,
   the leaf's path and value sit in exactly one written point, which has the leaf's tags.
   */
  lemma LeafIsWritten(db: Influx, c: WalkConfig, n: Option<SchemaNode>, f: seq<Field>, p: seq<string>,
                      tags: seq<KeyInfo>, ts: nat,
                      pos: Position, earlier: seq<Metric>, later: seq<Metric>, queue: seq<Metric>, drained: nat,
                      now: nat -> int)
    returns (q: nat, r: nat)
    requires IsLeafAt(f, pos)
    requires queue == earlier + WalkMetrics(c, n, f, p, tags, ts) + later && drained <= |queue|
    ensures |earlier| <= q < |earlier| + |Positions(f, 0)| <= |queue| && Positions(f, 0)[q - |earlier|] == pos
    ensures queue[q] == MetricAt(c, n, f, p, tags, pos, ts)
    ensures var items := ItemsOf(queue[..drained], now);
            q < drained && Usable(db, items[q]) && Increasing(items) && |Runs(db, items)| >= 2 ==>
              WrittenOnce(db, items, q, r, MetricAt(c, n, f, p, tags, pos, ts).tags, LeafPath(c, f, p, pos),
                LeafDatum(c, f, pos))
  {
    hide Runs;
    hide Usable;
    hide PointsOf;
    hide MetricAt;
    hide LeafPath;
    hide LeafDatum;
    hide WalkMetrics;
    hide Positions;
    hide WrittenOnce;
    var i := LeafRank(c, n, f, p, tags, ts, pos);
    q, r := |earlier| + i, 0;
    LeafField(c, n, f, p, tags, pos, ts);
    Between(earlier, WalkMetrics(c, n, f, p, tags, ts), later, i);
    var items := ItemsOf(queue[..drained], now);
    if q < drained && Usable(db, items[q]) && Increasing(items) && |Runs(db, items)| >= 2 {
      r := FieldIsWritten(db, items, q, LeafPath(c, f, p, pos));
    }
  }
}

/** From a key-value pair of a Junos packet to the batch that its value is written in. */
module JunosPipeline {
  import opened Text
  import opened Points
  import opened Batching
  import opened JunosRows

  lemma {:induction false} Multiples(a: nat, b: nat, limit: nat)
    requires a < b
    ensures a * limit + limit <= b * limit
    decreases b
  {
    assert b * limit == (b - 1) * limit + limit;
    if a < b - 1 {
      Multiples(a, b - 1, limit);
    }
  }

  lemma {:induction false} FullLength(batches: seq<seq<Point>>, limit: nat)
    requires forall i :: 0 <= i < |batches| ==> |batches[i]| == limit
    ensures |Batching.Concat(batches)| == |batches| * limit
  {
    if batches != [] {
      var n := |batches| - 1;
      FullLength(batches[..n], limit);
      assert n * limit + limit == (n + 1) * limit;
    }
  }

  /** All batches but the last are a batching of their own, of full ones. */
  lemma LastBatch(batches: seq<seq<Point>>, pts: seq<Point>, limit: nat)
    requires IsBatching(batches, pts, limit) && pts != []
    ensures batches != []
    ensures var last := |batches| - 1;
      var done := Batching.Concat(batches[..last]);
      && pts == done + batches[last] && |batches[last]| <= limit && |done| == last * limit
      && IsBatching(batches[..last], done, limit)
  {
    FullLength(batches[..|batches| - 1], limit);
  }

  lemma {:induction false} PlaceInBatch(batches: seq<seq<Point>>, pts: seq<Point>, limit: nat, n: nat, o: nat)
    requires o < limit && IsBatching(batches, pts, limit) && n * limit + o < |pts|
    ensures n < |batches| && o < |batches[n]| && batches[n][o] == pts[n * limit + o]
    decreases |batches|
  {
    hide IsBatching;
    hide Batching.Concat;
    LastBatch(batches, pts, limit);
    var last := |batches| - 1;
    if n < last {
      Multiples(n, last, limit);
      PlaceInBatch(batches[..last], Batching.Concat(batches[..last]), limit, n, o);
    } else if n > last {
      Multiples(last, n, limit);
    }
  }

  /** The q-th point of a measurement is in batch q / limit, at place q % limit. */
  lemma BatchAt(batches: seq<seq<Point>>, pts: seq<Point>, limit: nat, q: nat)
    requires limit > 0 && IsBatching(batches, pts, limit) && q < |pts|
    ensures q / limit < |batches| && q % limit < |batches[q / limit]| && batches[q / limit][q % limit] == pts[q]
  {
    hide IsBatching;
    assert (q / limit) * limit + q % limit == q;
    PlaceInBatch(batches, pts, limit, q / limit, q % limit);
  }

  /** The place of a packet's point among the points of its measurement. */
  lemma {:induction false} PacketAt(packets: seq<Packet>, name: string, j: nat, k: nat)
    requires j < |packets| && packets[j].measurement == name && k < |packets[j].points|
    ensures var q := |PointsFor(packets[..j], name)| + k;
      q < |PointsFor(packets, name)| && PointsFor(packets, name)[q] == packets[j].points[k]
    decreases |packets|
  {
    var last := |packets| - 1;
    if j < last {
      PacketAt(packets[..last], name, j, k);
      assert packets[..last][..j] == packets[..j];
    }
  }

  function PointOfRow(env: Env, row: Row): Option<Point> {
    NewPoint(env.fits, MeasurementName(env), row.tags, row.fields, env.rtime)
  }

  /** The place of a row's point among the points of its packet. */
  lemma {:induction false} RowAt(env: Env, rows: seq<Row>, r: nat)
    requires r < |rows| && PointOfRow(env, rows[r]).Some?
    ensures var k := |PointsOfRows(env, rows[..r])|;
      k < |PointsOfRows(env, rows)| && PointsOfRows(env, rows)[k] == PointOfRow(env, rows[r]).value
    decreases |rows|
  {
    var last := |rows| - 1;
    if r < last {
      RowAt(env, rows[..last], r);
      assert rows[..last][..r] == rows[..r];
    }
  }

  /** The place of the point of row r of packet j among the drained points of its measurement. */
  function Rank(env: Env, rows: seq<Row>, packets: seq<Packet>, j: nat, r: nat): nat
    requires j <= |packets| && r <= |rows|
  {
    |PointsFor(packets[..j], MeasurementName(env))| + |PointsOfRows(env, rows[..r])|
  }

  /** The q-th point of a measurement is in one batch written for it, at one place. */
  ghost predicate WrittenAt(log: seq<Write>, name: string, batchSize: nat, q: nat, pt: Point) {
    var batches, limit := BatchesFor(log, name), Limit(batchSize);
    q / limit < |batches| && q % limit < |batches[q / limit]| && batches[q / limit][q % limit] == pt
  }

  lemma RowIsWritten(env: Env, rows: seq<Row>, packets: seq<Packet>, j: nat, log: seq<Write>, batchSize: nat, r: nat)
    requires j < |packets| && PacketOf(env, rows) == Some(packets[j]) && Batched(log, packets, batchSize)
    requires r < |rows| && PointOfRow(env, rows[r]).Some?
    ensures WrittenAt(log, MeasurementName(env), batchSize, Rank(env, rows, packets, j, r),
      PointOfRow(env, rows[r]).value)
  {
    var name := MeasurementName(env);
    RowAt(env, rows, r);
    PacketAt(packets, name, j, |PointsOfRows(env, rows[..r])|);
    hide PointsOfRows;
    hide PointsFor;
    hide BatchesFor;
    hide IsBatching;
    hide PointOfRow;
    assert IsBatching(BatchesFor(log, name), PointsFor(packets, name), Limit(batchSize));
    BatchAt(BatchesFor(log, name), PointsFor(packets, name), Limit(batchSize), Rank(env, rows, packets, j, r));
  }

  /** Different accepted rows of the drained packets have different places. */
  lemma {:induction false} RanksDiffer(env: Env, rows: seq<Row>, packets: seq<Packet>, j: nat, r: nat,
                                       env': Env, rows': seq<Row>, j': nat, r': nat)
    requires j < |packets| && PacketOf(env, rows) == Some(packets[j]) && r < |rows| && PointOfRow(env, rows[r]).Some?
    requires j' < |packets| && PacketOf(env', rows') == Some(packets[j']) && r' < |rows'| &&
      PointOfRow(env', rows'[r']).Some?
    requires MeasurementName(env) == MeasurementName(env') &&
      (j < j' || (j == j' && rows == rows' && env == env' && r < r'))
    ensures Rank(env, rows, packets, j, r) < Rank(env', rows', packets, j', r')
  {
    if j < j' {
      RowAt(env, rows, r);
      PacketAt(packets[..j'], MeasurementName(env), j, |PointsOfRows(env, rows[..r])|);
      assert packets[..j'][..j] == packets[..j];
    } else {
      RowAt(env, rows[..r'], r);
      assert rows[..r'][..r] == rows[..r];
    }
  }

  /**
   End to end: once a tick drains a packet, the last value of each path of each accepted row of it is at exactly one
   place of one batch written for its measurement, in a point with the tags of the row's pairs.
   */
  lemma ValueIsWritten(env: Env, kvs: seq<KeyValue>, rows: seq<Row>, runs: seq<seq<Entry>>, packets: seq<Packet>,
                       j: nat,
                       log: seq<Write>, batchSize: nat, r: nat, k: string, v: Datum)
    returns (pt: Point)
    requires (forall i :: 0 <= i < |kvs| ==> WellFormed(kvs[i])) && rows == RowsUpTo(env, kvs, |kvs|)
    requires RowsDescribe(rows, runs, env.ts)
    requires j < |packets| && PacketOf(env, rows) == Some(packets[j]) && Batched(log, packets, batchSize)
    requires r < |rows| && PointOfRow(env, rows[r]).Some? && k != DEVICE_TS && LastValue(runs[r], k) == Some(v)
    ensures WrittenAt(log, MeasurementName(env), batchSize, Rank(env, rows, packets, j, r), pt)
    ensures k in pt.fields && pt.fields[k] == v && pt.name == MeasurementName(env)
    ensures forall i :: 0 <= i < |runs[r]| ==> pt.tags == DropEmpty(runs[r][i].tags)
  {
    hide RowsUpTo;
    hide LastValue;
    hide PointsOfRows;
    hide WrittenAt;
    hide Rank;
    RowIsWritten(env, rows, packets, j, log, batchSize, r);
    pt := PointOfRow(env, rows[r]).value;
    assert Describes(rows[r], runs[r], env.ts);
  }

  // ---------- from a pair ----------

  /** The place of a kept pair among the entries. */
  lemma {:induction false} EntryIndex(env: Env, kvs: seq<KeyValue>, i: nat, n: nat)
    requires i < n <= |kvs| && (forall l :: 0 <= l < |kvs| ==> WellFormed(kvs[l])) && EntryAt(env, kvs, i).Some?
    ensures var e := |Entries(env, kvs, i)|;
      e < |Entries(env, kvs, n)| && Entries(env, kvs, n)[e] == EntryAt(env, kvs, i).value
    decreases n
  {
    hide EntryAt;
    if i < n - 1 {
      EntryIndex(env, kvs, i, n - 1);
    }
  }

  /** Every entry is in one of the runs. */
  lemma {:induction false} RunOf(runs: seq<seq<Entry>>, e: nat) returns (r: nat, o: nat)
    requires e < |ConcatRuns(runs)|
    ensures r < |runs| && o < |runs[r]| && runs[r][o] == ConcatRuns(runs)[e]
  {
    var n := |runs| - 1;
    var before := |ConcatRuns(runs[..n])|;
    if e < before {
      r, o := RunOf(runs[..n], e);
    } else {
      r, o := n, e - before;
    }
  }

  lemma {:induction false} LastInRun(run: seq<Entry>, o: nat)
    requires o < |run| && forall l :: o < l < |run| ==> run[l].path != run[o].path
    ensures LastValue(run, run[o].path) == Some(run[o].value)
  {
    var n := |run| - 1;
    if o < n {
      LastInRun(run[..n], o);
    }
  }

  /**
   Every kept pair has its row: one with the pair's tags, and with its value under its path unless a later pair of the
   same row has the same path.
   */
  lemma {:induction false} PairHasRow(env: Env, kvs: seq<KeyValue>, i: nat, t: Option<string>, runs: seq<seq<Entry>>)
    returns (r: nat, o: nat)
    requires env.connected && (forall l :: 0 <= l < |kvs| ==> WellFormed(kvs[l]))
    requires i < |kvs| && LastPrefix(kvs, i, t) && EntryAt(env, kvs, i).Some?
    requires ConcatRuns(runs) == Entries(env, kvs, |kvs|) && RowsDescribe(RowsUpTo(env, kvs, |kvs|), runs, env.ts)
    ensures r < |runs| == |RowsUpTo(env, kvs, |kvs|)| && o < |runs[r]| && runs[r][o] == EntryAt(env, kvs, i).value
    ensures RowTags(env, env.parse(ParsedText(kvs[i].key, t)).1, RowsUpTo(env, kvs, |kvs|)[r].tags)
    ensures (forall l :: o < l < |runs[r]| ==> runs[r][l].path != runs[r][o].path) ==>
      LastValue(runs[r], runs[r][o].path) == Some(runs[r][o].value)
  {
    EntryIndex(env, kvs, i, |kvs|);
    r, o := RunOf(runs, |Entries(env, kvs, i)|);
    KeptPair(env, kvs, i, t);
    hide RowsUpTo;
    hide EntryAt;
    hide LastValue;
    hide RowTags;
    hide Entries;
    hide ConcatRuns;
    assert Describes(RowsUpTo(env, kvs, |kvs|)[r], runs[r], env.ts);
    if forall l :: o < l < |runs[r]| ==> runs[r][l].path != runs[r][o].path {
      LastInRun(runs[r], o);
    }
  }

  /**
   From a pair to a batch: the value of a kept pair that no later pair of its row replaces is written under its path,
   in a point whose tags are those of the pair's text and of the packet.
   */
  lemma {:induction false} PairIsWritten(env: Env, kvs: seq<KeyValue>, i: nat, t: Option<string>, runs: seq<seq<Entry>>,
                                         packets: seq<Packet>, j: nat, log: seq<Write>, batchSize: nat)
    returns (r: nat, o: nat, pt: Point)
    requires env.connected && (forall l :: 0 <= l < |kvs| ==> WellFormed(kvs[l]))
    requires i < |kvs| && LastPrefix(kvs, i, t) && EntryAt(env, kvs, i).Some?
    requires ConcatRuns(runs) == Entries(env, kvs, |kvs|) && RowsDescribe(RowsUpTo(env, kvs, |kvs|), runs, env.ts)
    requires j < |packets| && PacketOf(env, RowsUpTo(env, kvs, |kvs|)) == Some(packets[j])
    requires Batched(log, packets, batchSize)
    ensures r < |runs| == |RowsUpTo(env, kvs, |kvs|)| && o < |runs[r]| && runs[r][o] == EntryAt(env, kvs, i).value
    ensures var rows, key := RowsUpTo(env, kvs, |kvs|), kvs[i].key;
      var parsed := env.parse(ParsedText(key, t));
      var path := if key[0] == '/' || '[' in key then parsed.0 else env.alias(parsed.0 + key);
      PointOfRow(env, rows[r]).Some? && path != DEVICE_TS
      && (forall l :: o < l < |runs[r]| ==> runs[r][l].path != path) ==>
        && WrittenAt(log, MeasurementName(env), batchSize, Rank(env, rows, packets, j, r), pt)
        && path in pt.fields && WrittenAs(kvs[i].value, pt.fields[path])
        && exists tags :: RowTags(env, parsed.1, tags) && pt.tags == DropEmpty(tags)
  {
    r, o := PairHasRow(env, kvs, i, t, runs);
    KeptPair(env, kvs, i, t);
    KeptValue(env, kvs, i);
    hide WrittenAs;
    hide RowsUpTo;
    hide EntryAt;
    hide LastValue;
    hide RowTags;
    hide Entries;
    hide ConcatRuns;
    hide RowsDescribe;
    hide PacketOf;
    hide Batched;
    hide Rank;
    hide WrittenAt;
    var rows, path := RowsUpTo(env, kvs, |kvs|), runs[r][o].path;
    pt := Point("", map[], map[], 0);
    if PointOfRow(env, rows[r]).Some? && path != DEVICE_TS
       && (forall l :: o < l < |runs[r]| ==> runs[r][l].path != path) {
      pt := ValueIsWritten(env, kvs, rows, runs, packets, j, log, batchSize, r, path, runs[r][o].value);
      RowPointTags(env, rows, runs, r, o);
    }
  }

  lemma RowPointTags(env: Env, rows: seq<Row>, runs: seq<seq<Entry>>, r: nat, o: nat)
    requires RowsDescribe(rows, runs, env.ts) && r < |rows| && o < |runs[r]|
    ensures runs[r][o].tags == rows[r].tags
  {
    hide LastValue;
    assert Describes(rows[r], runs[r], env.ts);
  }
}

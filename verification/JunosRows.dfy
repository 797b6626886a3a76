/** The rows of one Junos packet (addIDB in influx.go). */
module JunosRows {
  import opened Text
  import opened Points
  import Batching

  datatype KvValue = StrValue(s: string) | LeafList(elems: seq<Option<string>>) | OtherValue(d: Datum) | Missing

  datatype KeyValue = KeyValue(key: string, value: KvValue)

  /** The packet's constants, the path parser and the alias table; parse and alias may be any functions. */
  datatype Env = Env(parse: string -> (string, Tags), alias: string -> string, host: string, sensor: string,
                     component: string, subComponent: string, ts: nat, connected: bool,
                     measurement: string, fits: (string, Tags, string) -> bool, rtime: int)

  datatype Entry = Entry(tags: Tags, path: string, value: Datum)

  datatype Row = Row(tags: Tags, fields: Fields)

  function StrOf(v: KvValue): string {
    if v.StrValue? then v.s else ""
  }

  predicate HasText(elems: seq<Option<string>>) {
    exists i :: 0 <= i < |elems| && elems[i].Some?
  }

  /** Each string element followed by a comma. */
  function WithCommas(elems: seq<Option<string>>): (r: string)
    ensures HasText(elems) ==> r != ""
  {
    if elems == [] then ""
    else
      var init, last := elems[..|elems| - 1], elems[|elems| - 1];
      assert HasText(elems) ==> last.Some? || HasText(init) by {
        if HasText(elems) && last.None? {
          var i :| 0 <= i < |elems| && elems[i].Some?;
          assert init[i].Some?;
        }
      }
      WithCommas(init) + if last.Some? then last.value + "," else ""
  }

  predicate WellFormed(kv: KeyValue) {
    kv.key != "" && (kv.value.LeafList? ==> HasText(kv.value.elems))
  }

  function DatumOf(v: KvValue): Option<Datum>
    requires v.LeafList? ==> HasText(v.elems)
  {
    match v
    case StrValue(s) => Some(TextDatum(s))
    case LeafList(elems) => var t := WithCommas(elems); Some(TextDatum(t[..|t| - 1]))
    case OtherValue(d) => Some(d)
    case Missing => None
  }

  // ---------- what the rows mean ----------

  /** The four tags that every row gets. */
  function Complete(env: Env, tags: Tags): Tags {
    tags["device" := env.host]["sensor" := env.sensor]
        ["component_id" := env.component]["sub_component_id" := env.subComponent]
  }

  /** The prefix in force before kv pair i: the value of the last prefix pair. */
  function PrefixAt(kvs: seq<KeyValue>, i: nat): Option<string>
    requires i <= |kvs|
  {
    if i == 0 then None
    else if kvs[i - 1].key == "__prefix__" then Some(StrOf(kvs[i - 1].value))
    else PrefixAt(kvs, i - 1)
  }

  predicate IsInternal(key: string) {
    |key| >= 2 && key[..2] == "__"
  }

  /** Path and tags of a key; a plain relative key has none before the first prefix. */
  function Resolve(env: Env, prefix: Option<string>, key: string): Option<(string, Tags)>
    requires key != ""
  {
    if key[0] == '/' then Some(env.parse(key))
    else if '[' in key then Some(env.parse((if prefix.Some? then prefix.value else "") + key))
    else if prefix.None? then None
    else var (path, tags) := env.parse(prefix.value); Some((env.alias(path + key), tags))
  }

  /** The entry of kv pair i, with tags of its own; None if the pair is dropped. */
  function EntryAt(env: Env, kvs: seq<KeyValue>, i: nat): Option<Entry>
    requires i < |kvs| && WellFormed(kvs[i])
  {
    var kv := kvs[i];
    if IsInternal(kv.key) then None
    else
      var at := Resolve(env, PrefixAt(kvs, i), kv.key);
      var datum := DatumOf(kv.value);
      if at.None? || datum.None? then None
      else Some(Entry(Complete(env, at.value.1), at.value.0, datum.value))
  }

  lemma {:induction false} NoPrefixIff(kvs: seq<KeyValue>, i: nat)
    requires i <= |kvs|
    ensures PrefixAt(kvs, i).None? <==> forall j :: 0 <= j < i ==> kvs[j].key != "__prefix__"
  {
    if i > 0 {
      NoPrefixIff(kvs, i - 1);
    }
  }

  /** Dropped are exactly the pairs that are internal, have no value, or are plain relative keys before any prefix. */
  lemma DroppedIff(env: Env, kvs: seq<KeyValue>, i: nat)
    requires i < |kvs| && WellFormed(kvs[i])
    ensures EntryAt(env, kvs, i).None? <==>
      || (|kvs[i].key| >= 2 && kvs[i].key[0] == '_' && kvs[i].key[1] == '_')
      || kvs[i].value.Missing?
      || (kvs[i].key[0] != '/' && '[' !in kvs[i].key && forall j :: 0 <= j < i ==> kvs[j].key != "__prefix__")
  {
    hide PrefixAt;
    NoPrefixIff(kvs, i);
  }

  /** t is the value of the last prefix pair before pair i, if there is one. */
  ghost predicate LastPrefix(kvs: seq<KeyValue>, i: nat, t: Option<string>)
    requires i <= |kvs|
  {
    if t.None? then forall j :: 0 <= j < i ==> kvs[j].key != "__prefix__"
    else exists j :: 0 <= j < i && kvs[j].key == "__prefix__" && (forall l :: j < l < i ==> kvs[l].key != "__prefix__")
                     && t.value == if kvs[j].value.StrValue? then kvs[j].value.s else ""
  }

  lemma {:induction false} PrefixAtIs(kvs: seq<KeyValue>, i: nat, t: Option<string>)
    requires i <= |kvs| && LastPrefix(kvs, i, t)
    ensures PrefixAt(kvs, i) == t
  {
    if i > 0 && kvs[i - 1].key != "__prefix__" {
      if t.Some? {
        var j :| 0 <= j < i && kvs[j].key == "__prefix__" && (forall l :: j < l < i ==> kvs[l].key != "__prefix__")
                 && t.value == if kvs[j].value.StrValue? then kvs[j].value.s else "";
        assert j < i - 1;
      }
      PrefixAtIs(kvs, i - 1, t);
    }
  }

  /** What a pair's text is parsed as: itself if absolute, behind the prefix if it has keys, else the prefix alone. */
  function ParsedText(key: string, t: Option<string>): string
    requires key != ""
  {
    var prefix := if t.Some? then t.value else "";
    if key[0] == '/' then key else if '[' in key then prefix + key else prefix
  }

  /** The tags of a row: those of the parsed text, with the packet's four values set. */
  ghost predicate RowTags(env: Env, base: Tags, tags: Tags) {
    && "device" in tags && tags["device"] == env.host
    && "sensor" in tags && tags["sensor"] == env.sensor
    && "component_id" in tags && tags["component_id"] == env.component
    && "sub_component_id" in tags && tags["sub_component_id"] == env.subComponent
    && forall k :: k !in {"device", "sensor", "component_id", "sub_component_id"} ==>
         (k in tags <==> k in base) && (k in tags ==> tags[k] == base[k])
  }

  /**
   The entry of a kept pair. Its path is that of the parsed text, or, for a plain relative key, the alias of the
   prefix's path followed by the key; its tags are those of the same parse and of the packet.
   */
  lemma {:induction false} KeptPair(env: Env, kvs: seq<KeyValue>, i: nat, t: Option<string>)
    requires i < |kvs| && WellFormed(kvs[i]) && LastPrefix(kvs, i, t) && EntryAt(env, kvs, i).Some?
    ensures var e, key := EntryAt(env, kvs, i).value, kvs[i].key;
      var parsed := env.parse(ParsedText(key, t));
      && e.path == (if key[0] == '/' || '[' in key then parsed.0 else env.alias(parsed.0 + key))
      && RowTags(env, parsed.1, e.tags)
  {
    PrefixAtIs(kvs, i, t);
    hide PrefixAt;
    hide DatumOf;
  }

  /** The string elements of a leaf-list. */
  function Strings(elems: seq<Option<string>>): seq<string> {
    if elems == [] then []
    else
      var last := elems[|elems| - 1];
      Strings(elems[..|elems| - 1]) + if last.Some? then [last.value] else []
  }

  /** The datum that a value is written as: its text or other value, or its strings joined by commas. */
  ghost predicate WrittenAs(v: KvValue, d: Datum) {
    && (v.StrValue? ==> d == TextDatum(v.s))
    && (v.OtherValue? ==> d == v.d)
    && (v.LeafList? ==> d == TextDatum(Join(Strings(v.elems), ",")))
  }

  /** The value of a kept pair. */
  lemma {:induction false} KeptValue(env: Env, kvs: seq<KeyValue>, i: nat)
    requires i < |kvs| && WellFormed(kvs[i]) && EntryAt(env, kvs, i).Some?
    ensures !kvs[i].value.Missing? && WrittenAs(kvs[i].value, EntryAt(env, kvs, i).value.value)
  {
    if kvs[i].value.LeafList? {
      JoinedStrings(kvs[i].value.elems);
    }
  }

  lemma {:induction false} JoinedStrings(elems: seq<Option<string>>)
    ensures WithCommas(elems) == if Strings(elems) == [] then "" else Join(Strings(elems), ",") + ","
  {
    if elems != [] {
      var init, last := elems[..|elems| - 1], elems[|elems| - 1];
      JoinedStrings(init);
      var strings := Strings(init);
      if last.Some? {
        var more := strings + [last.value];
        if strings == [] {
          assert more == [last.value];
        } else {
          JoinLast(more, ",");
          assert more[..|more| - 1] == strings;
          assert Join(strings, ",") + "," + (last.value + ",") == Join(strings, ",") + "," + last.value + ",";
        }
      } else {
        assert strings + [] == strings;
      }
    }
  }

  function Entries(env: Env, kvs: seq<KeyValue>, i: nat): seq<Entry>
    requires i <= |kvs| && forall j :: 0 <= j < |kvs| ==> WellFormed(kvs[j])
  {
    if i == 0 then []
    else
      var e := EntryAt(env, kvs, i - 1);
      Entries(env, kvs, i - 1) + if e.Some? then [e.value] else []
  }

  /** One more entry: into the last row if the tags are the same, else into a row of its own. */
  function AddEntry(rows: seq<Row>, e: Entry, ts: nat): seq<Row> {
    if rows != [] && rows[|rows| - 1].tags == e.tags then
      rows[|rows| - 1 := Row(e.tags, rows[|rows| - 1].fields[e.path := e.value])]
    else
      rows + [Row(e.tags, map[e.path := e.value][DEVICE_TS := IntDatum(ToInt64(ts))])]
  }

  function RowsOf(es: seq<Entry>, ts: nat): seq<Row> {
    if es == [] then [] else AddEntry(RowsOf(es[..|es| - 1], ts), es[|es| - 1], ts)
  }

  // ---------- the rows as maximal runs ----------

  function ConcatRuns(runs: seq<seq<Entry>>): seq<Entry> {
    if runs == [] then [] else ConcatRuns(runs[..|runs| - 1]) + runs[|runs| - 1]
  }

  /** The last value a run has for a path. */
  function LastValue(run: seq<Entry>, k: string): Option<Datum> {
    if run == [] then None
    else if run[|run| - 1].path == k then Some(run[|run| - 1].value)
    else LastValue(run[..|run| - 1], k)
  }

  /**
   A row describes a run: its tags, the last value of each path, and the packet's timestamp unless a later entry
   overwrote it.
   */
  ghost predicate Describes(row: Row, run: seq<Entry>, ts: nat) {
    && run != []
    && (forall i :: 0 <= i < |run| ==> run[i].tags == row.tags)
    && (forall k :: k != DEVICE_TS ==> (k in row.fields <==> LastValue(run, k).Some?))
    && (forall k :: k != DEVICE_TS && k in row.fields ==> LastValue(run, k) == Some(row.fields[k]))
    && DEVICE_TS in row.fields
    && row.fields[DEVICE_TS] ==
       (var v := LastValue(run[1..], DEVICE_TS); if v.Some? then v.value else IntDatum(ToInt64(ts)))
  }

  ghost predicate RowsDescribe(rows: seq<Row>, runs: seq<seq<Entry>>, ts: nat) {
    && |rows| == |runs|
    && forall i :: 0 <= i < |rows| ==> Describes(rows[i], runs[i], ts)
  }

  /** Neighbouring rows never have the same tags. */
  ghost predicate AdjacentDiffer(rows: seq<Row>) {
    forall i :: 0 < i < |rows| ==> rows[i - 1].tags != rows[i].tags
  }

  lemma GrownRun(row: Row, run: seq<Entry>, e: Entry, ts: nat)
    requires Describes(row, run, ts) && e.tags == row.tags
    ensures Describes(Row(e.tags, row.fields[e.path := e.value]), run + [e], ts)
  {
    var more := run + [e];
    assert more[..|run|] == run;
    assert more[1..] == run[1..] + [e];
    assert more[1..][..|run| - 1] == run[1..];
  }

  lemma NewRun(e: Entry, ts: nat)
    ensures Describes(Row(e.tags, map[e.path := e.value][DEVICE_TS := IntDatum(ToInt64(ts))]), [e], ts)
  {
    assert [e][..0] == [] && [e][1..] == [];
    forall k ensures LastValue([e], k) == if e.path == k then Some(e.value) else None {
      assert LastValue([e][..0], k) == None;
    }
    assert LastValue([e][1..], DEVICE_TS) == None;
  }

  /** The rows are the maximal runs of neighbouring entries with equal tags: nothing is lost, split or reordered. */
  lemma {:induction false} RowsAreRuns(es: seq<Entry>, ts: nat) returns (runs: seq<seq<Entry>>)
    ensures ConcatRuns(runs) == es
    ensures RowsDescribe(RowsOf(es, ts), runs, ts)
    ensures AdjacentDiffer(RowsOf(es, ts))
  {
    if es == [] {
      runs := [];
    } else {
      var init, e := es[..|es| - 1], es[|es| - 1];
      var rows := RowsOf(init, ts);
      var before := RowsAreRuns(init, ts);
      runs := AddedRun(rows, before, e, ts);
      assert init + [e] == es;
    }
  }

  lemma {:induction false} ConcatMore(runs: seq<seq<Entry>>, run: seq<Entry>)
    ensures ConcatRuns(runs + [run]) == ConcatRuns(runs) + run
  {
    assert (runs + [run])[..|runs|] == runs;
  }

  lemma {:induction false} ConcatGrown(runs: seq<seq<Entry>>, e: Entry)
    requires runs != []
    ensures var last := |runs| - 1; ConcatRuns(runs[..last] + [runs[last] + [e]]) == ConcatRuns(runs) + [e]
  {
    hide ConcatRuns;
    var last := |runs| - 1;
    ConcatMore(runs[..last], runs[last] + [e]);
    ConcatMore(runs[..last], runs[last]);
    assert runs[..last] + [runs[last]] == runs;
    Associative(ConcatRuns(runs[..last]), runs[last], [e]);
  }

  lemma AddedRun(rows: seq<Row>, runs: seq<seq<Entry>>, e: Entry, ts: nat) returns (runs': seq<seq<Entry>>)
    requires RowsDescribe(rows, runs, ts) && AdjacentDiffer(rows)
    ensures ConcatRuns(runs') == ConcatRuns(runs) + [e]
    ensures RowsDescribe(AddEntry(rows, e, ts), runs', ts)
    ensures AdjacentDiffer(AddEntry(rows, e, ts))
  {
    hide Describes;
    hide LastValue;
    var rows' := AddEntry(rows, e, ts);
    var last := |rows'| - 1;
    if rows != [] && rows[|rows| - 1].tags == e.tags {
      GrownRun(rows[last], runs[last], e, ts);
      runs' := runs[..last] + [runs[last] + [e]];
      ConcatGrown(runs, e);
    } else {
      NewRun(e, ts);
      runs' := runs + [[e]];
      ConcatMore(runs, [e]);
    }
    forall i | 0 <= i < |rows'| ensures Describes(rows'[i], runs'[i], ts) {
      if i < last {
        assert rows'[i] == rows[i] && runs'[i] == runs[i];
      }
    }
  }

  // ---------- the packet loop as written ----------

  /** A Go map of tags: a reference that rows and the current prefix may share. */
  class TagCell {
    var m: Tags
    constructor (m: Tags)
      ensures this.m == m
    {
      this.m := m;
    }
  }

  datatype RowRef = RowRef(tags: TagCell, fields: Fields)

  ghost function Cells(refs: seq<RowRef>): set<object> {
    set i | 0 <= i < |refs| :: refs[i].tags
  }

  /** The rows through their references: the tags are complete, so writing the common tags again changes nothing. */
  ghost predicate RowsAre(env: Env, refs: seq<RowRef>, rows: seq<Row>)
    reads Cells(refs)
  {
    && |refs| == |rows|
    && forall i :: 0 <= i < |refs| ==>
         refs[i].tags.m == rows[i].tags && refs[i].fields == rows[i].fields &&
           Complete(env, rows[i].tags) == rows[i].tags
  }

  /** The prefix variables; the shared map may already hold the common tags. */
  ghost predicate PrefixIs(env: Env, was: Option<string>, prefix: string, path: string, tags: TagCell?)
    reads tags
  {
    match was
    case None => prefix == "" && path == "" && tags == null
    case Some(text) =>
      && prefix == text && path == env.parse(text).0 && tags != null
      && (tags.m == env.parse(text).1 || tags.m == Complete(env, env.parse(text).1))
  }

  /** Path and tag map of a key: a plain relative key gets the prefix's own map. */
  method ResolveKey(env: Env, key: string, prefix: string, prefixPath: string, prefixTags: TagCell?,
                    ghost was: Option<string>)
    returns (path: string, tags: TagCell?)
    requires key != "" && PrefixIs(env, was, prefix, prefixPath, prefixTags)
    ensures tags == prefixTags || (tags != null && fresh(tags))
    ensures tags == null <==> Resolve(env, was, key).None?
    ensures tags != null ==> path == Resolve(env, was, key).value.0
                             && (tags.m == Resolve(env, was, key).value.1 ||
                               tags.m == Complete(env, Resolve(env, was, key).value.1))
  {
    if key[0] != '/' {
      if '[' in key {
        var (x, t) := env.parse(prefix + key);
        path := x;
        tags := new TagCell(t);
      } else {
        path := env.alias(prefixPath + key);
        tags := prefixTags;
      }
    } else {
      var (x, t) := env.parse(key);
      path := x;
      tags := new TagCell(t);
    }
  }

  /** The leaf-list loop: the string elements, separated by commas. */
  method LeafListText(elems: seq<Option<string>>) returns (text: string)
    requires HasText(elems)
    ensures text == WithCommas(elems)[..|WithCommas(elems)| - 1]
  {
    var str := "";
    for i := 0 to |elems|
      invariant str == WithCommas(elems[..i])
    {
      assert elems[..i + 1][..i] == elems[..i];
      if elems[i].Some? {
        str := str + elems[i].value + ",";
        assert str == WithCommas(elems[..i]) + (elems[i].value + ",");
      }
    }
    assert elems[..|elems|] == elems;
    text := str[..|str| - 1];
  }

  method ValueOf(v: KvValue) returns (datum: Option<Datum>)
    requires v.LeafList? ==> HasText(v.elems)
    ensures datum == DatumOf(v)
  {
    match v {
      case LeafList(elems) =>
        var text := LeafListText(elems);
        datum := Some(TextDatum(text));
      case StrValue(s) => datum := Some(TextDatum(s));
      case OtherValue(d) => datum := Some(d);
      case Missing => datum := None;
    }
  }

  /** Into the last row if its tags are equal, else a new row that keeps the reference to the tags. */
  method AddRow(env: Env, refs: seq<RowRef>, tags: TagCell, path: string, value: Datum, ghost rows: seq<Row>)
    returns (refs': seq<RowRef>)
    requires RowsAre(env, refs, rows) && Complete(env, tags.m) == tags.m
    ensures RowsAre(env, refs', AddEntry(rows, Entry(tags.m, path, value), env.ts))
    ensures Cells(refs') <= Cells(refs) + {tags}
  {
    var n := |refs|;
    if n != 0 && tags.m == refs[n - 1].tags.m {
      refs' := refs[n - 1 := RowRef(refs[n - 1].tags, refs[n - 1].fields[path := value])];
    } else {
      refs' := refs + [RowRef(tags, map[path := value][DEVICE_TS := IntDatum(ToInt64(env.ts))])];
    }
  }

  /** What one pair adds to the rows; without a database client nothing is ever added. */
  function NextRows(env: Env, rows: seq<Row>, e: Option<Entry>): seq<Row> {
    if e.Some? && env.connected then AddEntry(rows, e.value, env.ts) else rows
  }

  lemma CompleteTwice(env: Env, tags: Tags)
    ensures Complete(env, Complete(env, tags)) == Complete(env, tags)
  {
  }

  /** Writes the common tags into a map that rows may already share. */
  method SetCommonTags(env: Env, tags: TagCell, ghost refs: seq<RowRef>, ghost rows: seq<Row>)
    requires RowsAre(env, refs, rows)
    modifies tags
    ensures tags.m == Complete(env, old(tags.m))
    ensures RowsAre(env, refs, rows)
  {
    tags.m := tags.m["device" := env.host];
    tags.m := tags.m["sensor" := env.sensor];
    tags.m := tags.m["component_id" := env.component];
    tags.m := tags.m["sub_component_id" := env.subComponent];
    forall i | 0 <= i < |refs| ensures refs[i].tags.m == rows[i].tags {
      if refs[i].tags == tags {
        assert old(tags.m) == rows[i].tags;
      }
    }
  }

  /** A pair that is not internal. */
  method HandleKey(env: Env, kv: KeyValue, prefix: string, prefixPath: string, prefixTags: TagCell?, refs: seq<RowRef>,
                   ghost kvs: seq<KeyValue>, ghost i: nat, ghost rows: seq<Row>)
    returns (refs': seq<RowRef>)
    requires i < |kvs| && kv == kvs[i] && WellFormed(kv) && !IsInternal(kv.key)
    requires PrefixIs(env, PrefixAt(kvs, i), prefix, prefixPath, prefixTags) && RowsAre(env, refs, rows)
    modifies prefixTags
    ensures PrefixIs(env, PrefixAt(kvs, i), prefix, prefixPath, prefixTags)
    ensures RowsAre(env, refs', NextRows(env, rows, EntryAt(env, kvs, i)))
    ensures forall c :: c in Cells(refs') ==> c in Cells(refs) || c == prefixTags || fresh(c)
  {
    refs' := refs;
    var path, tags := ResolveKey(env, kv.key, prefix, prefixPath, prefixTags, PrefixAt(kvs, i));
    if tags == null {
      return;
    }
    ghost var parsed := Resolve(env, PrefixAt(kvs, i), kv.key).value.1;
    CompleteTwice(env, parsed);
    SetCommonTags(env, tags, refs, rows);
    assert tags.m == Complete(env, parsed);
    var datum := ValueOf(kv.value);
    if datum.Some? && env.connected {
      refs' := AddRow(env, refs, tags, path, datum.value, rows);
    }
  }

  /** The rows of the first i pairs. */
  function RowsUpTo(env: Env, kvs: seq<KeyValue>, i: nat): seq<Row>
    requires i <= |kvs| && forall j :: 0 <= j < |kvs| ==> WellFormed(kvs[j])
  {
    if env.connected then RowsOf(Entries(env, kvs, i), env.ts) else []
  }

  lemma OneMorePair(env: Env, kvs: seq<KeyValue>, i: nat)
    requires i < |kvs| && forall j :: 0 <= j < |kvs| ==> WellFormed(kvs[j])
    ensures RowsUpTo(env, kvs, i + 1) == NextRows(env, RowsUpTo(env, kvs, i), EntryAt(env, kvs, i))
  {
    var es, e := Entries(env, kvs, i), EntryAt(env, kvs, i);
    if e.Some? {
      assert (es + [e.value])[..|es|] == es;
    } else {
      assert es + [] == es;
    }
  }

  lemma RowsAtStart(env: Env, kvs: seq<KeyValue>)
    requires forall j :: 0 <= j < |kvs| ==> WellFormed(kvs[j])
    ensures RowsUpTo(env, kvs, 0) == []
  {
  }

  lemma InternalHasNoEntry(env: Env, kvs: seq<KeyValue>, i: nat)
    requires i < |kvs| && WellFormed(kvs[i])
    ensures IsInternal(kvs[i].key) ==> EntryAt(env, kvs, i).None?
    ensures kvs[i].key == "__prefix__" ==> IsInternal(kvs[i].key)
  {
  }

  /** SubscriptionPathFromPath: the third of exactly four parts. */
  function SubscriptionPath(path: string): string {
    var tokens := Split(path, ':');
    if |tokens| == 4 then tokens[2] else ""
  }

  function MeasurementName(env: Env): string {
    if env.measurement != "" then env.measurement else SubscriptionPath(env.sensor)
  }

  /** The configured measurement, or else the third of the sensor path's four parts. */
  lemma {:induction false} MeasurementIs(env: Env, a: string, b: string, c: string, d: string)
    requires ':' !in a && ':' !in b && ':' !in c && ':' !in d
    ensures env.measurement != "" ==> MeasurementName(env) == env.measurement
    ensures env.measurement == "" && env.sensor == a + ":" + (b + ":" + (c + ":" + d)) ==> MeasurementName(env) == c
  {
    SplitCons(a, b + ":" + (c + ":" + d), ':');
    SplitCons(b, c + ":" + d, ':');
    SplitCons(c, d, ':');
    SplitAtom(d, ':');
    hide Split;
  }

  /** The points of the rows that the client library accepts. */
  function PointsOfRows(env: Env, rows: seq<Row>): seq<Point> {
    if rows == [] then []
    else
      var init, last := rows[..|rows| - 1], rows[|rows| - 1];
      var pt := NewPoint(env.fits, MeasurementName(env), last.tags, last.fields, env.rtime);
      PointsOfRows(env, init) + if pt.Some? then [pt.value] else []
  }

  function PacketOf(env: Env, rows: seq<Row>): Option<Batching.Packet> {
    var pts := PointsOfRows(env, rows);
    if pts == [] then None else Some(Batching.Packet(MeasurementName(env), pts))
  }

  /** The points that a packet hands to the writers are named after its measurement. */
  lemma {:induction false} PointsAreNamed(env: Env, rows: seq<Row>)
    ensures forall i :: 0 <= i < |PointsOfRows(env, rows)| ==> PointsOfRows(env, rows)[i].name == MeasurementName(env)
  {
    if rows != [] {
      PointsAreNamed(env, rows[..|rows| - 1]);
    }
  }

  method RowPoints(env: Env, refs: seq<RowRef>, ghost rows: seq<Row>) returns (points: seq<Point>)
    requires RowsAre(env, refs, rows)
    ensures points == PointsOfRows(env, rows)
  {
    points := [];
    for i := 0 to |refs|
      invariant points == PointsOfRows(env, rows[..i])
    {
      assert rows[..i + 1][..i] == rows[..i];
      var pt := NewPoint(env.fits, MeasurementName(env), refs[i].tags.m, refs[i].fields, env.rtime);
      if pt.Some? {
        points := points + [pt.value];
      }
    }
    assert rows[..|rows|] == rows;
  }

  /** The loop over the pairs; in the end the shared maps hold what fresh copies would. */
  method CollectRows(env: Env, kvs: seq<KeyValue>) returns (refs: seq<RowRef>)
    requires forall j :: 0 <= j < |kvs| ==> WellFormed(kvs[j])
    ensures RowsAre(env, refs, RowsUpTo(env, kvs, |kvs|))
  {
    RowsAtStart(env, kvs);
    hide RowsUpTo;
    hide EntryAt;
    refs := [];
    var prefix, prefixPath, prefixTags: TagCell? := "", "", null;
    for i := 0 to |kvs|
      invariant PrefixIs(env, PrefixAt(kvs, i), prefix, prefixPath, prefixTags)
      invariant RowsAre(env, refs, RowsUpTo(env, kvs, i))
      invariant prefixTags == null || fresh(prefixTags)
      invariant forall c :: c in Cells(refs) ==> fresh(c)
    {
      OneMorePair(env, kvs, i);
      InternalHasNoEntry(env, kvs, i);
      var kv := kvs[i];
      if kv.key == "__prefix__" {
        prefix := StrOf(kv.value);
        var (x, t) := env.parse(prefix);
        prefixPath := x;
        prefixTags := new TagCell(t);
      } else if !IsInternal(kv.key) {
        refs := HandleKey(env, kv, prefix, prefixPath, prefixTags, refs, kvs, i, RowsUpTo(env, kvs, i));
      }
    }
  }

  /** addIDB: what one packet sends to the batch writers. */
  method AddIDB(env: Env, kvs: seq<KeyValue>) returns (packet: Option<Batching.Packet>)
    requires forall j :: 0 <= j < |kvs| ==> WellFormed(kvs[j])
    ensures packet == PacketOf(env, RowsUpTo(env, kvs, |kvs|))
  {
    var refs := CollectRows(env, kvs);
    var points := RowPoints(env, refs, RowsUpTo(env, kvs, |kvs|));
    packet := if |points| > 0 then Some(Batching.Packet(MeasurementName(env), points)) else None;
  }
}

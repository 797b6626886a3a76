/**
 The flattening of a Cisco IOS-XR message (subscribe_cisco_iosxr.go).

 `Walk` is the program: it appends to slices that share their backing array with the
 slices of its callers, and it strips namespaces from path elements in place.
 `PureWalk` is what it means: tags and path are values, and names are stripped when used.
 */
module CiscoWalk {
  import opened Text
  import opened Points

  datatype SchemaNode = SchemaNode(name: string, key: bool, kids: seq<SchemaNode>)

  datatype TelemetryValue =
    | StringValue(s: string)
    | Uint32Value(n: nat)
    | Uint64Value(n: nat)
    | Sint32Value(i: int)
    | Sint64Value(i: int)
    | DoubleValue(datum: Datum, text: string)
    | BoolValue(b: bool)
    | BytesValue(bytes: seq<int>, text: string)
    | NoValue

  /** The children of a field; a leaf has none at all, which is not the same as an empty list. */
  datatype Kids = NoKids | Kids(fields: seq<Field>)

  datatype Field = Field(name: string, value: TelemetryValue, kids: Kids)

  datatype KeyInfo = KeyInfo(key: string, value: string)

  datatype WalkConfig = WalkConfig(removeNS: bool, enableUint: bool, connected: bool)

  function Decimal(n: nat): string {
    if n < 10 then [('0' as int + n) as char] else Decimal(n / 10) + [('0' as int + n % 10) as char]
  }

  function SignedDecimal(i: int): string {
    if i < 0 then "-" + Decimal(-i) else Decimal(i)
  }

  /** The number that a text of decimal digits spells. */
  function Spelled(s: string): int {
    if s == "" then 0 else 10 * Spelled(s[..|s| - 1]) + (s[|s| - 1] as int - '0' as int)
  }

  /** Decimal text spells its number, in digits. */
  lemma {:induction false} DecimalSpells(n: nat)
    ensures Spelled(Decimal(n)) == n && Decimal(n) != "" && forall c :: c in Decimal(n) ==> '0' <= c <= '9'
  {
    var last := ('0' as int + n % 10) as char;
    if n >= 10 {
      DecimalSpells(n / 10);
      assert Decimal(n)[..|Decimal(n)| - 1] == Decimal(n / 10);
    } else {
      assert Decimal(n)[..0] == "";
      assert Spelled("") == 0;
    }
  }

  /** getFieldStringValue */
  function StringOf(v: TelemetryValue): string {
    match v
    case StringValue(s) => s
    case Uint32Value(n) => Decimal(n)
    case Uint64Value(n) => Decimal(n)
    case Sint32Value(i) => SignedDecimal(i)
    case Sint64Value(i) => SignedDecimal(i)
    case DoubleValue(_, text) => text
    case BoolValue(b) => if b then "true" else "false"
    case BytesValue(_, text) => text
    case NoValue => ""
  }

  /** getFieldValueInterface */
  function DatumOf(v: TelemetryValue, enableUint: bool): Datum {
    match v
    case StringValue(s) => TextDatum(s)
    case Uint32Value(n) => UintDatum(n)
    case Uint64Value(n) => if enableUint then UintDatum(n) else FloatDatum(n as real)
    case Sint32Value(i) => IntDatum(i)
    case Sint64Value(i) => IntDatum(i)
    case DoubleValue(datum, _) => datum
    case BoolValue(b) => BoolDatum(b)
    case BytesValue(bytes, _) => BytesDatum(bytes)
    case NoValue => TextDatum("")
  }

  /** The text of a number spells it, with a minus sign in front of a negative one. */
  lemma NumberText(n: nat, i: int)
    ensures Spelled(StringOf(Uint32Value(n))) == Spelled(StringOf(Uint64Value(n))) == n
    ensures i >= 0 ==> Spelled(StringOf(Sint32Value(i))) == Spelled(StringOf(Sint64Value(i))) == i
    ensures i < 0 ==>
      var s := StringOf(Sint32Value(i));
      s == StringOf(Sint64Value(i)) && s[0] == '-' && Spelled(s[1..]) == -i
  {
    DecimalSpells(n);
    DecimalSpells(if i < 0 then -i else i);
  }

  /** Without support for unsigned integers in the database, a large one is written as a float of the same value. */
  lemma LargeNumber(n: nat)
    ensures DatumOf(Uint64Value(n), false) == FloatDatum(n as real) && DatumOf(Uint64Value(n), true) == UintDatum(n)
    ensures forall u: bool :: DatumOf(Uint32Value(n), u) == UintDatum(n) && DatumOf(Sint32Value(n), u) == IntDatum(n)
  {
  }

  // ---------- namespaces and paths ----------

  /** One path element without its namespace: only an element with exactly one colon has one. */
  function StripNS(s: string): string {
    var parts := Split(s, ':');
    if |parts| == 2 then parts[1] else s
  }

  function Strip(removeNS: bool, p: seq<string>): (r: seq<string>)
    ensures |r| == |p|
    ensures forall i :: 0 <= i < |p| ==> r[i] == if removeNS then StripNS(p[i]) else p[i]
  {
    if removeNS then seq(|p|, i requires 0 <= i < |p| => StripNS(p[i])) else p
  }

  /** Stripping a stripped element changes nothing. */
  lemma StripNSIdempotent(s: string)
    ensures StripNS(StripNS(s)) == StripNS(s)
  {
    var parts := Split(s, ':');
    if |parts| == 2 {
      SplitAtom(parts[1], ':');
    }
  }

  lemma StripIdempotent(removeNS: bool, p: seq<string>)
    ensures Strip(removeNS, Strip(removeNS, p)) == Strip(removeNS, p)
  {
    forall i | 0 <= i < |p| ensures Strip(removeNS, Strip(removeNS, p))[i] == Strip(removeNS, p)[i] {
      StripNSIdempotent(p[i]);
    }
  }

  /** Of an element with one colon the name behind it is kept. */
  lemma StripNSQualified(ns: string, name: string)
    requires ':' !in ns && ':' !in name
    ensures StripNS(ns + ":" + name) == name
  {
    SplitCons(ns, name, ':');
    SplitAtom(name, ':');
  }

  /** An element without a colon is kept as it is. */
  lemma StripNSPlain(s: string)
    requires ':' !in s
    ensures StripNS(s) == s
  {
    SplitAtom(s, ':');
  }

  /** And so is an element with two colons or more. */
  lemma StripNSMore(a: string, b: string, c: string)
    requires ':' !in a && ':' !in b
    ensures StripNS(a + ":" + b + ":" + c) == a + ":" + b + ":" + c
  {
    SplitCons(a, b + ":" + c, ':');
    SplitCons(b, c, ':');
    assert a + ":" + b + ":" + c == a + ":" + (b + ":" + c);
  }

  function ParentPath(removeNS: bool, p: seq<string>): string {
    "/" + Join(Strip(removeNS, p), "/") + "/"
  }

  /** The names of a path, each between slashes. */
  function Trail(names: seq<string>): string {
    if |names| <= 1 then "/" + (if names == [] then "" else names[0]) + "/"
    else Trail(names[..|names| - 1]) + names[|names| - 1] + "/"
  }

  lemma {:induction false} JoinIsTrail(names: seq<string>)
    ensures "/" + Join(names, "/") + "/" == Trail(names)
  {
    if |names| > 1 {
      var k := |names| - 1;
      JoinIsTrail(names[..k]);
      JoinLast(names, "/");
      var init, last := Join(names[..k], "/"), names[k];
      assert "/" + (init + "/" + last) + "/" == "/" + init + "/" + last + "/";
    }
  }

  /** The text of a path: its stripped names, each between slashes. */
  lemma ParentPathText(removeNS: bool, p: seq<string>)
    ensures ParentPath(removeNS, p) == Trail(Strip(removeNS, p))
  {
    JoinIsTrail(Strip(removeNS, p));
  }

  /** Under one qualified name, the text is that name between slashes. */
  lemma QualifiedPathText(ns: string, name: string)
    requires ':' !in ns && ':' !in name
    ensures ParentPath(true, [ns + ":" + name]) == "/" + name + "/"
    ensures ParentPath(false, [ns + ":" + name]) == "/" + ns + ":" + name + "/"
  {
    StripNSQualified(ns, name);
    ParentPathText(true, [ns + ":" + name]);
    ParentPathText(false, [ns + ":" + name]);
    assert Strip(true, [ns + ":" + name]) == [name];
    assert "/" + (ns + ":" + name) + "/" == "/" + ns + ":" + name + "/";
  }

  /** The path below a container: an unnamed container starts over. */
  function ChildPath(p: seq<string>, name: string): seq<string> {
    if name != "" then p + [name] else []
  }

  // ---------- the pure walk ----------

  function KeyOf(c: WalkConfig, p: seq<string>, field: Field): KeyInfo {
    KeyInfo(ParentPath(c.removeNS, p) + "@" + field.name, StringOf(field.value))
  }

  function KidsOf(n: Option<SchemaNode>): seq<SchemaNode> {
    if n.Some? then n.value.kids else []
  }

  /** The schema names this field a key of its level. */
  predicate IsKey(kids: seq<SchemaNode>, name: string) {
    exists k :: k in kids && k.name == name && k.key
  }

  /** The last schema node with this name, or the one carried over from the field before. */
  function LastNamed(kids: seq<SchemaNode>, name: string, carried: Option<SchemaNode>): Option<SchemaNode> {
    if kids == [] then carried
    else if kids[|kids| - 1].name == name then Some(kids[|kids| - 1])
    else LastNamed(kids[..|kids| - 1], name, carried)
  }

  /** A key replaces the level's earlier key: it is appended to the tags the level started with. */
  function NextTags(c: WalkConfig, n: Option<SchemaNode>, p: seq<string>, tags: seq<KeyInfo>, cur: seq<KeyInfo>,
                    field: Field): seq<KeyInfo> {
    if IsKey(KidsOf(n), field.name) then tags + [KeyOf(c, p, field)] else cur
  }

  /** The map of a tag list; a later tag with the same key wins. */
  function TagMap(tags: seq<KeyInfo>): Tags {
    if tags == [] then map[]
    else TagMap(tags[..|tags| - 1])[tags[|tags| - 1].key := tags[|tags| - 1].value]
  }

  /** A tag of a metric has the value of the last item of the list with its key. */
  lemma {:induction false} TagMapLast(tags: seq<KeyInfo>, k: string)
    ensures k in TagMap(tags) <==> exists i :: 0 <= i < |tags| && tags[i].key == k
    ensures forall i :: 0 <= i < |tags| && tags[i].key == k && (forall j :: i < j < |tags| ==> tags[j].key != k) ==>
              k in TagMap(tags) && TagMap(tags)[k] == tags[i].value
  {
    if tags != [] {
      var n := |tags| - 1;
      TagMapLast(tags[..n], k);
      assert forall i :: 0 <= i < n ==> tags[..n][i] == tags[i];
      if tags[n].key != k && k in TagMap(tags[..n]) {
        var i :| 0 <= i < n && tags[..n][i].key == k;
        assert tags[i].key == k;
      }
    }
  }

  function LeafMetric(c: WalkConfig, p: seq<string>, tags: seq<KeyInfo>, field: Field, ts: nat): Metric {
    Metric(TagMap(tags), map[ParentPath(c.removeNS, p) + field.name := DatumOf(field.value, c.enableUint)], ts)
  }

  /** The metrics of the fields from index k on, with the tags and the schema node current there. */
  function PureWalk(c: WalkConfig, n: Option<SchemaNode>, f: seq<Field>, k: nat, p: seq<string>,
                    tags: seq<KeyInfo>, cur: seq<KeyInfo>, matched: Option<SchemaNode>, ts: nat): seq<Metric>
    requires k <= |f|
    decreases f, |f| - k
  {
    if k == |f| then []
    else
      var cur' := NextTags(c, n, p, tags, cur, f[k]);
      var matched' := LastNamed(KidsOf(n), f[k].name, matched);
      FieldMetrics(c, matched', f[k], p, cur', ts) + PureWalk(c, n, f, k + 1, p, tags, cur', matched', ts)
  }

  function FieldMetrics(c: WalkConfig, matched: Option<SchemaNode>, field: Field, p: seq<string>, cur: seq<KeyInfo>,
                        ts: nat): seq<Metric>
    decreases field
  {
    match field.kids
    case NoKids => [LeafMetric(c, p, cur, field, ts)]
    case Kids(fields) => PureWalk(c, matched, fields, 0, ChildPath(p, field.name), cur, cur, None, ts)
  }

  /** The metrics of one whole level. */
  function WalkMetrics(c: WalkConfig, n: Option<SchemaNode>, f: seq<Field>, p: seq<string>, tags: seq<KeyInfo>,
                       ts: nat): seq<Metric> {
    PureWalk(c, n, f, 0, p, tags, tags, None, ts)
  }

  /** The pure walk sees a path only through its stripped form. */
  lemma {:induction false} PathUpToStripping(c: WalkConfig, n: Option<SchemaNode>, f: seq<Field>, k: nat,
                                             p: seq<string>, q: seq<string>,
                          tags: seq<KeyInfo>, cur: seq<KeyInfo>, matched: Option<SchemaNode>, ts: nat)
    requires k <= |f|
    requires Strip(c.removeNS, p) == Strip(c.removeNS, q)
    ensures PureWalk(c, n, f, k, p, tags, cur, matched, ts) == PureWalk(c, n, f, k, q, tags, cur, matched, ts)
    decreases f, |f| - k
  {
    if k < |f| {
      var cur' := NextTags(c, n, p, tags, cur, f[k]);
      var matched' := LastNamed(KidsOf(n), f[k].name, matched);
      FieldUpToStripping(c, matched', f[k], p, q, cur', ts);
      PathUpToStripping(c, n, f, k + 1, p, q, tags, cur', matched', ts);
    }
  }

  lemma {:induction false} FieldUpToStripping(c: WalkConfig, matched: Option<SchemaNode>, field: Field,
                                              p: seq<string>, q: seq<string>, cur: seq<KeyInfo>, ts: nat)
    requires Strip(c.removeNS, p) == Strip(c.removeNS, q)
    ensures FieldMetrics(c, matched, field, p, cur, ts) == FieldMetrics(c, matched, field, q, cur, ts)
    decreases field
  {
    if field.kids.Kids? {
      var p', q' := ChildPath(p, field.name), ChildPath(q, field.name);
      assert Strip(c.removeNS, p') == Strip(c.removeNS, q') by {
        forall i | 0 <= i < |p'| ensures Strip(c.removeNS, p')[i] == Strip(c.removeNS, q')[i] {
          if i < |p| {
            assert Strip(c.removeNS, p)[i] == Strip(c.removeNS, q)[i];
          }
        }
      }
      PathUpToStripping(c, matched, field.kids.fields, 0, p', q', cur, cur, None, ts);
    }
  }

  // ---------- slices ----------

  /** A Go slice that starts at its backing array; the capacity is the array's length. */
  datatype Slice<!T> = Slice(arr: array<T>, len: nat)

  ghost predicate InBounds<T>(s: Slice<T>) { s.len <= s.arr.Length }

  ghost function Elems<T>(s: Slice<T>): seq<T>
    requires InBounds(s)
    reads s.arr
  {
    s.arr[..s.len]
  }

  /** append: in place while there is room, into a larger copy otherwise; `grow` is any growth policy. */
  method Append<T(0)>(s: Slice<T>, x: T, grow: nat -> nat) returns (r: Slice<T>)
    requires InBounds(s)
    modifies s.arr
    ensures InBounds(r) && r.len == s.len + 1
    ensures Elems(r) == old(Elems(s)) + [x]
    ensures Elems(s) == old(Elems(s))
    ensures if s.len < s.arr.Length then r.arr == s.arr else fresh(r.arr)
  {
    if s.len < s.arr.Length {
      s.arr[s.len] := x;
      r := Slice(s.arr, s.len + 1);
    } else {
      var bigger := new T[s.len + 1 + grow(s.len)];
      forall i | 0 <= i < s.len {
        bigger[i] := s.arr[i];
      }
      bigger[s.len] := x;
      r := Slice(bigger, s.len + 1);
    }
  }

  /** getParentPath: strips the elements of the slice in place, then joins them. */
  method GetParentPath(p: Slice<string>, ns: bool) returns (r: string)
    requires InBounds(p)
    modifies p.arr
    ensures Elems(p) == Strip(ns, old(Elems(p)))
    ensures r == ParentPath(ns, old(Elems(p)))
  {
    ghost var was := Elems(p);
    if ns {
      for i := 0 to p.len
        invariant forall j :: 0 <= j < i ==> p.arr[j] == StripNS(was[j])
        invariant forall j :: i <= j < p.len ==> p.arr[j] == was[j]
      {
        var s := Split(p.arr[i], ':');
        if |s| == 2 {
          p.arr[i] := s[1];
        }
      }
    }
    assert Elems(p) == Strip(ns, was);
    r := "/" + Join(p.arr[..p.len], "/") + "/";
  }

  // ---------- the walk as written ----------

  /** The accumulator's channel. */
  class Queue {
    var metrics: seq<Metric>
    constructor ()
      ensures metrics == []
    {
      metrics := [];
    }
  }

  /** A list of tags as the map of a metric. */
  method CollectTags(tags: Slice<KeyInfo>) returns (m: Tags)
    requires InBounds(tags)
    ensures m == TagMap(Elems(tags))
  {
    m := map[];
    ghost var all := Elems(tags);
    for i := 0 to tags.len
      invariant m == TagMap(all[..i])
    {
      assert all[..i + 1][..i] == all[..i];
      m := m[tags.arr[i].key := tags.arr[i].value];
    }
    assert all[..tags.len] == all;
  }

  /** What in-place stripping may have done to a path: each element is untouched or stripped. */
  ghost predicate SomeStripped(ns: bool, now: seq<string>, was: seq<string>) {
    |now| == |was| && forall i :: 0 <= i < |was| ==> now[i] == was[i] || (ns && now[i] == StripNS(was[i]))
  }

  lemma SomeStrippedStrip(ns: bool, now: seq<string>, was: seq<string>)
    requires SomeStripped(ns, now, was)
    ensures Strip(ns, now) == Strip(ns, was)
  {
    forall i | 0 <= i < |was| ensures Strip(ns, now)[i] == Strip(ns, was)[i] {
      StripNSIdempotent(was[i]);
    }
  }

  lemma SomeStrippedTrans(ns: bool, a: seq<string>, b: seq<string>, c: seq<string>)
    requires SomeStripped(ns, a, b) && SomeStripped(ns, b, c)
    ensures SomeStripped(ns, a, c)
  {
    forall i | 0 <= i < |c| ensures a[i] == c[i] || (ns && a[i] == StripNS(c[i])) {
      StripNSIdempotent(c[i]);
    }
  }

  lemma OneMoreKid(kids: seq<SchemaNode>, i: nat, name: string, carried: Option<SchemaNode>)
    requires i < |kids|
    ensures IsKey(kids[..i + 1], name) <==> IsKey(kids[..i], name) || (kids[i].name == name && kids[i].key)
    ensures LastNamed(kids[..i + 1], name, carried) ==
            if kids[i].name == name then Some(kids[i]) else LastNamed(kids[..i], name, carried)
  {
    var more := kids[..i + 1];
    assert more == kids[..i] + [kids[i]];
    assert more[..|more| - 1] == kids[..i];
  }

  /** A key field: its tag is appended to the tags of the level. */
  method AddKey(c: WalkConfig, field: Field, p: Slice<string>, tags: Slice<KeyInfo>, grow: nat -> nat,
                ghost path: seq<string>)
    returns (newTags: Slice<KeyInfo>)
    requires InBounds(p) && InBounds(tags) && p.arr as object != tags.arr as object
    requires SomeStripped(c.removeNS, Elems(p), path)
    modifies p.arr, tags.arr
    ensures Elems(tags) == old(Elems(tags))
    ensures SomeStripped(c.removeNS, Elems(p), path)
    ensures InBounds(newTags) && newTags.len > tags.len && (newTags.arr == tags.arr || fresh(newTags.arr))
    ensures Elems(newTags) == old(Elems(tags)) + [KeyOf(c, path, field)]
  {
    ghost var now := Elems(p);
    SomeStrippedStrip(c.removeNS, now, path);
    var parent := GetParentPath(p, c.removeNS);
    SomeStrippedTrans(c.removeNS, Elems(p), now, path);
    newTags := Append(tags, KeyInfo(parent + "@" + field.name, StringOf(field.value)), grow);
  }

  /** The inner loop over the schema: the field's key becomes a tag, and its node becomes the current one. */
  method MatchField(c: WalkConfig, n: Option<SchemaNode>, field: Field, p: Slice<string>, tags: Slice<KeyInfo>,
                    cur: Slice<KeyInfo>, carried: Option<SchemaNode>, grow: nat -> nat)
    returns (newTags: Slice<KeyInfo>, matched: Option<SchemaNode>)
    requires InBounds(p) && InBounds(tags) && InBounds(cur)
    requires p.arr as object != tags.arr as object && p.arr as object != cur.arr as object
    modifies p.arr, tags.arr
    ensures Elems(tags) == old(Elems(tags))
    ensures SomeStripped(c.removeNS, Elems(p), old(Elems(p)))
    ensures newTags == cur || (newTags.len > tags.len && (newTags.arr == tags.arr || fresh(newTags.arr)))
    ensures InBounds(newTags) && Elems(newTags) ==
      NextTags(c, n, old(Elems(p)), old(Elems(tags)), old(Elems(cur)), field)
    ensures matched == LastNamed(KidsOf(n), field.name, carried)
  {
    newTags, matched := cur, carried;
    var kids := KidsOf(n);
    ghost var path, base, curWas := Elems(p), Elems(tags), Elems(cur);
    ghost var added := false;
    for i := 0 to |kids|
      invariant Elems(tags) == base && SomeStripped(c.removeNS, Elems(p), path)
      invariant added == IsKey(kids[..i], field.name)
      invariant !added ==> newTags == cur && Elems(cur) == curWas
      invariant added ==> newTags.len > tags.len && (newTags.arr == tags.arr || fresh(newTags.arr))
      invariant added ==> InBounds(newTags) && Elems(newTags) == base + [KeyOf(c, path, field)]
      invariant matched == LastNamed(kids[..i], field.name, carried)
    {
      OneMoreKid(kids, i, field.name, carried);
      if field.name == kids[i].name {
        if kids[i].key {
          newTags := AddKey(c, field, p, tags, grow, path);
          added := true;
        }
        matched := Some(kids[i]);
      }
    }
    assert kids[..|kids|] == kids;
  }

  /** A child's path slice: it may share the parent's array, and an unnamed container gets an empty one. */
  method AppendName(p: Slice<string>, name: string, grow: nat -> nat) returns (q: Slice<string>)
    requires InBounds(p)
    modifies p.arr
    ensures InBounds(q) && Elems(q) == ChildPath(old(Elems(p)), name)
    ensures Elems(p) == old(Elems(p))
    ensures fresh(q.arr) || (q.arr == p.arr && p.len <= q.len)
  {
    if name != "" {
      q := Append(p, name, grow);
    } else {
      var nothing := new string[0];
      q := Slice(nothing, 0);
    }
  }

  /** Metrics reach the channel only when there is a database client. */
  function Sent(c: WalkConfig, ms: seq<Metric>): seq<Metric> {
    if c.connected then ms else []
  }

  lemma SentCons(c: WalkConfig, queued: seq<Metric>, first: seq<Metric>, rest: seq<Metric>)
    ensures queued + Sent(c, first) + Sent(c, rest) == queued + Sent(c, first + rest)
  {
  }

  /** A leaf becomes one metric. */
  method EmitLeaf(c: WalkConfig, field: Field, p: Slice<string>, tags: Slice<KeyInfo>, ts: nat, out: Queue)
    requires InBounds(p) && InBounds(tags) && p.arr as object != tags.arr as object
    modifies p.arr, out
    ensures SomeStripped(c.removeNS, Elems(p), old(Elems(p)))
    ensures out.metrics == old(out.metrics) + Sent(c, [LeafMetric(c, old(Elems(p)), Elems(tags), field, ts)])
  {
    var parent := GetParentPath(p, c.removeNS);
    var tagsM := CollectTags(tags);
    var m := Metric(tagsM, map[parent + field.name := DatumOf(field.value, c.enableUint)], ts);
    if c.connected {
      out.metrics := out.metrics + [m];
    }
  }

  /** A field below the current tags: a leaf, or a container to descend into. */
  method WalkField(c: WalkConfig, matched: Option<SchemaNode>, field: Field, p: Slice<string>, tags: Slice<KeyInfo>,
                   ts: nat,
                   grow: nat -> nat, out: Queue)
    requires InBounds(p) && InBounds(tags) && p.arr as object != tags.arr as object
    modifies p.arr, tags.arr, out
    ensures Elems(tags) == old(Elems(tags))
    ensures SomeStripped(c.removeNS, Elems(p), old(Elems(p)))
    ensures out.metrics == old(out.metrics) +
      Sent(c, FieldMetrics(c, matched, field, old(Elems(p)), old(Elems(tags)), ts))
    decreases field, 0
  {
    match field.kids {
      case NoKids =>
        EmitLeaf(c, field, p, tags, ts, out);
      case Kids(fields) =>
        ghost var path := Elems(p);
        var q := AppendName(p, field.name, grow);
        Walk(c, matched, fields, q, tags, ts, grow, out);
        assert q.arr == p.arr ==> forall i :: 0 <= i < p.len ==> p.arr[i] == Elems(q)[i];
    }
  }

  /** One round of the loop over the fields; `path` is the path before any stripping. */
  method WalkStep(c: WalkConfig, n: Option<SchemaNode>, field: Field, p: Slice<string>, tags: Slice<KeyInfo>,
                  cur: Slice<KeyInfo>, carried: Option<SchemaNode>, ts: nat, grow: nat -> nat, out: Queue,
                  ghost path: seq<string>)
    returns (newTags: Slice<KeyInfo>, matched: Option<SchemaNode>)
    requires InBounds(p) && InBounds(tags) && InBounds(cur)
    requires p.arr as object != tags.arr as object && p.arr as object != cur.arr as object
    requires cur.arr == tags.arr ==> tags.len <= cur.len
    requires SomeStripped(c.removeNS, Elems(p), path)
    modifies p.arr, tags.arr, cur.arr, out
    ensures Elems(tags) == old(Elems(tags))
    ensures SomeStripped(c.removeNS, Elems(p), path)
    ensures newTags == cur || (newTags.len > tags.len && (newTags.arr == tags.arr || fresh(newTags.arr)))
    ensures InBounds(newTags) && Elems(newTags) == NextTags(c, n, path, old(Elems(tags)), old(Elems(cur)), field)
    ensures matched == LastNamed(KidsOf(n), field.name, carried)
    ensures out.metrics == old(out.metrics) + Sent(c, FieldMetrics(c, matched, field, path, Elems(newTags), ts))
    decreases field, 1
  {
    ghost var pathNow, base, curWas := Elems(p), Elems(tags), Elems(cur);
    newTags, matched := MatchField(c, n, field, p, tags, cur, carried, grow);
    ghost var pathThen, curNow := Elems(p), Elems(newTags);
    StillTheSame(c, n, field, pathThen, pathNow, path, base, curWas);
    WalkField(c, matched, field, p, newTags, ts, grow, out);
    SomeStrippedTrans(c.removeNS, Elems(p), pathThen, path);
    FieldUpToStripping(c, matched, field, pathThen, path, curNow, ts);
    assert Elems(newTags) == curNow;
    assert newTags.arr == tags.arr ==> Elems(tags) == curNow[..tags.len];
  }

  /**
   walk: for every tree, schema, slice capacity and growth policy, the metrics are those of the
   pure walk. The caller's tags are as they were, and its path is at most stripped.
   */
  method Walk(c: WalkConfig, n: Option<SchemaNode>, f: seq<Field>, p: Slice<string>, tags: Slice<KeyInfo>, ts: nat,
              grow: nat -> nat, out: Queue)
    requires InBounds(p) && InBounds(tags) && p.arr as object != tags.arr as object
    modifies p.arr, tags.arr, out
    ensures Elems(tags) == old(Elems(tags))
    ensures SomeStripped(c.removeNS, Elems(p), old(Elems(p)))
    ensures out.metrics == old(out.metrics) + Sent(c, WalkMetrics(c, n, f, old(Elems(p)), old(Elems(tags)), ts))
    decreases f
  {
    var matched: Option<SchemaNode> := None;
    var newTags := tags;
    ghost var path, base, emitted := Elems(p), Elems(tags), out.metrics;
    for i := 0 to |f|
      invariant InBounds(newTags) && (newTags.arr == tags.arr || fresh(newTags.arr))
      invariant newTags.len >= tags.len
      invariant Elems(tags) == base
      invariant SomeStripped(c.removeNS, Elems(p), path)
      invariant out.metrics + Sent(c, PureWalk(c, n, f, i, path, base, Elems(newTags), matched, ts))
                == emitted + Sent(c, WalkMetrics(c, n, f, path, base, ts))
    {
      ghost var queued := out.metrics;
      newTags, matched := WalkStep(c, n, f[i], p, tags, newTags, matched, ts, grow, out, path);
      SentCons(c, queued, FieldMetrics(c, matched, f[i], path, Elems(newTags), ts),
               PureWalk(c, n, f, i + 1, path, base, Elems(newTags), matched, ts));
    }
  }

  /** A partly stripped path gives the same tags as the original one. */
  lemma StillTheSame(c: WalkConfig, n: Option<SchemaNode>, field: Field, now: seq<string>, mid: seq<string>,
                     was: seq<string>,
                     tags: seq<KeyInfo>, cur: seq<KeyInfo>)
    requires SomeStripped(c.removeNS, now, mid) && SomeStripped(c.removeNS, mid, was)
    ensures SomeStripped(c.removeNS, now, was)
    ensures Strip(c.removeNS, now) == Strip(c.removeNS, was)
    ensures NextTags(c, n, mid, tags, cur, field) == NextTags(c, n, was, tags, cur, field)
  {
    SomeStrippedTrans(c.removeNS, now, mid, was);
    SomeStrippedStrip(c.removeNS, now, was);
    SomeStrippedStrip(c.removeNS, mid, was);
  }

  // ---------- one message ----------

  /** getContentFromMessage: the first field named "content", else the last field there is. */
  method FindContent(fields: seq<Field>) returns (content: Option<Field>)
    ensures content == ContentOf(fields)
  {
    content := None;
    for i := 0 to |fields|
      invariant forall j :: 0 <= j < i ==> fields[j].name != "content"
      invariant content == if i == 0 then None else Some(fields[i - 1])
    {
      content := Some(fields[i]);
      if fields[i].name == "content" {
        NamedContent(fields, i);
        return;
      }
    }
    NoContent(fields);
  }

  function ContentOf(fields: seq<Field>): Option<Field> {
    if fields == [] then None
    else if fields[0].name == "content" || |fields| == 1 then Some(fields[0])
    else ContentOf(fields[1..])
  }

  lemma NamedContent(fields: seq<Field>, i: nat)
    requires i < |fields| && fields[i].name == "content"
    requires forall j :: 0 <= j < i ==> fields[j].name != "content"
    ensures ContentOf(fields) == Some(fields[i])
  {
    if i > 0 {
      NamedContent(fields[1..], i - 1);
    }
  }

  lemma NoContent(fields: seq<Field>)
    requires forall j :: 0 <= j < |fields| ==> fields[j].name != "content"
    ensures ContentOf(fields) == if fields == [] then None else Some(fields[|fields| - 1])
  {
    if |fields| > 1 {
      NoContent(fields[1..]);
    }
  }

  function FieldsOf(kids: Kids): seq<Field> {
    if kids.Kids? then kids.fields else []
  }

  function TopLevelTags(host: string, sensor: string): seq<KeyInfo> {
    [KeyInfo("device", host), KeyInfo("sensor", sensor), KeyInfo("vendor", "cisco")]
  }

  /** What a top-level message means: the walk of its content under the three fixed tags. */
  function TopLevelMetrics(c: WalkConfig, host: string, node: SchemaNode, message: Field, ts: nat): seq<Metric> {
    var content := ContentOf(FieldsOf(message.kids));
    if content.None? then []
    else WalkMetrics(c, Some(node), FieldsOf(content.value.kids), [node.name], TopLevelTags(host, node.name), ts)
  }

  /** One row of a top-level message, with the slices its caller makes for it. */
  method ProcessTopLevelMsg(c: WalkConfig, host: string, node: SchemaNode, message: Field, ts: nat, grow: nat -> nat,
                            out: Queue)
    modifies out
    ensures out.metrics == old(out.metrics) + Sent(c, TopLevelMetrics(c, host, node, message, ts))
  {
    var parentPath := new string[] [node.name];
    var content := FindContent(FieldsOf(message.kids));
    if content.Some? {
      var tags := new KeyInfo[] [KeyInfo("device", host), KeyInfo("sensor", parentPath[0]), KeyInfo("vendor", "cisco")];
      var p, t := Slice(parentPath, 1), Slice(tags, 3);
      assert Elems(t) == TopLevelTags(host, node.name) && Elems(p) == [node.name];
      Walk(c, Some(node), FieldsOf(content.value.kids), p, t, ts, grow, out);
    }
  }
}

/**
 What the walk emits, said without a walk: every leaf of the tree has a position (the index to
 take at each level), and its metric is a function of that position alone.
 */
module CiscoLeaves {
  import opened Text
  import opened Points
  import opened CiscoWalk

  type Position = seq<nat>

  predicate IsLeafAt(f: seq<Field>, pos: Position)
    decreases |pos|
  {
    && pos != [] && pos[0] < |f|
    && if |pos| == 1 then f[pos[0]].kids.NoKids?
       else f[pos[0]].kids.Kids? && IsLeafAt(f[pos[0]].kids.fields, pos[1..])
  }

  /** Lexicographic order on positions is the order of a pre-order traversal. */
  predicate Before(a: Position, b: Position) {
    if a == [] || b == [] then a == [] && b != []
    else a[0] < b[0] || (a[0] == b[0] && Before(a[1..], b[1..]))
  }

  /** The tags in force at field i: the level's tags, and its last key at or before i. */
  function TagsAt(c: WalkConfig, n: Option<SchemaNode>, f: seq<Field>, i: int, p: seq<string>,
                  tags: seq<KeyInfo>): seq<KeyInfo>
    requires i < |f|
    decreases i + 1
  {
    if i < 0 then tags
    else if IsKey(KidsOf(n), f[i].name) then tags + [KeyOf(c, p, f[i])]
    else TagsAt(c, n, f, i - 1, p, tags)
  }

  /** The schema node in force at field i: that of the last field at or before i which the schema knows. */
  function NodeAt(n: Option<SchemaNode>, f: seq<Field>, i: int): Option<SchemaNode>
    requires i < |f|
    decreases i + 1
  {
    if i < 0 then None
    else if exists k :: k in KidsOf(n) && k.name == f[i].name then LastNamed(KidsOf(n), f[i].name, None)
    else NodeAt(n, f, i - 1)
  }

  /** The schema lists a field of this name as a key. */
  ghost predicate KeyListed(n: Option<SchemaNode>, name: string) {
    n.Some? && exists k :: 0 <= k < |n.value.kids| && n.value.kids[k].name == name && n.value.kids[k].key
  }

  /** The schema lists a field of this name. */
  ghost predicate Listed(n: Option<SchemaNode>, name: string) {
    n.Some? && exists k :: 0 <= k < |n.value.kids| && n.value.kids[k].name == name
  }

  /**
   The one tag that a level adds is its last key so far, named by the path between slashes, an at sign and its name.
   */
  lemma {:induction false} TagsAtIs(c: WalkConfig, n: Option<SchemaNode>, f: seq<Field>, i: nat, p: seq<string>,
                                    tags: seq<KeyInfo>, j: nat)
    requires j <= i < |f| && KeyListed(n, f[j].name) && forall l :: j < l <= i ==> !KeyListed(n, f[l].name)
    ensures TagsAt(c, n, f, i, p, tags) ==
      tags + [KeyInfo(Trail(Strip(c.removeNS, p)) + "@" + f[j].name, StringOf(f[j].value))]
    decreases i
  {
    ParentPathText(c.removeNS, p);
    KeyListedIff(n, f[i].name);
    if j < i {
      TagsAtIs(c, n, f, i - 1, p, tags, j);
    }
  }

  /** Without a key so far a level adds no tag. */
  lemma {:induction false} TagsAtNone(c: WalkConfig, n: Option<SchemaNode>, f: seq<Field>, i: int, p: seq<string>,
                                      tags: seq<KeyInfo>)
    requires i < |f| && forall l :: 0 <= l <= i ==> !KeyListed(n, f[l].name)
    ensures TagsAt(c, n, f, i, p, tags) == tags
    decreases i + 1
  {
    if i >= 0 {
      KeyListedIff(n, f[i].name);
      TagsAtNone(c, n, f, i - 1, p, tags);
    }
  }

  lemma KeyListedIff(n: Option<SchemaNode>, name: string)
    ensures IsKey(KidsOf(n), name) <==> KeyListed(n, name)
    ensures (exists k :: k in KidsOf(n) && k.name == name) <==> Listed(n, name)
  {
    var kids := KidsOf(n);
    if IsKey(kids, name) {
      var k :| k in kids && k.name == name && k.key;
      var i :| 0 <= i < |kids| && kids[i] == k;
    }
    if k :| k in kids && k.name == name {
      var i :| 0 <= i < |kids| && kids[i] == k;
    }
  }

  /**
   The schema node below field i is that of the last field so far that the schema lists: its last node of that name.
   */
  lemma {:induction false} NodeAtIs(n: Option<SchemaNode>, f: seq<Field>, i: nat, j: nat, k: nat)
    requires j <= i < |f| && Listed(n, f[j].name) && forall l :: j < l <= i ==> !Listed(n, f[l].name)
    requires k < |n.value.kids| && n.value.kids[k].name == f[j].name
    requires forall l :: k < l < |n.value.kids| ==> n.value.kids[l].name != f[j].name
    ensures NodeAt(n, f, i) == Some(n.value.kids[k])
    decreases i
  {
    KeyListedIff(n, f[i].name);
    if j < i {
      NodeAtIs(n, f, i - 1, j, k);
    } else {
      LastNamedIs(n.value.kids, f[j].name, k);
    }
  }

  lemma {:induction false} LastNamedIs(kids: seq<SchemaNode>, name: string, k: nat)
    requires k < |kids| && kids[k].name == name && forall l :: k < l < |kids| ==> kids[l].name != name
    ensures LastNamed(kids, name, None) == Some(kids[k])
  {
    if k < |kids| - 1 {
      LastNamedIs(kids[..|kids| - 1], name, k);
    }
  }

  /** The metric of the leaf at a position. */
  function MetricAt(c: WalkConfig, n: Option<SchemaNode>, f: seq<Field>, p: seq<string>, tags: seq<KeyInfo>,
                    pos: Position, ts: nat): Metric
    requires IsLeafAt(f, pos)
    decreases |pos|
  {
    var i := pos[0];
    var cur := TagsAt(c, n, f, i, p, tags);
    if |pos| == 1 then LeafMetric(c, p, cur, f[i], ts)
    else MetricAt(c, NodeAt(n, f, i), f[i].kids.fields, ChildPath(p, f[i].name), cur, pos[1..], ts)
  }

  /** All leaf positions from field k on, in pre-order. */
  function Positions(f: seq<Field>, k: nat): seq<Position>
    requires k <= |f|
    decreases f, |f| - k
  {
    if k == |f| then [] else FieldPositions(f[k], k) + Positions(f, k + 1)
  }

  function FieldPositions(field: Field, k: nat): seq<Position>
    decreases field
  {
    match field.kids
    case NoKids => [[k]]
    case Kids(fields) => Under(k, Positions(fields, 0))
  }

  function Under(k: nat, ps: seq<Position>): (r: seq<Position>)
    ensures |r| == |ps|
    ensures forall i :: 0 <= i < |ps| ==> r[i] == [k] + ps[i]
  {
    seq(|ps|, i requires 0 <= i < |ps| => [k] + ps[i])
  }

  /** Every listed position is one of a leaf. */
  lemma {:induction false} PositionsSound(f: seq<Field>, k: nat, i: nat)
    requires k <= |f| && i < |Positions(f, k)|
    ensures IsLeafAt(f, Positions(f, k)[i]) && Positions(f, k)[i][0] >= k
    decreases f, |f| - k
  {
    var here := FieldPositions(f[k], k);
    if i >= |here| {
      PositionsSound(f, k + 1, i - |here|);
    } else if f[k].kids.Kids? {
      PositionsSound(f[k].kids.fields, 0, i);
      assert here[i][1..] == Positions(f[k].kids.fields, 0)[i];
    }
  }

  /** Every leaf's position is listed. */
  lemma {:induction false} PositionsComplete(f: seq<Field>, k: nat, pos: Position) returns (i: nat)
    requires k <= |f| && IsLeafAt(f, pos) && pos[0] >= k
    ensures i < |Positions(f, k)| && Positions(f, k)[i] == pos
    decreases f, |f| - k
  {
    var here := FieldPositions(f[k], k);
    if pos[0] > k {
      var j := PositionsComplete(f, k + 1, pos);
      i := |here| + j;
    } else if f[k].kids.NoKids? {
      i := 0;
      assert pos == [k];
    } else {
      i := PositionsComplete(f[k].kids.fields, 0, pos[1..]);
      assert here[i] == [k] + pos[1..] == pos;
    }
  }

  /** The list is in pre-order, and so no position is listed twice. */
  lemma {:induction false} PositionsOrdered(f: seq<Field>, k: nat, i: nat, j: nat)
    requires k <= |f| && i < j < |Positions(f, k)|
    ensures Before(Positions(f, k)[i], Positions(f, k)[j])
    ensures Positions(f, k)[i] != Positions(f, k)[j]
    decreases f, |f| - k
  {
    var here := FieldPositions(f[k], k);
    if i >= |here| {
      PositionsOrdered(f, k + 1, i - |here|, j - |here|);
    } else if j >= |here| {
      PositionsSound(f, k + 1, j - |here|);
      PositionsSound(f, k, i);
    } else {
      var inner := Positions(f[k].kids.fields, 0);
      PositionsOrdered(f[k].kids.fields, 0, i, j);
      assert here[i][1..] == inner[i] && here[j][1..] == inner[j];
    }
  }

  lemma LastNamedKnown(kids: seq<SchemaNode>, name: string, carried: Option<SchemaNode>)
    ensures LastNamed(kids, name, carried) ==
            if exists k :: k in kids && k.name == name then LastNamed(kids, name, None) else carried
  {
  }

  /** The walk emits, at each index, the metric of the leaf with that rank in pre-order. */
  lemma {:induction false} WalkByPosition(c: WalkConfig, n: Option<SchemaNode>, f: seq<Field>, k: nat,
                                          p: seq<string>, tags: seq<KeyInfo>, ts: nat)
    requires k <= |f|
    ensures var ms, ps := PureWalk(c, n, f, k, p, tags, TagsAt(c, n, f, k - 1, p, tags), NodeAt(n, f, k - 1), ts),
      Positions(f, k);
            && |ms| == |ps|
            && forall i :: 0 <= i < |ps| ==> IsLeafAt(f, ps[i]) && ms[i] == MetricAt(c, n, f, p, tags, ps[i], ts)
    decreases f, |f| - k
  {
    if k < |f| {
      LastNamedKnown(KidsOf(n), f[k].name, NodeAt(n, f, k - 1));
      WalkByPosition(c, n, f, k + 1, p, tags, ts);
      FieldByPosition(c, n, f, k, p, tags, ts);
    }
  }

  lemma {:induction false} FieldByPosition(c: WalkConfig, n: Option<SchemaNode>, f: seq<Field>, k: nat,
                                           p: seq<string>, tags: seq<KeyInfo>, ts: nat)
    requires k < |f|
    ensures var ms, ps := FieldMetrics(c, NodeAt(n, f, k), f[k], p, TagsAt(c, n, f, k, p, tags), ts),
      FieldPositions(f[k], k);
            && |ms| == |ps|
            && forall i :: 0 <= i < |ps| ==> IsLeafAt(f, ps[i]) && ms[i] == MetricAt(c, n, f, p, tags, ps[i], ts)
    decreases f[k]
  {
    match f[k].kids
    case NoKids =>
    case Kids(fields) =>
      var cur, q := TagsAt(c, n, f, k, p, tags), ChildPath(p, f[k].name);
      WalkByPosition(c, NodeAt(n, f, k), fields, 0, q, cur, ts);
      var inner, ps := Positions(fields, 0), FieldPositions(f[k], k);
      forall i | 0 <= i < |ps|
        ensures IsLeafAt(f, ps[i])
        ensures MetricAt(c, n, f, p, tags, ps[i], ts) == MetricAt(c, NodeAt(n, f, k), fields, q, cur, inner[i], ts)
      {
        assert ps[i][1..] == inner[i];
      }
  }
}

/** What a notification contains, said of its updates and deletes one by one (gnmi_utils.go, subscribe_gnmi.go). */
module GnmiContents {
  import opened Text
  import opened Points
  import opened GnmiPaths
  import opened GnmiNotification

  // ---------- writing maps one after the other ----------

  /** The map after all items have written theirs, the last one last. */
  function Merged<T, V>(items: seq<T>, writes: T -> map<string, V>, start: map<string, V>): map<string, V> {
    if items == [] then start else Merged(items[..|items| - 1], writes, start) + writes(items[|items| - 1])
  }

  /** The i-th item writes x, and no later one does. */
  ghost predicate WritesLast<T(!new), V(!new)>(items: seq<T>, writes: T -> map<string, V>, i: int, x: string) {
    0 <= i < |items| && x in writes(items[i]) && forall j :: i < j < |items| ==> x !in writes(items[j])
  }

  lemma {:induction false} MergedAt<T(!new), V(!new)>(items: seq<T>, writes: T -> map<string, V>, start: map<string, V>,
                                                      x: string)
    ensures x in Merged(items, writes, start) <==> x in start || exists i :: 0 <= i < |items| && x in writes(items[i])
    ensures forall i :: WritesLast(items, writes, i, x) ==>
              x in Merged(items, writes, start) && Merged(items, writes, start)[x] == writes(items[i])[x]
    ensures (forall i :: 0 <= i < |items| ==> x !in writes(items[i])) && x in start ==>
              Merged(items, writes, start)[x] == start[x]
  {
    if items != [] {
      var k := |items| - 1;
      var init := items[..k];
      MergedAt(init, writes, start, x);
      assert Merged(items, writes, start) == Merged(init, writes, start) + writes(items[k]);
      hide Merged;
      assert forall i :: 0 <= i < k ==> init[i] == items[i];
      forall i | WritesLast(items, writes, i, x)
        ensures if x in writes(items[k]) then i == k else WritesLast(init, writes, i, x) && init[i] == items[i]
      {
      }
      hide WritesLast;
    }
  }

  // ---------- the kinds of updates ----------

  predicate HasName(pes: seq<PathElem>, name: string) {
    exists i :: 0 <= i < |pes| && pes[i].name == name
  }

  predicate IsHeader(u: Update) {
    u.path.Some? && HasName(u.path.value, "__juniper_telemetry_header__")
  }

  /** An update of the publish timestamp; an update that also names the header counts as a header. */
  predicate IsStamp(u: Update) {
    u.path.Some? && HasName(u.path.value, "__timestamp__") && !IsHeader(u)
  }

  predicate IsPlain(u: Update) {
    u.path.Some? && !IsHeader(u) && !IsStamp(u)
  }

  /** The path of the prefix: the origin and a colon, if asked for and given, and then the elements. */
  function PrefixText(parseOrigin: bool, prefix: Prefix): string {
    XPath(if parseOrigin && prefix.origin != "" then prefix.origin + ":" else "", prefix.elems)
  }

  /** What an update writes into the xpaths. */
  function PlainWrite(pp: string, u: Update): Xpaths {
    if IsPlain(u) then map[XPath(pp, u.path.value) := u.value.plain] else map[]
  }

  /** What an update writes into the Juniper fields. */
  function JuniperWrite(pp: string, u: Update): Xpaths {
    if IsHeader(u) then map[XPath(pp, u.path.value) := u.value.plain]
    else if IsStamp(u) then map[XPath(pp, u.path.value) := u.value.stamp]
    else map[]
  }

  function TagWrite(pp: string, u: Update): Tags {
    if u.path.Some? then TagsOf(pp, u.path.value) else map[]
  }

  function DeleteWrite(pp: string, d: seq<PathElem>): Xpaths {
    map[XPath(pp, d) := None]
  }

  lemma {:induction false} ReservedNames(pes: seq<PathElem>)
    ensures HEADER_FIELD in Internal(pes, RESERVED) <==> HasName(pes, "__juniper_telemetry_header__")
    ensures PUBLISH_TS_FIELD in Internal(pes, RESERVED) <==> HasName(pes, "__timestamp__")
    ensures Internal(pes, RESERVED) <= {HEADER_FIELD, PUBLISH_TS_FIELD}
  {
    assert HEADER_FIELD[..2] == "__" && PUBLISH_TS_FIELD[..2] == "__";
    if HasName(pes, "__juniper_telemetry_header__") {
      var i :| 0 <= i < |pes| && pes[i].name == "__juniper_telemetry_header__";
      assert pes[i].name in RESERVED;
    }
    if HasName(pes, "__timestamp__") {
      var i :| 0 <= i < |pes| && pes[i].name == "__timestamp__";
      assert pes[i].name in RESERVED;
    }
  }

  /** The kinds as the program tells them, by the reserved names it found. */
  lemma {:induction false} Kinds(u: Update)
    ensures u.path.None? ==> !IsPlain(u) && !IsHeader(u) && !IsStamp(u)
    ensures u.path.Some? ==> (IsPlain(u) <==> Internal(u.path.value, RESERVED) == {})
    ensures u.path.Some? ==> (IsHeader(u) <==> HEADER_FIELD in Internal(u.path.value, RESERVED))
    ensures u.path.Some? ==> (IsStamp(u) <==> !IsPlain(u) && !IsHeader(u))
  {
    if u.path.Some? {
      ReservedNames(u.path.value);
      var found := Internal(u.path.value, RESERVED);
      hide Internal;
      hide HasName;
      assert found == {} <==> HEADER_FIELD !in found && PUBLISH_TS_FIELD !in found;
    }
  }

  /** What one update does, in terms of its kind. */
  lemma {:induction false} ApplyByKind(pp: string, u: Update, st: Parsed)
    ensures Apply(pp, u, st).None? <==> IsPlain(u) && u.value.plain.None?
    ensures Apply(pp, u, st).Some? ==>
      var t := Apply(pp, u, st).value;
      && t.kv == st.kv + TagWrite(pp, u)
      && t.juniper == (st.juniper || IsHeader(u) || IsStamp(u))
      && t.xpaths == st.xpaths + PlainWrite(pp, u)
      && t.jx.xpaths == st.jx.xpaths + JuniperWrite(pp, u)
      && t.jx.hdr == (if IsHeader(u) then XPath(pp, u.path.value) else st.jx.hdr)
      && t.jx.publishTs == (if IsStamp(u) then XPath(pp, u.path.value) else st.jx.publishTs)
  {
    Kinds(u);
    hide Internal;
    hide XPath;
    hide TagsOf;
    hide IsHeader;
    hide IsStamp;
    hide IsPlain;
    assert st.kv + map[] == st.kv && st.xpaths + map[] == st.xpaths && st.jx.xpaths + map[] == st.jx.xpaths;
  }

  // ---------- all updates ----------

  lemma {:induction false} ApplyLast(pp: string, us: seq<Update>, st: Parsed)
    requires us != []
    ensures var k := |us| - 1; var before := ApplyAll(pp, us[..k], st);
      ApplyAll(pp, us, st) == if before.None? then None else Apply(pp, us[k], before.value)
    decreases |us|
  {
    hide Apply;
    var k := |us| - 1;
    if k > 0 {
      var next := Apply(pp, us[0], st);
      if next.Some? {
        ApplyLast(pp, us[1..], next.value);
        assert us[1..][..k - 1] == us[..k][1..];
      }
      assert us[..k][0] == us[0];
    } else {
      assert us[..0] == [] && us[1..] == [];
    }
  }

  ghost predicate AllConvert(us: seq<Update>) {
    forall i :: 0 <= i < |us| && IsPlain(us[i]) ==> us[i].value.plain.Some?
  }

  /** The whole list of updates as writes, unless a plain value cannot be converted. */
  lemma {:induction false} ApplyAllByKind(pp: string, us: seq<Update>, st: Parsed)
    ensures ApplyAll(pp, us, st).Some? <==> AllConvert(us)
    ensures ApplyAll(pp, us, st).Some? ==>
      var end := ApplyAll(pp, us, st).value;
      && end.kv == Merged(us, u => TagWrite(pp, u), st.kv)
      && end.xpaths == Merged(us, u => PlainWrite(pp, u), st.xpaths)
      && end.jx.xpaths == Merged(us, u => JuniperWrite(pp, u), st.jx.xpaths)
      && (end.juniper <==> st.juniper || exists i :: 0 <= i < |us| && (IsHeader(us[i]) || IsStamp(us[i])))
    decreases |us|
  {
    hide Apply;
    hide IsPlain;
    hide IsHeader;
    hide IsStamp;
    hide TagWrite;
    hide PlainWrite;
    hide JuniperWrite;
    if us != [] {
      var k := |us| - 1;
      ApplyLast(pp, us, st);
      ApplyAllByKind(pp, us[..k], st);
      assert forall i :: 0 <= i < k ==> us[..k][i] == us[i];
      var before := ApplyAll(pp, us[..k], st);
      if before.Some? {
        ApplyByKind(pp, us[k], before.value);
      }
    }
  }

  /** The header is at the path of the last header update. */
  lemma {:induction false} HeaderPath(pp: string, us: seq<Update>, st: Parsed, i: nat)
    requires ApplyAll(pp, us, st).Some?
    requires i < |us| && IsHeader(us[i]) && forall j :: i < j < |us| ==> !IsHeader(us[j])
    ensures ApplyAll(pp, us, st).value.jx.hdr == XPath(pp, us[i].path.value)
    decreases |us|
  {
    hide Apply;
    hide HasName;
    hide XPath;
    var k := |us| - 1;
    ApplyLast(pp, us, st);
    ApplyByKind(pp, us[k], ApplyAll(pp, us[..k], st).value);
    if i < k {
      HeaderPath(pp, us[..k], st, i);
    }
  }

  /** And the publish timestamp at that of the last timestamp update. */
  lemma {:induction false} StampPath(pp: string, us: seq<Update>, st: Parsed, i: nat)
    requires ApplyAll(pp, us, st).Some?
    requires i < |us| && IsStamp(us[i]) && forall j :: i < j < |us| ==> !IsStamp(us[j])
    ensures ApplyAll(pp, us, st).value.jx.publishTs == XPath(pp, us[i].path.value)
    decreases |us|
  {
    hide Apply;
    hide HasName;
    hide XPath;
    var k := |us| - 1;
    ApplyLast(pp, us, st);
    ApplyByKind(pp, us[k], ApplyAll(pp, us[..k], st).value);
    if i < k {
      StampPath(pp, us[..k], st, i);
    }
  }

  // ---------- deletes ----------

  lemma {:induction false} MergedFront<T, V>(items: seq<T>, writes: T -> map<string, V>, start: map<string, V>)
    requires items != []
    ensures Merged(items, writes, start) == Merged(items[1..], writes, start + writes(items[0]))
    decreases |items|
  {
    var k := |items| - 1;
    if k > 0 {
      MergedFront(items[..k], writes, start);
      assert items[..k][1..] == items[1..][..k - 1];
    } else {
      assert items[..0] == [] && items[1..] == [];
    }
  }

  lemma {:induction false} NoItems<T, V>(items: seq<T>, writes: T -> map<string, V>, start: map<string, V>)
    requires items == []
    ensures Merged(items, writes, start) == start
  {
  }

  lemma {:induction false} DeletesByKind(pp: string, ds: seq<seq<PathElem>>, kv: Tags, xs: Xpaths)
    ensures DeleteTags(pp, ds, kv) == Merged(ds, d => TagsOf(pp, d), kv)
    ensures DeleteXpaths(pp, ds, xs) == Merged(ds, d => DeleteWrite(pp, d), xs)
    decreases |ds|
  {
    hide TagsOf;
    hide XPath;
    hide Merged;
    if ds == [] {
      NoItems(ds, d => TagsOf(pp, d), kv);
      NoItems(ds, d => DeleteWrite(pp, d), xs);
    } else {
      DeletesByKind(pp, ds[1..], kv + TagsOf(pp, ds[0]), xs[XPath(pp, ds[0]) := None]);
      MergedFront(ds, d => TagsOf(pp, d), kv);
      MergedFront(ds, d => DeleteWrite(pp, d), xs);
      assert xs[XPath(pp, ds[0]) := None] == xs + DeleteWrite(pp, ds[0]);
    }
  }

  // ---------- the notification ----------

  /** The state before the first update. */
  function Start(parseOrigin: bool, prefix: Prefix): Parsed {
    Parsed(TagsOf(if parseOrigin && prefix.origin != "" then prefix.origin + ":" else "", prefix.elems), map[],
           JuniperXpaths(map[], "", ""), false)
  }

  /** A notification is refused exactly if the value of a plain update cannot be converted. */
  lemma {:induction false} RefusedIff(parseOrigin: bool, prefix: Prefix, us: seq<Update>, ds: seq<seq<PathElem>>)
    ensures Notification(parseOrigin, prefix, us, ds).None? <==>
      exists i :: 0 <= i < |us| && IsPlain(us[i]) && us[i].value.plain.None?
  {
    var pp, st := PrefixText(parseOrigin, prefix), Start(parseOrigin, prefix);
    ApplyAllByKind(pp, us, st);
    StartIs(parseOrigin, prefix);
    hide IsPlain;
    hide ApplyAll;
  }

  lemma {:induction false} StartIs(parseOrigin: bool, prefix: Prefix)
    ensures PrefixPath(parseOrigin, prefix, "") == PrefixText(parseOrigin, prefix)
    ensures PrefixTags(parseOrigin, prefix, "", map[]) == Start(parseOrigin, prefix).kv
  {
  }

  /** The output: the state after the updates, and the deletes on top of it. */
  lemma {:induction false} Parts(parseOrigin: bool, prefix: Prefix, us: seq<Update>, ds: seq<seq<PathElem>>)
    requires Notification(parseOrigin, prefix, us, ds).Some? && (us != [] || ds != [])
    ensures var out, pp := Notification(parseOrigin, prefix, us, ds).value, PrefixText(parseOrigin, prefix);
      var end := ApplyAll(pp, us, Start(parseOrigin, prefix));
      && out.prefixPath == pp && end.Some?
      && out.xpaths == DeleteXpaths(pp, ds, end.value.xpaths)
      && out.jXpaths == (if end.value.juniper then Some(end.value.jx) else None)
      && out.kvpairs == WithPrefixTags(prefix, DeleteTags(pp, ds, end.value.kv))
  {
    StartIs(parseOrigin, prefix);
    var pp, st := PrefixText(parseOrigin, prefix), Start(parseOrigin, prefix);
    assert ApplyAll(pp, [], st) == Some(st);
    var end := ApplyAll(pp, us, st).value;
    PrefixAgain(parseOrigin, prefix, end.kv);
    hide ApplyAll;
    hide TagsOf;
    hide XPath;
  }

  /** Some delete names the path. */
  ghost predicate Deleted(ds: seq<seq<PathElem>>, pp: string, x: string) {
    exists j :: 0 <= j < |ds| && XPath(pp, ds[j]) == x
  }

  /** The i-th update is a plain one of this path. */
  ghost predicate PlainAt(us: seq<Update>, pp: string, i: int, x: string) {
    0 <= i < |us| && IsPlain(us[i]) && XPath(pp, us[i].path.value) == x
  }

  /** The i-th update is a header or a timestamp at this path. */
  ghost predicate JuniperAt(us: seq<Update>, pp: string, i: int, x: string) {
    0 <= i < |us| && (IsHeader(us[i]) || IsStamp(us[i])) && XPath(pp, us[i].path.value) == x
  }

  /** The i-th update has a key that gives this tag. */
  ghost predicate TagAt(us: seq<Update>, pp: string, i: int, t: string) {
    0 <= i < |us| && us[i].path.Some? && t in TagsOf(pp, us[i].path.value)
  }

  /**
   The xpaths of a notification are the paths of its deletes and of its plain updates. A deleted path has no value; any
   other has the value of the last update with it.
   */
  lemma {:induction false} NotificationXpaths(parseOrigin: bool, prefix: Prefix, us: seq<Update>,
                                              ds: seq<seq<PathElem>>, x: string)
    requires Notification(parseOrigin, prefix, us, ds).Some?
    ensures var out, pp := Notification(parseOrigin, prefix, us, ds).value, PrefixText(parseOrigin, prefix);
      && (x in out.xpaths <==> Deleted(ds, pp, x) || exists i :: PlainAt(us, pp, i, x))
      && (Deleted(ds, pp, x) ==> out.xpaths[x] == None)
      && (!Deleted(ds, pp, x) ==>
            forall i :: PlainAt(us, pp, i, x) && (forall j :: i < j < |us| ==> !PlainAt(us, pp, j, x)) ==>
              out.xpaths[x] == us[i].value.plain)
  {
    if us != [] || ds != [] {
      var pp, st := PrefixText(parseOrigin, prefix), Start(parseOrigin, prefix);
      Parts(parseOrigin, prefix, us, ds);
      ApplyAllByKind(pp, us, st);
      var end := ApplyAll(pp, us, st).value;
      DeletesByKind(pp, ds, end.kv, end.xpaths);
      hide Notification;
      hide ApplyAll;
      PlainMerged(pp, us, x);
      DeleteMerged(pp, ds, end.xpaths, x);
      hide IsPlain;
      hide XPath;
      hide Merged;
    }
  }

  lemma {:induction false} PlainMerged(pp: string, us: seq<Update>, x: string)
    ensures var m := Merged(us, u => PlainWrite(pp, u), map[]);
      && (x in m <==> exists i :: PlainAt(us, pp, i, x))
      && forall i :: PlainAt(us, pp, i, x) && (forall j :: i < j < |us| ==> !PlainAt(us, pp, j, x)) ==>
           x in m && m[x] == us[i].value.plain
  {
    hide IsPlain;
    hide XPath;
    var writes := u => PlainWrite(pp, u);
    MergedAt(us, writes, map[], x);
    hide Merged;
    forall i | 0 <= i < |us| ensures x in writes(us[i]) <==> PlainAt(us, pp, i, x) {
      PlainHasPath(us[i]);
    }
    forall i | PlainAt(us, pp, i, x) && (forall j :: i < j < |us| ==> !PlainAt(us, pp, j, x))
      ensures WritesLast(us, writes, i, x)
    {
    }
  }

  lemma {:induction false} PlainHasPath(u: Update)
    ensures IsPlain(u) ==> u.path.Some?
  {
  }

  lemma {:induction false} DeleteMerged(pp: string, ds: seq<seq<PathElem>>, xs: Xpaths, x: string)
    ensures var m := Merged(ds, d => DeleteWrite(pp, d), xs);
      && (x in m <==> x in xs || Deleted(ds, pp, x))
      && (Deleted(ds, pp, x) ==> m[x] == None)
      && (!Deleted(ds, pp, x) && x in xs ==> m[x] == xs[x])
  {
    hide XPath;
    var writes := d => DeleteWrite(pp, d);
    MergedAt(ds, writes, xs, x);
    hide Merged;
    assert forall j :: 0 <= j < |ds| ==> (x in writes(ds[j]) <==> XPath(pp, ds[j]) == x);
    if Deleted(ds, pp, x) {
      var j := LastDelete(ds, pp, x);
      assert WritesLast(ds, writes, j, x);
    }
  }

  lemma {:induction false} LastDelete(ds: seq<seq<PathElem>>, pp: string, x: string) returns (j: nat)
    requires Deleted(ds, pp, x)
    ensures j < |ds| && XPath(pp, ds[j]) == x && forall l :: j < l < |ds| ==> XPath(pp, ds[l]) != x
  {
    hide XPath;
    var k := |ds| - 1;
    if XPath(pp, ds[k]) == x {
      j := k;
    } else {
      var l :| 0 <= l < |ds| && XPath(pp, ds[l]) == x;
      assert ds[..k][l] == ds[l];
      j := LastDelete(ds[..k], pp, x);
    }
  }

  /**
   The Juniper fields of a notification: there are some exactly if an update names the header or the timestamp; each
   is under its own path, the header with its plain conversion and the timestamp with its own.
   */
  lemma {:induction false} NotificationJuniper(parseOrigin: bool, prefix: Prefix, us: seq<Update>,
                                               ds: seq<seq<PathElem>>, x: string)
    requires Notification(parseOrigin, prefix, us, ds).Some?
    ensures var out, pp := Notification(parseOrigin, prefix, us, ds).value, PrefixText(parseOrigin, prefix);
      && (out.jXpaths.Some? <==> exists i :: 0 <= i < |us| && (IsHeader(us[i]) || IsStamp(us[i])))
      && (out.jXpaths.Some? ==>
            var jx := out.jXpaths.value.xpaths;
            && (x in jx <==> exists i :: JuniperAt(us, pp, i, x))
            && (forall i :: JuniperAt(us, pp, i, x) && (forall j :: i < j < |us| ==> !JuniperAt(us, pp, j, x)) ==>
                  jx[x] == if IsHeader(us[i]) then us[i].value.plain else us[i].value.stamp))
  {
    if us != [] || ds != [] {
      var pp, st := PrefixText(parseOrigin, prefix), Start(parseOrigin, prefix);
      Parts(parseOrigin, prefix, us, ds);
      ApplyAllByKind(pp, us, st);
      hide Notification;
      hide ApplyAll;
      JuniperMerged(pp, us, x);
      hide IsHeader;
      hide IsStamp;
      hide XPath;
      hide Merged;
    }
  }

  lemma {:induction false} JuniperMerged(pp: string, us: seq<Update>, x: string)
    ensures var m := Merged(us, u => JuniperWrite(pp, u), map[]);
      && (x in m <==> exists i :: JuniperAt(us, pp, i, x))
      && forall i :: JuniperAt(us, pp, i, x) && (forall j :: i < j < |us| ==> !JuniperAt(us, pp, j, x)) ==>
           x in m && m[x] == if IsHeader(us[i]) then us[i].value.plain else us[i].value.stamp
  {
    hide HasName;
    hide XPath;
    var writes := u => JuniperWrite(pp, u);
    MergedAt(us, writes, map[], x);
    hide Merged;
    assert forall i :: 0 <= i < |us| ==> (x in writes(us[i]) <==> JuniperAt(us, pp, i, x));
    forall i | JuniperAt(us, pp, i, x) && (forall j :: i < j < |us| ==> !JuniperAt(us, pp, j, x))
      ensures WritesLast(us, writes, i, x)
    {
    }
  }

  /** The header and the timestamp are found at the paths of the last updates that name them. */
  lemma {:induction false} JuniperPlaces(parseOrigin: bool, prefix: Prefix, us: seq<Update>, ds: seq<seq<PathElem>>,
                                         i: nat)
    requires Notification(parseOrigin, prefix, us, ds).Some? && i < |us|
    ensures IsHeader(us[i]) && (forall j :: i < j < |us| ==> !IsHeader(us[j])) ==>
      var jx := Notification(parseOrigin, prefix, us, ds).value.jXpaths;
      jx.Some? && jx.value.hdr == XPath(PrefixText(parseOrigin, prefix), us[i].path.value)
    ensures IsStamp(us[i]) && (forall j :: i < j < |us| ==> !IsStamp(us[j])) ==>
      var jx := Notification(parseOrigin, prefix, us, ds).value.jXpaths;
      jx.Some? && jx.value.publishTs == XPath(PrefixText(parseOrigin, prefix), us[i].path.value)
  {
    var pp, st := PrefixText(parseOrigin, prefix), Start(parseOrigin, prefix);
    Parts(parseOrigin, prefix, us, ds);
    ApplyAllByKind(pp, us, st);
    hide Notification;
    hide ApplyAll;
    hide Merged;
    hide HasName;
    hide XPath;
    if IsHeader(us[i]) && (forall j :: i < j < |us| ==> !IsHeader(us[j])) {
      HeaderPath(pp, us, st, i);
    }
    if IsStamp(us[i]) && (forall j :: i < j < |us| ==> !IsStamp(us[j])) {
      StampPath(pp, us, st, i);
    }
  }

  /** The path of the prefix is that of the notification, and its target and origin are tags. */
  lemma {:induction false} PrefixIsTagged(parseOrigin: bool, prefix: Prefix, us: seq<Update>, ds: seq<seq<PathElem>>)
    requires Notification(parseOrigin, prefix, us, ds).Some?
    ensures var out := Notification(parseOrigin, prefix, us, ds).value;
      && (us != [] || ds != [] ==> out.prefixPath == PrefixText(parseOrigin, prefix))
      && (prefix.target != "" ==> "target" in out.kvpairs && out.kvpairs["target"] == prefix.target)
      && (prefix.origin != "" ==> "origin" in out.kvpairs && out.kvpairs["origin"] == prefix.origin)
  {
    if us != [] || ds != [] {
      Parts(parseOrigin, prefix, us, ds);
    }
  }

  /**
   Every other tag is one of a delete's path, of an update's path or of the prefix, and has the value of the last of
   them, the deletes counting as the latest and the prefix as the earliest.
   */
  lemma {:induction false} NotificationTags(parseOrigin: bool, prefix: Prefix, us: seq<Update>,
                                            ds: seq<seq<PathElem>>, t: string)
    requires Notification(parseOrigin, prefix, us, ds).Some? && (us != [] || ds != []) && t != "target" && t != "origin"
    ensures var kv, pp := Notification(parseOrigin, prefix, us, ds).value.kvpairs, PrefixText(parseOrigin, prefix);
      var first := TagsOf(if parseOrigin && prefix.origin != "" then prefix.origin + ":" else "", prefix.elems);
      var byDelete := exists j :: 0 <= j < |ds| && t in TagsOf(pp, ds[j]);
      var byUpdate := exists i :: TagAt(us, pp, i, t);
      && (t in kv <==> byDelete || byUpdate || t in first)
      && (forall j :: WritesLast(ds, d => TagsOf(pp, d), j, t) ==> kv[t] == TagsOf(pp, ds[j])[t])
      && (!byDelete ==>
            forall i :: TagAt(us, pp, i, t) && (forall j :: i < j < |us| ==> !TagAt(us, pp, j, t)) ==>
              kv[t] == TagsOf(pp, us[i].path.value)[t])
      && (!byDelete && !byUpdate && t in first ==> kv[t] == first[t])
  {
    var pp, st := PrefixText(parseOrigin, prefix), Start(parseOrigin, prefix);
    Parts(parseOrigin, prefix, us, ds);
    ApplyAllByKind(pp, us, st);
    var end := ApplyAll(pp, us, st).value;
    DeletesByKind(pp, ds, end.kv, end.xpaths);
    hide Notification;
    hide ApplyAll;
    hide TagsOf;
    hide XPath;
    hide Merged;
    hide TagAt;
    hide WithPrefixTags;
    OtherTag(prefix, DeleteTags(pp, ds, end.kv), t);
    UpdateTags(pp, us, st.kv, t);
    MergedAt(ds, d => TagsOf(pp, d), end.kv, t);
  }

  lemma {:induction false} OtherTag(prefix: Prefix, kv: Tags, t: string)
    requires t != "target" && t != "origin"
    ensures t in WithPrefixTags(prefix, kv) <==> t in kv
    ensures t in kv ==> WithPrefixTags(prefix, kv)[t] == kv[t]
  {
  }

  lemma {:induction false} UpdateTags(pp: string, us: seq<Update>, first: Tags, t: string)
    ensures var m := Merged(us, u => TagWrite(pp, u), first);
      && (t in m <==> t in first || exists i :: TagAt(us, pp, i, t))
      && (forall i :: TagAt(us, pp, i, t) && (forall j :: i < j < |us| ==> !TagAt(us, pp, j, t)) ==>
            t in m && m[t] == TagsOf(pp, us[i].path.value)[t])
      && ((forall i :: !TagAt(us, pp, i, t)) && t in first ==> m[t] == first[t])
  {
    hide TagsOf;
    var writes := u => TagWrite(pp, u);
    MergedAt(us, writes, first, t);
    hide Merged;
    assert forall i :: 0 <= i < |us| ==> (t in writes(us[i]) <==> TagAt(us, pp, i, t));
    forall i | TagAt(us, pp, i, t) && (forall j :: i < j < |us| ==> !TagAt(us, pp, j, t))
      ensures WritesLast(us, writes, i, t)
    {
    }
  }

  /** One update of one path, without a prefix: its value stands under the path, and nothing else does. */
  lemma {:induction false} OneUpdate(path: seq<PathElem>, value: TypedValue, d: Datum)
    requires value.plain == Some(d)
    requires forall i :: 0 <= i < |path| ==> path[i].name !in {"__juniper_telemetry_header__", "__timestamp__"}
    ensures var out := Notification(false, Prefix("", "", []), [Update(Some(path), value)], []);
      out.Some? && out.value.xpaths == map[XPath("", path) := Some(d)]
  {
    var us, prefix := [Update(Some(path), value)], Prefix("", "", []);
    assert us[0].path == Some(path) && IsPlain(us[0]);
    RefusedIff(false, prefix, us, []);
    assert PrefixText(false, prefix) == "";
    var out := Notification(false, prefix, us, []).value;
    var text := XPath("", path);
    hide Notification;
    hide XPath;
    hide IsPlain;
    forall x ensures x in out.xpaths <==> x == text {
      NotificationXpaths(false, prefix, us, [], x);
      assert PlainAt(us, "", 0, x) <==> x == text;
    }
    NotificationXpaths(false, prefix, us, [], text);
    assert PlainAt(us, "", 0, text);
  }
}

/** Updates and deletes of one gNMI notification (gnmi_utils.go, subscribe_gnmi.go). */
module GnmiNotification {
  import opened Text
  import opened Points
  import opened GnmiPaths

  /** A value with the outcome of its two conversions; None is a conversion error. */
  datatype TypedValue = TypedValue(plain: Option<Datum>, stamp: Option<Datum>)

  /** Values by xpath; None is Go's nil, which a delete stores. */
  type Xpaths = map<string, Option<Datum>>

  datatype Prefix = Prefix(origin: string, target: string, elems: seq<PathElem>)
  datatype Update = Update(path: Option<seq<PathElem>>, value: TypedValue)

  datatype JuniperXpaths = JuniperXpaths(xpaths: Xpaths, hdr: string, publishTs: string)

  datatype ParseOutput = ParseOutput(prefixPath: string, kvpairs: Tags, xpaths: Xpaths, jXpaths: Option<JuniperXpaths>)

  const HEADER_FIELD := "__juniper_telemetry_header__"
  const PUBLISH_TS_FIELD := "__timestamp__"
  const RESERVED := {HEADER_FIELD, PUBLISH_TS_FIELD}

  /** The prefix path and tags; a path that is already known is kept. */
  function PrefixPath(parseOrigin: bool, prefix: Prefix, known: string): string {
    if known != "" then known
    else XPath(if parseOrigin && prefix.origin != "" then prefix.origin + ":" else "", prefix.elems)
  }

  function PrefixTags(parseOrigin: bool, prefix: Prefix, known: string, kv: Tags): Tags {
    if known != "" then kv
    else kv + TagsOf(if parseOrigin && prefix.origin != "" then prefix.origin + ":" else "", prefix.elems)
  }

  method ParsePrefix(parseOrigin: bool, prefix: Prefix, known: string, kv: Tags) returns (path: string, kv': Tags)
    ensures path == PrefixPath(parseOrigin, prefix, known)
    ensures kv' == PrefixTags(parseOrigin, prefix, known, kv)
  {
    path, kv' := known, kv;
    if path == "" {
      if parseOrigin {
        path := prefix.origin;
        if path != "" {
          path := path + ":";
        }
      }
      var found;
      path, kv', found := GnmiParsePath(path, prefix.elems, kv', {});
    }
  }

  // ---------- updates ----------

  datatype Parsed = Parsed(kv: Tags, xpaths: Xpaths, jx: JuniperXpaths, juniper: bool)

  /** One update under a prefix path; None if its value cannot be converted. */
  function Apply(pp: string, u: Update, st: Parsed): Option<Parsed> {
    if u.path.None? then Some(st)
    else
      var path, found := XPath(pp, u.path.value), Internal(u.path.value, RESERVED);
      var kv := st.kv + TagsOf(pp, u.path.value);
      if found == {} then
        if u.value.plain.None? then None else Some(st.(kv := kv, xpaths := st.xpaths[path := u.value.plain]))
      else if HEADER_FIELD in found then
        Some(st.(kv := kv, juniper := true, jx := st.jx.(xpaths := st.jx.xpaths[path := u.value.plain], hdr := path)))
      else
        Some(st.(kv := kv, juniper := true,
          jx := st.jx.(xpaths := st.jx.xpaths[path := u.value.stamp], publishTs := path)))
  }

  function ApplyAll(pp: string, us: seq<Update>, st: Parsed): Option<Parsed>
    decreases |us|
  {
    if us == [] then Some(st)
    else
      var next := Apply(pp, us[0], st);
      if next.None? then None else ApplyAll(pp, us[1..], next.value)
  }

  function AfterUpdates(parseOrigin: bool, prefix: Prefix, us: seq<Update>, out: ParseOutput): Option<ParseOutput> {
    var pp := PrefixPath(parseOrigin, prefix, out.prefixPath);
    var st := Parsed(PrefixTags(parseOrigin, prefix, out.prefixPath, out.kvpairs), out.xpaths,
      JuniperXpaths(map[], "", ""), false);
    var end := ApplyAll(pp, us, st);
    if end.None? then None
    else Some(ParseOutput(pp, end.value.kv, end.value.xpaths, if end.value.juniper then Some(end.value.jx) else None))
  }

  method ApplyUpdate(pp: string, u: Update, st: Parsed) returns (r: Option<Parsed>)
    ensures r == Apply(pp, u, st)
  {
    if u.path.None? {
      return Some(st);
    }
    var path, kv, found := GnmiParsePath(pp, u.path.value, st.kv, RESERVED);
    if found == {} {
      if u.value.plain.None? {
        return None;
      }
      r := Some(st.(kv := kv, xpaths := st.xpaths[path := u.value.plain]));
    } else {
      var jx := st.jx;
      if HEADER_FIELD in found {
        jx := jx.(hdr := path, xpaths := jx.xpaths[path := u.value.plain]);
      } else {
        jx := jx.(publishTs := path, xpaths := jx.xpaths[path := u.value.stamp]);
      }
      r := Some(st.(kv := kv, jx := jx, juniper := true));
    }
  }

  /** gnmiParseUpdates */
  method GnmiParseUpdates(parseOrigin: bool, prefix: Prefix, us: seq<Update>, out: ParseOutput)
    returns (r: Option<ParseOutput>)
    ensures r == AfterUpdates(parseOrigin, prefix, us, out)
  {
    var pp, kv := ParsePrefix(parseOrigin, prefix, out.prefixPath, out.kvpairs);
    var st := Parsed(kv, out.xpaths, JuniperXpaths(map[], "", ""), false);
    ghost var all := ApplyAll(pp, us, st);
    assert us[0..] == us;
    for i := 0 to |us|
      invariant ApplyAll(pp, us[i..], st) == all
    {
      assert us[i..][0] == us[i] && us[i..][1..] == us[i + 1..];
      var next := ApplyUpdate(pp, us[i], st);
      if next.None? {
        return None;
      }
      st := next.value;
    }
    assert us[|us|..] == [];
    r := Some(ParseOutput(pp, st.kv, st.xpaths, if st.juniper then Some(st.jx) else None));
  }

  // ---------- deletes ----------

  function DeleteTags(pp: string, ds: seq<seq<PathElem>>, kv: Tags): Tags
    decreases |ds|
  {
    if ds == [] then kv else DeleteTags(pp, ds[1..], kv + TagsOf(pp, ds[0]))
  }

  function DeleteXpaths(pp: string, ds: seq<seq<PathElem>>, xs: Xpaths): Xpaths
    decreases |ds|
  {
    if ds == [] then xs else DeleteXpaths(pp, ds[1..], xs[XPath(pp, ds[0]) := None])
  }

  function AfterDeletes(parseOrigin: bool, prefix: Prefix, ds: seq<seq<PathElem>>, out: ParseOutput): ParseOutput {
    var pp := PrefixPath(parseOrigin, prefix, out.prefixPath);
    var kv := PrefixTags(parseOrigin, prefix, out.prefixPath, out.kvpairs);
    out.(prefixPath := pp, kvpairs := DeleteTags(pp, ds, kv), xpaths := DeleteXpaths(pp, ds, out.xpaths))
  }

  /** gnmiParseDeletes */
  method GnmiParseDeletes(parseOrigin: bool, prefix: Prefix, ds: seq<seq<PathElem>>, out: ParseOutput)
    returns (r: ParseOutput)
    ensures r == AfterDeletes(parseOrigin, prefix, ds, out)
  {
    var pp, kv := ParsePrefix(parseOrigin, prefix, out.prefixPath, out.kvpairs);
    var xs := out.xpaths;
    ghost var kvEnd, xsEnd := DeleteTags(pp, ds, kv), DeleteXpaths(pp, ds, xs);
    assert ds[0..] == ds;
    for i := 0 to |ds|
      invariant DeleteTags(pp, ds[i..], kv) == kvEnd && DeleteXpaths(pp, ds[i..], xs) == xsEnd
    {
      assert ds[i..][0] == ds[i] && ds[i..][1..] == ds[i + 1..];
      var path, kv', found := GnmiParsePath(pp, ds[i], kv, {});
      kv := kv';
      xs := xs[path := None];
    }
    assert ds[|ds|..] == [];
    r := out.(prefixPath := pp, kvpairs := kv, xpaths := xs);
  }

  // ---------- a notification ----------

  /** The target and the origin of the prefix are tags of their own. */
  function WithPrefixTags(prefix: Prefix, kv: Tags): Tags {
    var t := if prefix.target != "" then kv["target" := prefix.target] else kv;
    if prefix.origin != "" then t["origin" := prefix.origin] else t
  }

  const NOTHING := ParseOutput("", map[], map[], None)

  /** Tags, xpaths and Juniper fields of a notification; None if a value cannot be converted. */
  function Notification(parseOrigin: bool, prefix: Prefix, us: seq<Update>,
                        ds: seq<seq<PathElem>>): Option<ParseOutput> {
    var a := if us == [] then Some(NOTHING) else AfterUpdates(parseOrigin, prefix, us, NOTHING);
    if a.None? then None
    else
      var b := if ds == [] then a.value else AfterDeletes(parseOrigin, prefix, ds, a.value);
      Some(b.(kvpairs := WithPrefixTags(prefix, b.kvpairs)))
  }

  /** gnmiParseNotification, up to the header; inKvs counts the distinct paths before the fixed fields are added. */
  method GnmiParseNotification(parseOrigin: bool, prefix: Prefix, us: seq<Update>, ds: seq<seq<PathElem>>)
    returns (r: Option<ParseOutput>, inKvs: nat)
    ensures r == Notification(parseOrigin, prefix, us, ds)
    ensures r.Some? ==>
      inKvs == |r.value.xpaths| + (if r.value.jXpaths.Some? then |r.value.jXpaths.value.xpaths| else 0)
  {
    var out := NOTHING;
    inKvs := 0;
    if |us| != 0 {
      var parsed := GnmiParseUpdates(parseOrigin, prefix, us, out);
      if parsed.None? {
        return None, 0;
      }
      out := parsed.value;
    }
    if |ds| != 0 {
      out := GnmiParseDeletes(parseOrigin, prefix, ds, out);
    }
    inKvs := inKvs + |out.xpaths|;
    if out.jXpaths.Some? {
      inKvs := inKvs + |out.jXpaths.value.xpaths|;
    }
    if prefix.target != "" {
      out := out.(kvpairs := out.kvpairs["target" := prefix.target]);
    }
    if prefix.origin != "" {
      out := out.(kvpairs := out.kvpairs["origin" := prefix.origin]);
    }
    r := Some(out);
  }

  // ---------- moving a common head into the prefix ----------

  function Under(head: seq<PathElem>, u: Update): Update {
    if u.path.Some? then u.(path := Some(head + u.path.value)) else u
  }

  function AllUnder(head: seq<PathElem>, us: seq<Update>): (r: seq<Update>)
    ensures |r| == |us|
  {
    if us == [] then [] else [Under(head, us[0])] + AllUnder(head, us[1..])
  }

  function DeletesUnder(head: seq<PathElem>, ds: seq<seq<PathElem>>): (r: seq<seq<PathElem>>)
    ensures |r| == |ds|
  {
    if ds == [] then [] else [head + ds[0]] + DeletesUnder(head, ds[1..])
  }

  ghost predicate PlainUpdates(us: seq<Update>) {
    forall i :: 0 <= i < |us| && us[i].path.Some? ==> PlainNames(us[i].path.value)
  }

  ghost predicate PlainDeletes(ds: seq<seq<PathElem>>) {
    forall i :: 0 <= i < |ds| ==> PlainNames(ds[i])
  }

  predicate HasPath(us: seq<Update>) {
    exists i :: 0 <= i < |us| && us[i].path.Some?
  }

  /** Writing the tags of head and tail over kv, and then the head's again, is writing them once. */
  lemma HeadTagsStay(pp: string, head: seq<PathElem>, tail: seq<PathElem>, kv: Tags)
    requires PlainNames(head) && PlainNames(tail)
    ensures var h, t := TagsOf(pp, head), TagsOf(XPath(pp, head), tail);
            && kv + TagsOf(pp, head + tail) == (kv + h) + t
            && ((kv + h) + t) + h == (kv + h) + t
  {
    var h, t := TagsOf(pp, head), TagsOf(XPath(pp, head), tail);
    PathAppend(pp, head, tail);
    PlusAssociative(kv, h, t);
    TagsDisjoint(pp, head, tail);
    MapsStay(kv, h, t);
  }

  lemma MapsStay(kv: Tags, h: Tags, t: Tags)
    requires h.Keys !! t.Keys
    ensures ((kv + h) + t) + h == (kv + h) + t
  {
  }

  /** One update with the head in its path, against the same update without it below a longer prefix. */
  lemma ApplyMoved(pp: string, head: seq<PathElem>, u: Update, st: Parsed)
    requires PlainNames(head) && Internal(head, RESERVED) == {}
    requires u.path.Some? ==> PlainNames(u.path.value)
    ensures var h := TagsOf(pp, head);
            var a, b := Apply(pp, Under(head, u), st), Apply(XPath(pp, head), u, st.(kv := st.kv + h));
            && (a.None? <==> b.None?)
            && (a.Some? ==> b.value == a.value.(kv := a.value.kv + h))
            && (a.Some? && u.path.Some? ==> a.value.kv + h == a.value.kv)
  {
    hide XPath;
    hide TagsOf;
    hide Internal;
    hide PlainNames;
    if u.path.Some? {
      var tail := u.path.value;
      assert Internal(head, RESERVED) + Internal(tail, RESERVED) == Internal(tail, RESERVED);
      PathAppend(pp, head, tail);
      InternalAppend(head, tail, RESERVED);
      HeadTagsStay(pp, head, tail, st.kv);
    }
  }

  lemma {:induction false} ApplyAllMoved(pp: string, head: seq<PathElem>, us: seq<Update>, st: Parsed)
    requires PlainNames(head) && Internal(head, RESERVED) == {} && PlainUpdates(us)
    ensures var h := TagsOf(pp, head);
            var a, b := ApplyAll(pp, AllUnder(head, us), st), ApplyAll(XPath(pp, head), us, st.(kv := st.kv + h));
            && (a.None? <==> b.None?)
            && (a.Some? ==> b.value == a.value.(kv := a.value.kv + h))
            && (a.Some? && (HasPath(us) || st.kv + h == st.kv) ==> a.value.kv + h == a.value.kv)
    decreases |us|
  {
    if us != [] {
      var h := TagsOf(pp, head);
      var u, rest := us[0], us[1..];
      ApplyMoved(pp, head, u, st);
      var a := Apply(pp, Under(head, u), st);
      assert AllUnder(head, us)[1..] == AllUnder(head, rest);
      if a.Some? {
        ApplyAllMoved(pp, head, rest, a.value);
        assert HasPath(us) ==> u.path.Some? || HasPath(rest) by {
          if i :| 0 <= i < |us| && us[i].path.Some? {
            assert i > 0 ==> rest[i - 1].path.Some?;
          }
        }
      }
    }
  }

  lemma {:induction false} DeletesMoved(pp: string, head: seq<PathElem>, ds: seq<seq<PathElem>>, kv: Tags, xs: Xpaths)
    requires PlainNames(head) && PlainDeletes(ds)
    ensures var h := TagsOf(pp, head);
            && DeleteXpaths(pp, DeletesUnder(head, ds), xs) == DeleteXpaths(XPath(pp, head), ds, xs)
            && DeleteTags(XPath(pp, head), ds, kv + h) == DeleteTags(pp, DeletesUnder(head, ds), kv) + h
            && (ds != [] || kv + h == kv ==>
              DeleteTags(pp, DeletesUnder(head, ds), kv) + h == DeleteTags(pp, DeletesUnder(head, ds), kv))
    decreases |ds|
  {
    if ds != [] {
      HeadTagsStay(pp, head, ds[0], kv);
      PathAppend(pp, head, ds[0]);
      assert DeletesUnder(head, ds)[1..] == DeletesUnder(head, ds[1..]);
      DeletesMoved(pp, head, ds[1..], kv + TagsOf(pp, head + ds[0]), xs[XPath(pp, head + ds[0]) := None]);
    }
  }

  lemma {:induction false} XPathExtends(p: string, pes: seq<PathElem>)
    ensures |XPath(p, pes)| >= |p| + |pes|
    decreases |pes|
  {
    if pes != [] {
      XPathExtends(p + "/" + pes[0].name, pes[1..]);
    }
  }

  /** Parsing the prefix again after the updates adds nothing: it happens only when the prefix path is empty. */
  lemma PrefixAgain(parseOrigin: bool, prefix: Prefix, kv: Tags)
    ensures var pp := PrefixPath(parseOrigin, prefix, "");
            PrefixPath(parseOrigin, prefix, pp) == pp && PrefixTags(parseOrigin, prefix, pp, kv) == kv
  {
    var base := if parseOrigin && prefix.origin != "" then prefix.origin + ":" else "";
    XPathExtends(base, prefix.elems);
    assert kv + map[] == kv;
  }

  /** The prefix path and tags with the head moved into the prefix. */
  lemma PrefixMoved(parseOrigin: bool, prefix: Prefix, head: seq<PathElem>, kv: Tags)
    requires head != []
    ensures var longer := prefix.(elems := prefix.elems + head);
            var pp := PrefixPath(parseOrigin, prefix, "");
            && PrefixPath(parseOrigin, longer, "") == XPath(pp, head) != ""
            && PrefixTags(parseOrigin, longer, "", kv) == PrefixTags(parseOrigin, prefix, "", kv) + TagsOf(pp, head)
  {
    var base := if parseOrigin && prefix.origin != "" then prefix.origin + ":" else "";
    PathAppend(base, prefix.elems, head);
    PlusAssociative(kv, TagsOf(base, prefix.elems), TagsOf(XPath(base, prefix.elems), head));
    XPathExtends(XPath(base, prefix.elems), head);
  }

  lemma {:induction false} NothingUnder(us: seq<Update>, ds: seq<seq<PathElem>>)
    ensures AllUnder([], us) == us && DeletesUnder([], ds) == ds
    decreases |us| + |ds|
  {
    if us != [] {
      NothingUnder(us[1..], ds);
      assert us[0].path.Some? ==> [] + us[0].path.value == us[0].path.value;
    } else if ds != [] {
      NothingUnder(us, ds[1..]);
      assert [] + ds[0] == ds[0];
    }
  }

  /** What the head's move leaves alone: everything but the prefix path itself. */
  ghost predicate SameData(a: Option<ParseOutput>, b: Option<ParseOutput>) {
    && (a.None? <==> b.None?)
    && (a.Some? ==>
          && a.value.kvpairs == b.value.kvpairs && a.value.xpaths == b.value.xpaths
          && a.value.jXpaths == b.value.jXpaths)
  }

  lemma UpdatesMoved(parseOrigin: bool, prefix: Prefix, head: seq<PathElem>, us: seq<Update>)
    requires head != [] && us != []
    requires PlainNames(head) && Internal(head, RESERVED) == {} && PlainUpdates(us)
    ensures var pp := PrefixPath(parseOrigin, prefix, "");
            var h := TagsOf(pp, head);
            var a := AfterUpdates(parseOrigin, prefix, AllUnder(head, us), NOTHING);
            var b := AfterUpdates(parseOrigin, prefix.(elems := prefix.elems + head), us, NOTHING);
            && (a.None? <==> b.None?)
            && (a.Some? ==> a.value.prefixPath == pp
                            && b.value == a.value.(prefixPath := XPath(pp, head), kvpairs := a.value.kvpairs + h)
                            && (HasPath(us) ==> a.value.kvpairs + h == a.value.kvpairs))
  {
    PrefixMoved(parseOrigin, prefix, head, map[]);
    var pp := PrefixPath(parseOrigin, prefix, "");
    var st := Parsed(PrefixTags(parseOrigin, prefix, "", map[]), map[], JuniperXpaths(map[], "", ""), false);
    ApplyAllMoved(pp, head, us, st);
  }

  /** Deletes after the updates: `a` has the short prefix, `b` the long one. */
  lemma DeletesAfter(parseOrigin: bool, prefix: Prefix, head: seq<PathElem>, ds: seq<seq<PathElem>>, a: ParseOutput,
                     b: ParseOutput)
    requires head != [] && ds != [] && PlainNames(head) && PlainDeletes(ds)
    requires a.prefixPath == PrefixPath(parseOrigin, prefix, "")
    requires b == a.(prefixPath := XPath(a.prefixPath, head), kvpairs := a.kvpairs + TagsOf(a.prefixPath, head))
    ensures SameData(Some(AfterDeletes(parseOrigin, prefix, DeletesUnder(head, ds), a)),
                     Some(AfterDeletes(parseOrigin, prefix.(elems := prefix.elems + head), ds, b)))
  {
    PrefixAgain(parseOrigin, prefix, a.kvpairs);
    XPathExtends(a.prefixPath, head);
    DeletesMoved(a.prefixPath, head, ds, a.kvpairs, a.xpaths);
  }

  lemma OnlyDeletes(parseOrigin: bool, prefix: Prefix, head: seq<PathElem>, ds: seq<seq<PathElem>>)
    requires head != [] && ds != [] && PlainNames(head) && PlainDeletes(ds)
    ensures SameData(Some(AfterDeletes(parseOrigin, prefix, DeletesUnder(head, ds), NOTHING)),
                     Some(AfterDeletes(parseOrigin, prefix.(elems := prefix.elems + head), ds, NOTHING)))
  {
    PrefixMoved(parseOrigin, prefix, head, map[]);
    DeletesMoved(PrefixPath(parseOrigin, prefix, ""), head, ds, PrefixTags(parseOrigin, prefix, "", map[]), map[]);
  }

  /**
   Moving a common head of elements from every update and delete into the prefix changes neither the
   tags nor the xpaths nor the Juniper fields. No name may begin with "@", the head may hold no reserved
   name, and there must be at least one path to take the head from.
   */
  lemma HeadMovesToPrefix(parseOrigin: bool, prefix: Prefix, head: seq<PathElem>, us: seq<Update>,
                          ds: seq<seq<PathElem>>)
    requires PlainNames(head) && Internal(head, RESERVED) == {}
    requires PlainUpdates(us) && PlainDeletes(ds)
    requires HasPath(us) || ds != []
    ensures SameData(Notification(parseOrigin, prefix, AllUnder(head, us), DeletesUnder(head, ds)),
                     Notification(parseOrigin, prefix.(elems := prefix.elems + head), us, ds))
  {
    hide AfterUpdates;
    hide AfterDeletes;
    hide XPath;
    hide TagsOf;
    hide Internal;
    hide PlainNames;
    if head == [] {
      NothingUnder(us, ds);
      assert prefix.elems + head == prefix.elems;
    } else if us == [] {
      OnlyDeletes(parseOrigin, prefix, head, ds);
    } else {
      UpdatesMoved(parseOrigin, prefix, head, us);
      var a := AfterUpdates(parseOrigin, prefix, AllUnder(head, us), NOTHING);
      var b := AfterUpdates(parseOrigin, prefix.(elems := prefix.elems + head), us, NOTHING);
      if a.Some? && ds != [] {
        DeletesAfter(parseOrigin, prefix, head, ds, a.value, b.value);
      }
    }
  }
}

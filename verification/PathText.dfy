/**
 Paths as text: the printer getPath (internal_jtimon.go) and the parser spitTagsNPath (influx.go).
 The two regular expressions of defaults.go are written out as scanners.
 */
module PathText {
  import opened Text
  import opened Points
  import opened GnmiPaths

  // ---------- the printer ----------

  /** A path element with its keys in the order in which they were enumerated. */
  datatype Elem = Elem(name: string, kvs: seq<(string, string)>)

  function KvMap(kvs: seq<(string, string)>): map<string, string> {
    if kvs == [] then map[] else KvMap(kvs[..|kvs| - 1])[kvs[|kvs| - 1].0 := kvs[|kvs| - 1].1]
  }

  function ElemOf(e: Elem): PathElem {
    PathElem(e.name, KvMap(e.kvs))
  }

  function ElemsOf(es: seq<Elem>): (r: seq<PathElem>)
    ensures |r| == |es|
  {
    if es == [] then [] else [ElemOf(es[0])] + ElemsOf(es[1..])
  }

  function PrintKv(kv: (string, string)): string {
    kv.0 + "='" + kv.1 + "'"
  }

  function PrintKvs(kvs: seq<(string, string)>): string {
    if kvs == [] then ""
    else if |kvs| == 1 then PrintKv(kvs[0])
    else PrintKv(kvs[0]) + " and " + PrintKvs(kvs[1..])
  }

  function PrintElem(e: Elem): string {
    "/" + e.name + if e.kvs == [] then "" else "[" + PrintKvs(e.kvs) + "]"
  }

  function PrintPath(es: seq<Elem>): string {
    if es == [] then "" else PrintElem(es[0]) + PrintPath(es[1..])
  }

  lemma {:induction false} PrintKvsMore(kvs: seq<(string, string)>, kv: (string, string))
    ensures PrintKvs(kvs + [kv]) == if kvs == [] then PrintKv(kv) else PrintKvs(kvs) + " and " + PrintKv(kv)
  {
    if |kvs| > 0 {
      assert (kvs + [kv])[1..] == kvs[1..] + [kv];
      PrintKvsMore(kvs[1..], kv);
    }
  }

  lemma {:induction false} PrintPathMore(es: seq<Elem>, e: Elem)
    ensures PrintPath(es + [e]) == PrintPath(es) + PrintElem(e)
    ensures ElemsOf(es + [e]) == ElemsOf(es) + [ElemOf(e)]
  {
    if es == [] {
      assert [e][1..] == [];
    } else {
      assert (es + [e])[1..] == es[1..] + [e];
      PrintPathMore(es[1..], e);
    }
  }

  lemma PrintedElem(before: string, e: Elem)
    ensures before + "/" + e.name + (if e.kvs == [] then "" else "[" + PrintKvs(e.kvs) + "]") == before + PrintElem(e)
  {
    var keys := if e.kvs == [] then "" else "[" + PrintKvs(e.kvs) + "]";
    Associative(before, "/", e.name);
    Associative(before, "/" + e.name, keys);
  }

  /** The text while the keys of an element are being printed. */
  function Opened(path: string, kvs: seq<(string, string)>): string {
    path + if kvs == [] then "" else "[" + PrintKvs(kvs)
  }

  lemma FirstKey(path: string, k: string, v: string)
    ensures Opened(path, [(k, v)]) == path + "[" + k + "='" + v + "'"
  {
  }

  lemma NextKey(path: string, kvs: seq<(string, string)>, k: string, v: string)
    requires kvs != []
    ensures Opened(path, kvs + [(k, v)]) == Opened(path, kvs) + " and " + k + "='" + v + "'"
  {
    PrintKvsMore(kvs, (k, v));
    var keys := PrintKvs(kvs);
    hide PrintKvs;
    assert path + ("[" + keys) + " and " + k + "='" + v + "'" == path + ("[" + (keys + " and " + PrintKv((k, v))));
  }

  lemma NoneTwice()
    ensures Distinct([]) && KvMap([]) == map[]
  {
  }

  lemma OneMoreKey(kvs: seq<(string, string)>, k: string, v: string)
    requires Distinct(kvs) && forall i :: 0 <= i < |kvs| ==> kvs[i].0 != k
    ensures Distinct(kvs + [(k, v)])
  {
  }

  lemma MapMore(kvs: seq<(string, string)>, k: string, v: string)
    ensures KvMap(kvs + [(k, v)]) == KvMap(kvs)[k := v]
  {
    assert (kvs + [(k, v)])[..|kvs|] == kvs;
  }

  /** The keys of one element, in an order of the map's choosing. */
  method PrintKeys(path: string, keys: map<string, string>) returns (r: string, ghost kvs: seq<(string, string)>)
    ensures KvMap(kvs) == keys && Distinct(kvs)
    ensures r == path + if kvs == [] then "" else "[" + PrintKvs(kvs) + "]"
  {
    hide Distinct;
    hide KvMap;
    hide PrintKvs;
    NoneTwice();
    r, kvs := path, [];
    var isKey := false;
    var left := keys.Keys;
    while left != {}
      invariant left <= keys.Keys
      invariant KvMap(kvs).Keys == keys.Keys - left && forall k :: k in KvMap(kvs) ==> KvMap(kvs)[k] == keys[k]
      invariant Distinct(kvs) && forall i :: 0 <= i < |kvs| ==> kvs[i].0 !in left
      invariant isKey == (kvs != []) && r == Opened(path, kvs)
    {
      var k :| k in left;
      var v := keys[k];
      OneMoreKey(kvs, k, v);
      MapMore(kvs, k, v);
      if isKey {
        NextKey(path, kvs, k, v);
        r := r + " and " + k + "='" + v + "'";
      } else {
        FirstKey(path, k, v);
        assert kvs + [(k, v)] == [(k, v)];
        r := r + "[" + k + "='" + v + "'";
        isKey := true;
      }
      kvs := kvs + [(k, v)];
      left := left - {k};
    }
    assert KvMap(kvs) == keys;
    if isKey {
      r := r + "]";
      Closing(path, PrintKvs(kvs));
    }
  }

  lemma Closing(path: string, keys: string)
    ensures path + ("[" + keys) + "]" == path + ("[" + keys + "]")
  {
  }

  /** A text of these elements: printed with some order of each element's keys. */
  ghost predicate IsPrinted(prefix: string, pes: seq<PathElem>, text: string) {
    exists es :: ElemsOf(es) == pes && text == prefix + PrintPath(es) && AllDistinct(es)
  }

  /** An enumeration names each key once. */
  ghost predicate Distinct(kvs: seq<(string, string)>) {
    forall i, j :: 0 <= i < j < |kvs| ==> kvs[i].0 != kvs[j].0
  }

  ghost predicate AllDistinct(es: seq<Elem>) {
    forall i :: 0 <= i < |es| ==> Distinct(es[i].kvs)
  }

  /** getPath: the text of the elements, for some order of each element's keys. */
  method GetPath(prefix: string, pes: seq<PathElem>) returns (r: string)
    ensures IsPrinted(prefix, pes, r)
  {
    r := prefix;
    ghost var es: seq<Elem> := [];
    for i := 0 to |pes|
      invariant ElemsOf(es) == pes[..i] && AllDistinct(es)
      invariant r == prefix + PrintPath(es)
    {
      ghost var kvs;
      ghost var before := r;
      r := r + "/" + pes[i].name;
      r, kvs := PrintKeys(r, pes[i].keys);
      ghost var e := Elem(pes[i].name, kvs);
      PrintPathMore(es, e);
      PrintedElem(before, e);
      Associative(prefix, PrintPath(es), PrintElem(e));
      es := es + [e];
      assert pes[..i + 1] == pes[..i] + [pes[i]];
    }
  }

  // ---------- the scanners ----------

  /** One match of the element expression: the name and the text between the brackets. */
  datatype Match = Match(name: string, body: string)

  function MatchText(m: Match): string {
    "/" + m.name + "[" + m.body + "]"
  }

  /** The length of the longest start of s that holds no slash. */
  function SlashFree(s: string): (n: nat)
    ensures n <= |s| && (forall i :: 0 <= i < n ==> s[i] != '/') && (n < |s| ==> s[n] == '/')
  {
    if s == "" || s[0] == '/' then 0 else 1 + SlashFree(s[1..])
  }

  /** The last opening bracket before hi that can be closed. */
  function OpenBefore(s: string, hi: nat): (r: Option<nat>)
    requires hi <= |s|
    ensures r.Some? ==> r.value < hi && s[r.value] == '[' && CloseFrom(s, r.value + 1).Some?
  {
    if hi == 0 then None
    else if s[hi - 1] == '[' && CloseFrom(s, hi).Some? then Some(hi - 1)
    else OpenBefore(s, hi - 1)
  }

  /**
   A match at the start of s, as the places of its brackets: a slash, then as much text without a slash
   as an opening bracket after it allows, then the text up to the next closing bracket.
   */
  function MatchHere(s: string): (r: Option<(nat, nat)>)
    ensures r.Some? ==> 0 < r.value.0 < r.value.1 < |s|
  {
    if s == "" || s[0] != '/' then None
    else
      var open := OpenBefore(s, 1 + SlashFree(s[1..]));
      if open.None? then None else Some((open.value, CloseFrom(s, open.value + 1).value))
  }

  /** All matches from left to right. */
  function FindAll(s: string): seq<Match>
    decreases |s|
  {
    if s == "" then []
    else
      match MatchHere(s)
      case Some((k, j)) => [Match(s[1..k], s[k + 1..j])] + FindAll(s[j + 1..])
      case None => FindAll(s[1..])
  }

  predicate IsKeyChar(c: char) {
    'a' <= c <= 'z' || 'A' <= c <= 'Z' || '0' <= c <= '9' || c == '-' || c == '/'
  }

  function KeyRun(s: string): (n: nat)
    ensures n <= |s| && (forall i :: 0 <= i < n ==> IsKeyChar(s[i])) && (n < |s| ==> !IsKeyChar(s[n]))
  {
    if s == "" || !IsKeyChar(s[0]) then 0 else 1 + KeyRun(s[1..])
  }

  /** Where a value ends: at the next " and ", or at the end if no newline is in the way. */
  function ValueEnd(s: string, j: nat): (r: Option<nat>)
    requires j <= |s|
    ensures r.Some? ==> j <= r.value <= |s|
    decreases |s| - j
  {
    if j == |s| || HasPrefixAt(s, j, " and ") then Some(j)
    else if s[j] == '\n' then None
    else ValueEnd(s, j + 1)
  }

  /** Past all separators. */
  function SkipAnds(s: string, j: nat): (r: nat)
    requires j <= |s|
    ensures j <= r <= |s|
    decreases |s| - j
  {
    if HasPrefixAt(s, j, " and ") then SkipAnds(s, j + 5) else j
  }

  /** All key=value pairs of the text between brackets. */
  function FindKeys(s: string): seq<(string, string)>
    decreases |s|
  {
    if s == "" then []
    else
      var n := KeyRun(s);
      if n < |s| && s[n] == '=' then
        var end := ValueEnd(s, n + 1);
        if end.Some? then [(s[..n], s[n + 1..end.value])] + FindKeys(s[SkipAnds(s, end.value)..])
        else FindKeys(s[1..])
      else FindKeys(s[1..])
  }

  // ---------- the parser ----------

  function RemoveQuotes(s: string): string {
    if s == "" then "" else (if s[0] == '\'' then "" else [s[0]]) + RemoveQuotes(s[1..])
  }

  /** The tags of one element's pairs, under the element's stripped path. */
  function AddPairs(alias: string -> string, path: string, pairs: seq<(string, string)>, tags: Tags): Tags {
    if pairs == [] then tags
    else
      var last := pairs[|pairs| - 1];
      AddPairs(alias, path, pairs[..|pairs| - 1], tags)
        [alias(path + "/@" + TrimSpace(last.0)) := RemoveQuotes(TrimSpace(last.1))]
  }

  /**
   Element by element: the tags are named after the text before the element's first occurrence, which is then
   stripped.
   */
  function SpitFrom(alias: string -> string, subs: seq<Match>, xmlpath: string, tags: Tags): (string, Tags)
    decreases |subs|
  {
    if subs == [] then (xmlpath, tags)
    else
      var text, name := MatchText(subs[0]), TrimSpace(subs[0].name);
      var before := xmlpath[..IndexFrom(xmlpath, 0, text)];
      SpitFrom(alias, subs[1..], alias(ReplaceFirst(xmlpath, text, "/" + name)),
               AddPairs(alias, before + "/" + name, FindKeys(subs[0].body), tags))
  }

  function SplitPath(alias: string -> string, xmlpath: string): (string, Tags) {
    SpitFrom(alias, FindAll(xmlpath), xmlpath, map[])
  }

  /** spitTagsNPath */
  method SpitTagsNPath(alias: string -> string, xmlpath: string) returns (path: string, tags: Tags)
    ensures (path, tags) == SplitPath(alias, xmlpath)
  {
    var subs := FindAll(xmlpath);
    path, tags := xmlpath, map[];
    assert subs[0..] == subs;
    for i := 0 to |subs|
      invariant SpitFrom(alias, subs[i..], path, tags) == SplitPath(alias, xmlpath)
    {
      assert subs[i..][0] == subs[i] && subs[i..][1..] == subs[i + 1..];
      var text, name := MatchText(subs[i]), TrimSpace(subs[i].name);
      var prefix := path[..IndexFrom(path, 0, text)];
      var pairs := FindKeys(subs[i].body);
      tags := StorePairs(alias, prefix + "/" + name, pairs, tags);
      path := alias(ReplaceFirst(path, text, "/" + name));
    }
    assert subs[|subs|..] == [];
  }

  method StorePairs(alias: string -> string, path: string, pairs: seq<(string, string)>, tags: Tags) returns (r: Tags)
    ensures r == AddPairs(alias, path, pairs, tags)
  {
    r := tags;
    for i := 0 to |pairs|
      invariant r == AddPairs(alias, path, pairs[..i], tags)
    {
      assert pairs[..i + 1][..i] == pairs[..i];
      r := r[alias(path + "/@" + TrimSpace(pairs[i].0)) := RemoveQuotes(TrimSpace(pairs[i].1))];
    }
    assert pairs[..|pairs|] == pairs;
  }

  // ---------- well-formed paths ----------

  ghost predicate NoAnd(v: string) {
    forall i: nat :: !HasPrefixAt(v, i, " and ")
  }

  ghost predicate GoodKey(k: string) {
    forall c :: c in k ==> IsKeyChar(c)
  }

  ghost predicate GoodValue(v: string) {
    '[' !in v && ']' !in v && '\'' !in v && '\n' !in v && NoAnd(v)
  }

  predicate NoOuterSpace(s: string) {
    s == "" || (!IsSpace(s[0]) && !IsSpace(s[|s| - 1]))
  }

  ghost predicate GoodElem(e: Elem) {
    && '/' !in e.name && '[' !in e.name
    && (e.kvs != [] ==> NoOuterSpace(e.name))
    && forall i :: 0 <= i < |e.kvs| ==> GoodKey(e.kvs[i].0) && GoodValue(e.kvs[i].1)
  }

  ghost predicate GoodElems(es: seq<Elem>) {
    forall i :: 0 <= i < |es| ==> GoodElem(es[i])
  }

  // ---------- scanning printed text ----------

  lemma {:induction false} OpenNone(s: string, hi: nat)
    requires hi <= |s| && forall i :: 0 <= i < hi ==> s[i] != '['
    ensures OpenBefore(s, hi) == None
  {
    if hi > 0 {
      OpenNone(s, hi - 1);
    }
  }

  lemma {:induction false} OpenAt(s: string, hi: nat, k: nat)
    requires k < hi <= |s| && s[k] == '[' && CloseFrom(s, k + 1).Some?
    requires forall i :: k < i < hi ==> s[i] != '['
    ensures OpenBefore(s, hi) == Some(k)
  {
    if hi > k + 1 {
      OpenAt(s, hi - 1, k);
    }
  }

  lemma SlashAt(s: string, j: nat)
    requires j < |s| && s[j] == '/'
    ensures SlashFree(s) <= j
  {
  }

  lemma NoSlashBefore(s: string, j: nat)
    requires j <= |s| && forall i :: 0 <= i < j ==> s[i] != '/'
    ensures SlashFree(s) >= j
  {
  }

  /** Text without an opening bracket, up to a slash or the end, holds no match. */
  lemma {:induction false} FindAllPlain(a: string, b: string)
    requires '[' !in a && (b == "" || b[0] == '/')
    ensures FindAll(a + b) == FindAll(b)
  {
    if a == "" {
      assert a + b == b;
    } else {
      var s := a + b;
      assert s[1..] == a[1..] + b;
      FindAllPlain(a[1..], b);
      NoMatchHere(s, |a|);
    }
  }

  lemma NoMatchHere(s: string, n: nat)
    requires 0 < n <= |s| && (n == |s| || s[n] == '/')
    requires forall i :: 0 <= i < n ==> s[i] != '['
    ensures MatchHere(s) == None
  {
    if s[0] == '/' {
      if n < |s| {
        SlashAt(s[1..], n - 1);
      }
      OpenNone(s, 1 + SlashFree(s[1..]));
    }
  }

  /** The brackets of a printed element are the ones the scanner pairs. */
  lemma Brackets(s: string, k: nat, e: nat)
    requires 0 < k < e < |s| && s[0] == '/' && s[k] == '[' && s[e] == ']'
    requires forall i :: 0 < i < k ==> s[i] != '/'
    requires forall i :: k < i < e ==> s[i] != '[' && s[i] != ']' && s[i] != '\n'
    requires e + 1 == |s| || s[e + 1] == '/'
    ensures MatchHere(s) == Some((k, e))
  {
    CloseAt(s, k + 1, e);
    NoSlashBefore(s[1..], k);
    if e + 1 < |s| {
      SlashAt(s[1..], e);
    }
    OpenAt(s, 1 + SlashFree(s[1..]), k);
  }

  /** The parts of a matched element and what follows it. */
  lemma Layout(name: string, body: string, rest: string)
    ensures var s, k, e := MatchText(Match(name, body)) + rest, |name| + 1, |name| + 2 + |body|;
            |s| == e + 1 + |rest| && s[0] == '/' && s[1..k] == name && s[k] == '[' && s[k + 1..e] == body &&
              s[e] == ']' && s[e + 1..] == rest
  {
    var text := MatchText(Match(name, body));
    assert text == "/" + name + "[" + body + "]";
  }

  /** A printed element with keys is matched as a whole. */
  lemma MatchElem(name: string, body: string, rest: string)
    requires '/' !in name && '[' !in name
    requires '[' !in body && ']' !in body && '\n' !in body
    requires rest == "" || rest[0] == '/'
    ensures var m := Match(name, body); FindAll(MatchText(m) + rest) == [m] + FindAll(rest)
  {
    var s, k, e := MatchText(Match(name, body)) + rest, |name| + 1, |name| + 2 + |body|;
    hide FindAll;
    Layout(name, body, rest);
    MatchParts(s, k, e, name, body, rest);
  }

  lemma MatchParts(s: string, k: nat, e: nat, name: string, body: string, rest: string)
    requires '/' !in name && '[' !in body && ']' !in body && '\n' !in body
    requires rest == "" || rest[0] == '/'
    requires 0 < k < e < |s| && s[0] == '/' && s[1..k] == name && s[k] == '[' && s[k + 1..e] == body &&
      s[e] == ']' && s[e + 1..] == rest
    ensures FindAll(s) == [Match(name, body)] + FindAll(rest)
  {
    hide MatchHere;
    forall i | 0 < i < k ensures s[i] != '/' {
      assert s[i] == name[i - 1];
    }
    forall i | k < i < e ensures s[i] != '[' && s[i] != ']' && s[i] != '\n' {
      assert s[i] == body[i - k - 1];
    }
    assert rest != "" ==> s[e + 1] == rest[0];
    Brackets(s, k, e);
  }

  lemma {:induction false} ValueEndAt(s: string, j: nat, e: nat)
    requires j <= e <= |s|
    requires forall i :: j <= i < e ==> s[i] != '\n' && !HasPrefixAt(s, i, " and ")
    requires e == |s| || HasPrefixAt(s, e, " and ")
    ensures ValueEnd(s, j) == Some(e)
    decreases e - j
  {
    if j < e {
      ValueEndAt(s, j + 1, e);
    }
  }

  /** A separator cannot begin inside a quoted value: it would have to lie within the value or hold a quote. */
  lemma NoAndInQuotes(s: string, a: nat, v: string, i: nat)
    requires GoodValue(v) && a + |v| + 2 <= |s| && s[a..a + |v| + 2] == "'" + v + "'"
    requires a <= i < a + |v| + 2
    ensures s[i] != '\n' && !HasPrefixAt(s, i, " and ")
  {
    var q := s[a..a + |v| + 2];
    assert q == "'" + v + "'" && q[1..|v| + 1] == v;
    assert s[i] == q[i - a];
    var close := a + |v| + 1;
    assert s[close] == q[|v| + 1] == '\'';
    if i == a || i + 5 > close {
      assert '\'' !in " and ";
      var at := if i == a then a else close;
      assert i + 5 <= |s| ==> s[i..i + 5][at - i] == '\'';
    } else {
      var o := i - a;
      var x, y := v[o - 1..o + 4], s[i..i + 5];
      forall t | 0 <= t < 5 ensures x[t] == y[t] {
        assert q[1..|v| + 1][o - 1 + t] == q[o + t] == s[a + (o + t)];
      }
      assert x == y;
      assert !HasPrefixAt(v, i - a - 1, " and ");
    }
  }

  function Quoted(kvs: seq<(string, string)>): (r: seq<(string, string)>)
    ensures |r| == |kvs|
    ensures forall i :: 0 <= i < |kvs| ==> r[i] == (kvs[i].0, "'" + kvs[i].1 + "'")
  {
    seq(|kvs|, i requires 0 <= i < |kvs| => (kvs[i].0, "'" + kvs[i].1 + "'"))
  }

  ghost predicate GoodKvs(kvs: seq<(string, string)>) {
    forall i :: 0 <= i < |kvs| ==> GoodKey(kvs[i].0) && GoodValue(kvs[i].1)
  }

  /** One printed pair: k, an equals sign, the quoted value up to e, and then a separator or the end. */
  lemma FindOneKey(s: string, k: string, v: string, e: nat)
    requires GoodKey(k) && GoodValue(v)
    requires |k| + 1 < e <= |s| && s[..|k|] == k && s[|k|] == '=' && s[|k| + 1..e] == "'" + v + "'"
    requires e == |s| || HasPrefixAt(s, e, " and ")
    ensures FindKeys(s) == [(k, "'" + v + "'")] + FindKeys(s[SkipAnds(s, e)..])
  {
    var a := |k| + 1;
    forall i | 0 <= i < |k| ensures IsKeyChar(s[i]) {
      assert s[i] == k[i];
    }
    forall i | a <= i < e ensures s[i] != '\n' && !HasPrefixAt(s, i, " and ") {
      NoAndInQuotes(s, a, v, i);
    }
    ValueEndAt(s, a, e);
    FindKeysOnce(s, |k|, e);
  }

  lemma FindKeysOnce(s: string, n: nat, e: nat)
    requires KeyRun(s) == n < |s| && s[n] == '=' && ValueEnd(s, n + 1) == Some(e)
    ensures n < e && FindKeys(s) == [(s[..n], s[n + 1..e])] + FindKeys(s[SkipAnds(s, e)..])
  {
    hide KeyRun;
    hide ValueEnd;
    hide SkipAnds;
  }

  /** The parts of a printed pair. */
  lemma PairLayout(k: string, v: string, tail: string)
    ensures var s, e := PrintKv((k, v)) + tail, |k| + 3 + |v|;
            && |s| == e + |tail| && s[..|k|] == k && s[|k|] == '=' && s[|k| + 1..e] == "'" + v + "'" && s[e..] == tail
  {
    var value := "'" + v + "'";
    assert PrintKv((k, v)) == k + ("=" + value);
  }

  /** The parts of a separator and what follows it. */
  lemma AndLayout(s: string, e: nat, more: string)
    requires e <= |s| && s[e..] == " and " + more
    ensures HasPrefixAt(s, e, " and ") && s[e + 5..] == more
  {
    var tail := s[e..];
    assert tail[..5] == " and " && tail[5..] == more;
    assert s[e..e + 5] == tail[..5] && s[e + 5..] == tail[5..];
  }

  lemma SkipOneAnd(s: string, j: nat)
    requires HasPrefixAt(s, j, " and ") && j + 5 < |s| && s[j + 5] != ' '
    ensures SkipAnds(s, j) == j + 5
  {
    Mismatch(s, j + 5, " and ", 0);
  }

  lemma Mismatch(s: string, i: nat, pat: string, t: nat)
    requires t < |pat| && i + t < |s| && s[i + t] != pat[t]
    ensures !HasPrefixAt(s, i, pat)
  {
    if i + |pat| <= |s| {
      assert s[i..i + |pat|][t] == s[i + t];
    }
  }

  lemma NothingToFind()
    ensures FindKeys("") == [] && FindAll("") == []
    ensures forall s: string :: SkipAnds(s, |s|) == |s|
  {
  }

  /** Scanning printed keys finds them all, in order. */
  lemma {:induction false} FindPrintedKeys(kvs: seq<(string, string)>)
    requires GoodKvs(kvs)
    ensures FindKeys(PrintKvs(kvs)) == Quoted(kvs)
    decreases |kvs|
  {
    hide FindKeys;
    hide SkipAnds;
    NothingToFind();
    if kvs != [] {
      var s := PrintKvs(kvs);
      var (k, v) := kvs[0];
      var e := |k| + 3 + |v|;
      if |kvs| == 1 {
        PairLayout(k, v, "");
        assert PrintKv((k, v)) + "" == s;
        FindOneKey(s, k, v, e);
        assert s[|s|..] == "";
        assert Quoted(kvs) == [(k, "'" + v + "'")];
      } else {
        var more := PrintKvs(kvs[1..]);
        Associative(PrintKv((k, v)), " and ", more);
        PairLayout(k, v, " and " + more);
        AndLayout(s, e, more);
        FirstOfKvs(kvs[1..]);
        FindOneKey(s, k, v, e);
        SkipOneAnd(s, e);
        FindPrintedKeys(kvs[1..]);
        assert Quoted(kvs) == [(k, "'" + v + "'")] + Quoted(kvs[1..]);
      }
    }
  }

  lemma FirstOfKvs(kvs: seq<(string, string)>)
    requires GoodKvs(kvs) && kvs != []
    ensures PrintKvs(kvs) != "" && PrintKvs(kvs)[0] != ' '
  {
    var k := kvs[0].0;
    var kv := PrintKv(kvs[0]);
    assert PrintKvs(kvs)[0] == kv[0];
    if k != "" {
      assert kv[0] == k[0] && k[0] in k;
    } else {
      assert kv[0] == '=';
    }
  }

  /** The text between the brackets of a printed element holds no bracket and no newline. */
  lemma {:induction false} BodyChars(kvs: seq<(string, string)>)
    requires GoodKvs(kvs)
    ensures '[' !in PrintKvs(kvs) && ']' !in PrintKvs(kvs) && '\n' !in PrintKvs(kvs)
    decreases |kvs|
  {
    if kvs != [] {
      var (k, v) := kvs[0];
      assert '[' !in k && ']' !in k && '\n' !in k;
      if |kvs| > 1 {
        BodyChars(kvs[1..]);
      }
    }
  }

  // ---------- stripping printed text ----------

  /** The first occurrence of an element's text is the element itself: nothing before it holds a bracket. */
  lemma FirstOccurrence(done: string, m: Match, rest: string)
    requires '[' !in done && '[' !in m.name
    ensures IndexFrom(done + MatchText(m) + rest, 0, MatchText(m)) == |done|
  {
    var text := MatchText(m);
    var s := done + text + rest;
    assert text == "/" + m.name + "[" + m.body + "]";
    var k := |m.name| + 1;
    assert text[k] == '[' && forall i :: 0 <= i < k ==> text[i] != '[' by {
      assert text[..k] == "/" + m.name;
    }
    assert s[|done|..|done| + |text|] == text;
    assert HasPrefixAt(s, |done|, text);
    forall j | 0 <= j < |done| ensures !HasPrefixAt(s, j, text) {
      assert s[j + k] == if j + k < |done| then done[j + k] else text[j + k - |done|];
      assert s[j + k] != '[';
      assert j + |text| <= |s| ==> s[j..j + |text|][k] == s[j + k];
    }
  }

  lemma ReplaceElem(done: string, m: Match, rest: string, sub: string)
    requires '[' !in done && '[' !in m.name
    ensures var s := done + MatchText(m) + rest;
            && s[..IndexFrom(s, 0, MatchText(m))] == done
            && ReplaceFirst(s, MatchText(m), sub) == done + sub + rest
  {
    FirstOccurrence(done, m, rest);
    var s := done + MatchText(m) + rest;
    assert s[..|done|] == done && s[|done| + |MatchText(m)|..] == rest;
  }

  lemma {:induction false} RemoveQuotesPlain(v: string)
    requires '\'' !in v
    ensures RemoveQuotes("'" + v + "'") == v
  {
    Unquoted(v, "'");
    assert ("'" + v + "'")[1..] == v + "'";
    assert RemoveQuotes("'") == "" by { assert "'"[1..] == ""; }
  }

  lemma {:induction false} Unquoted(v: string, rest: string)
    requires '\'' !in v
    ensures RemoveQuotes(v + rest) == v + RemoveQuotes(rest)
  {
    if v == "" {
      assert v + rest == rest;
    } else {
      assert (v + rest)[1..] == v[1..] + rest;
      Unquoted(v[1..], rest);
    }
  }

  lemma TrimNothing(s: string)
    requires NoOuterSpace(s)
    ensures TrimSpace(s) == s
  {
  }

  lemma {:induction false} GoodKeyTrimmed(k: string)
    requires GoodKey(k)
    ensures TrimSpace(k) == k
  {
    if k != "" {
      assert k[0] in k && k[|k| - 1] in k;
    }
  }

  /** getAlias without an alias table. */
  function NoAlias(s: string): string {
    s
  }

  /** The scanned pairs of an element give the tags of its keys. */
  lemma {:induction false} PairsAreTags(path: string, kvs: seq<(string, string)>, tags: Tags)
    requires GoodKvs(kvs)
    ensures AddPairs(NoAlias, path, Quoted(kvs), tags) == tags + KeyTags(path, KvMap(kvs))
    decreases |kvs|
  {
    if kvs == [] {
      assert KeyTags(path, map[]) == map[];
    } else {
      var init := kvs[..|kvs| - 1];
      var (k, v) := kvs[|kvs| - 1];
      PairsAreTags(path, init, tags);
      assert Quoted(kvs)[..|kvs| - 1] == Quoted(init);
      GoodKeyTrimmed(k);
      TrimNothing("'" + v + "'");
      RemoveQuotesPlain(v);
      KeyTagsMore(path, KvMap(init), k, v);
      PlusUpdate(tags, KeyTags(path, KvMap(init)), TagKey(path, k), v);
    }
  }

  lemma PrintPathStart(es: seq<Elem>)
    ensures PrintPath(es) == "" || PrintPath(es)[0] == '/'
  {
    if es != [] {
      assert PrintElem(es[0])[0] == '/';
    }
  }

  /** One element with keys: its tags are stored and its text is stripped. */
  lemma SpitKeyed(done: string, e: Elem, rest: string, tags: Tags)
    requires '[' !in done && GoodElem(e) && e.kvs != []
    requires rest == "" || rest[0] == '/'
    ensures SpitFrom(NoAlias, FindAll(PrintElem(e) + rest), done + PrintElem(e) + rest, tags)
            == SpitFrom(NoAlias, FindAll(rest), done + "/" + e.name + rest,
                        tags + KeyTags(done + "/" + e.name, KvMap(e.kvs)))
  {
    hide FindAll;
    hide FindKeys;
    hide SpitFrom;
    var body := PrintKvs(e.kvs);
    var m, path := Match(e.name, body), done + "/" + e.name;
    ElemText(e);
    BodyChars(e.kvs);
    MatchElem(e.name, body, rest);
    ReplaceElem(done, m, rest, "/" + e.name);
    TrimNothing(e.name);
    FindPrintedKeys(e.kvs);
    PairsAreTags(path, e.kvs, tags);
    Associative(done, "/", e.name);
    SpitStep(NoAlias, m, FindAll(rest), done + MatchText(m) + rest, tags, path + rest,
             tags + KeyTags(path, KvMap(e.kvs)), done);
  }

  lemma ElemText(e: Elem)
    requires e.kvs != []
    ensures PrintElem(e) == MatchText(Match(e.name, PrintKvs(e.kvs)))
  {
  }

  /** One round of the parser's loop. */
  lemma SpitStep(alias: string -> string, m: Match, more: seq<Match>, xmlpath: string, tags: Tags, xmlpath': string,
                 tags': Tags, before: string)
    requires before == xmlpath[..IndexFrom(xmlpath, 0, MatchText(m))]
    requires xmlpath' == alias(ReplaceFirst(xmlpath, MatchText(m), "/" + TrimSpace(m.name)))
    requires tags' == AddPairs(alias, before + "/" + TrimSpace(m.name), FindKeys(m.body), tags)
    ensures SpitFrom(alias, [m] + more, xmlpath, tags) == SpitFrom(alias, more, xmlpath', tags')
  {
    assert ([m] + more)[1..] == more;
  }

  /** One element, with keys or without. */
  lemma SpitElem(done: string, e: Elem, rest: string, tags: Tags)
    requires '[' !in done && GoodElem(e)
    requires rest == "" || rest[0] == '/'
    ensures var path := done + "/" + e.name;
            SpitFrom(NoAlias, FindAll(PrintElem(e) + rest), done + (PrintElem(e) + rest), tags)
            == SpitFrom(NoAlias, FindAll(rest), path + rest, tags + KeyTags(path, KvMap(e.kvs)))
  {
    hide FindAll;
    hide SpitFrom;
    Associative(done, PrintElem(e), rest);
    if e.kvs == [] {
      var path := done + "/" + e.name;
      assert PrintElem(e) == "/" + e.name;
      FindAllPlain(PrintElem(e), rest);
      Associative(done, "/", e.name);
      assert tags + KeyTags(path, map[]) == tags;
    } else {
      SpitKeyed(done, e, rest, tags);
    }
  }

  lemma ElemsStep(done: string, es: seq<Elem>, tags: Tags)
    requires es != []
    ensures var path := done + "/" + es[0].name;
            && XPath(done, ElemsOf(es)) == XPath(path, ElemsOf(es[1..]))
            && tags + TagsOf(done, ElemsOf(es)) ==
              (tags + KeyTags(path, KvMap(es[0].kvs))) + TagsOf(path, ElemsOf(es[1..]))
  {
    var path := done + "/" + es[0].name;
    assert ElemsOf(es)[1..] == ElemsOf(es[1..]);
    PlusAssociative(tags, KeyTags(path, KvMap(es[0].kvs)), TagsOf(path, ElemsOf(es[1..])));
  }

  /** The parser on printed elements behind an already stripped path. */
  lemma {:induction false} SpitPrinted(done: string, es: seq<Elem>, tags: Tags)
    requires '[' !in done && GoodElems(es)
    ensures SpitFrom(NoAlias, FindAll(PrintPath(es)), done + PrintPath(es), tags)
            == (XPath(done, ElemsOf(es)), tags + TagsOf(done, ElemsOf(es)))
    decreases |es|
  {
    if es == [] {
      assert done + "" == done && tags + map[] == tags;
    } else {
      var e, rest, path := es[0], PrintPath(es[1..]), done + "/" + es[0].name;
      PrintPathStart(es[1..]);
      SpitElem(done, e, rest, tags);
      SpitPrinted(path, es[1..], tags + KeyTags(path, KvMap(e.kvs)));
      ElemsStep(done, es, tags);
    }
  }

  lemma PlusEmpty(t: Tags)
    ensures map[] + t == t
  {
  }

  lemma SplitPathIs(alias: string -> string, s: string)
    ensures SplitPath(alias, s) == SpitFrom(alias, FindAll(s), s, map[])
  {
    hide FindAll;
    hide SpitFrom;
  }

  /**
   Text and structure agree: printing elements after a prefix and parsing the text gives the path and
   the tags that gnmiParsePath takes from the elements, for every order of the keys.
   */
  lemma PrintThenParse(prefix: string, es: seq<Elem>)
    requires '[' !in prefix && GoodElems(es)
    ensures SplitPath(NoAlias, prefix + PrintPath(es)) == (XPath(prefix, ElemsOf(es)), TagsOf(prefix, ElemsOf(es)))
  {
    hide *;
    PrintPathStart(es);
    FindAllPlain(prefix, PrintPath(es));
    SpitPrinted(prefix, es, map[]);
    PlusEmpty(TagsOf(prefix, ElemsOf(es)));
    SplitPathIs(NoAlias, prefix + PrintPath(es));
  }

  /** Only white space. */
  predicate Blank(s: string) {
    forall i :: 0 <= i < |s| ==> IsSpace(s[i])
  }

  lemma {:induction false} TrimSpaceIs(l: string, s: string, r: string)
    requires Blank(l) && Blank(r) && NoOuterSpace(s) && s != ""
    ensures TrimSpace(l + s + r) == s
    decreases |l| + |r|
  {
    hide IsSpace;
    var t := l + s + r;
    if l != "" {
      assert t[1..] == l[1..] + s + r && t[0] == l[0];
      TrimSpaceIs(l[1..], s, r);
    } else if r != "" {
      assert t == s + r && t[0] == s[0] && t[|t| - 1] == r[|r| - 1];
      assert t[..|t| - 1] == l + s + r[..|r| - 1];
      TrimSpaceIs(l, s, r[..|r| - 1]);
    } else {
      assert t == s;
    }
  }

  lemma {:induction false} FindRawKey(k: string, w: string)
    requires GoodKey(k) && '\n' !in w && NoAnd(w)
    ensures FindKeys(k + "=" + w) == [(k, w)]
  {
    var s, a := k + "=" + w, |k| + 1;
    forall i | 0 <= i < |k| ensures IsKeyChar(s[i]) {
      assert s[i] == k[i];
    }
    forall i: nat | a <= i < |s| ensures s[i] != '\n' && !HasPrefixAt(s, i, " and ") {
      assert s[i] == w[i - a];
      assert i + 5 <= |s| ==> s[i..i + 5] == w[i - a..i - a + 5];
      assert !HasPrefixAt(w, i - a, " and ");
    }
    ValueEndAt(s, a, |s|);
    assert s[|k|] == '=' && KeyRun(s) == |k|;
    FindKeysOnce(s, |k|, |s|);
    assert SkipAnds(s, |s|) == |s| && s[|s|..] == "" && FindKeys("") == [];
    assert s[..|k|] == k && s[a..|s|] == w;
    assert [(k, w)] + [] == [(k, w)];
  }

  /**
   One element with one key, with an alias table, white space around the name and the value, and the value quoted or
   not: spaces and quotes go, and both the stripped path and the tag of the key go by their aliases.
   */
  lemma {:induction false} OneKeyAliased(alias: string -> string, done: string, name: string, k: string, w: string,
                                         rest: string, bare: string, v: string)
    requires '[' !in done && '/' !in name && '[' !in name && '[' !in rest && (rest == "" || rest[0] == '/')
    requires GoodKey(k) && '[' !in w && ']' !in w && '\n' !in w && NoAnd(w)
    requires TrimSpace(name) == bare && '\'' !in v && (TrimSpace(w) == v || TrimSpace(w) == "'" + v + "'")
    ensures SplitPath(alias, done + "/" + name + "[" + k + "=" + w + "]" + rest) ==
      (alias(done + "/" + bare + rest), map[alias(done + "/" + bare + "/@" + k) := v])
  {
    hide FindAll;
    hide FindKeys;
    hide SpitFrom;
    hide TrimSpace;
    var body, path := k + "=" + w, done + "/" + bare;
    var m := Match(name, body);
    var text := done + MatchText(m) + rest;
    KeyChars(k, w);
    MatchElem(name, body, rest);
    ReplaceElem(done, m, rest, "/" + bare);
    FindRawKey(k, w);
    Associative(done, "/", bare);
    NothingBehind(rest);
    OnePair(alias, path, k, w, v);
    FindAllPlain(done, MatchText(m) + rest);
    Associative(done, MatchText(m), rest);
    SpitStep(alias, m, [], text, map[], alias(path + rest), map[alias(path + "/@" + k) := v], done);
    NoMoreMatches(alias, alias(path + rest), map[alias(path + "/@" + k) := v]);
    SplitPathIs(alias, text);
    assert [m] + [] == [m];
    SameText(done, name, k, w, rest);
  }

  lemma SameText(done: string, name: string, k: string, w: string, rest: string)
    ensures done + "/" + name + "[" + k + "=" + w + "]" + rest == done + MatchText(Match(name, k + "=" + w)) + rest
  {
  }

  lemma KeyChars(k: string, w: string)
    requires GoodKey(k) && '[' !in w && ']' !in w && '\n' !in w
    ensures var body := k + "=" + w; '[' !in body && ']' !in body && '\n' !in body
  {
  }

  lemma NothingBehind(rest: string)
    requires '[' !in rest && (rest == "" || rest[0] == '/')
    ensures FindAll(rest) == []
  {
    FindAllPlain(rest, "");
    assert rest + "" == rest;
  }

  lemma NoMoreMatches(alias: string -> string, path: string, tags: Tags)
    ensures SpitFrom(alias, [], path, tags) == (path, tags)
  {
  }

  lemma {:induction false} OnePair(alias: string -> string, path: string, k: string, w: string, v: string)
    requires GoodKey(k) && '\'' !in v && (TrimSpace(w) == v || TrimSpace(w) == "'" + v + "'")
    ensures AddPairs(alias, path, [(k, w)], map[]) == map[alias(path + "/@" + k) := v]
  {
    GoodKeyTrimmed(k);
    RemoveQuotesPlain(v);
    Unquoted(v, "");
    assert v + "" == v && RemoveQuotes("") == "";
    hide TrimSpace;
    hide RemoveQuotes;
    var pairs := [(k, w)];
    assert pairs[..0] == [] && AddPairs(alias, path, [], map[]) == map[];
  }

  // ---------- for the structured path itself ----------

  ghost predicate GoodPathElem(pe: PathElem) {
    && '/' !in pe.name && '[' !in pe.name
    && (pe.keys != map[] ==> NoOuterSpace(pe.name))
    && forall k :: k in pe.keys ==> GoodKey(k) && GoodValue(pe.keys[k])
  }

  lemma {:induction false} KvMapHas(kvs: seq<(string, string)>, i: nat)
    requires Distinct(kvs) && i < |kvs|
    ensures kvs[i].0 in KvMap(kvs) && KvMap(kvs)[kvs[i].0] == kvs[i].1
  {
    if i < |kvs| - 1 {
      KvMapHas(kvs[..|kvs| - 1], i);
    }
  }

  lemma {:induction false} ElemsOfAt(es: seq<Elem>, i: nat)
    requires i < |es|
    ensures ElemsOf(es)[i] == ElemOf(es[i])
  {
    if i > 0 {
      ElemsOfAt(es[1..], i - 1);
    }
  }

  /** Every text that getPath may print for the elements parses to the path and the tags of the elements. */
  lemma TextAgreesWithStructure(prefix: string, pes: seq<PathElem>, text: string)
    requires '[' !in prefix && forall i :: 0 <= i < |pes| ==> GoodPathElem(pes[i])
    requires IsPrinted(prefix, pes, text)
    ensures SplitPath(NoAlias, text) == (XPath(prefix, pes), TagsOf(prefix, pes))
  {
    hide FindAll;
    hide SpitFrom;
    hide XPath;
    hide TagsOf;
    hide PrintPath;
    var es: seq<Elem> :| ElemsOf(es) == pes && text == prefix + PrintPath(es) && AllDistinct(es);
    forall i | 0 <= i < |es| ensures GoodElem(es[i]) {
      ElemsOfAt(es, i);
      var kvs := es[i].kvs;
      forall j | 0 <= j < |kvs| ensures GoodKey(kvs[j].0) && GoodValue(kvs[j].1) {
        KvMapHas(kvs, j);
      }
      if kvs != [] {
        KvMapHas(kvs, 0);
      }
    }
    PrintThenParse(prefix, es);
  }
}

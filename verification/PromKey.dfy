/**
 The key of a Prometheus series (prometheus_exporter.go): the metric name and the label names and
 values, label names sorted, printed as a list of quoted strings.
 */
module PromKey {
  import opened Text

  type Labels = map<string, string>

  // ---------- the order of strings ----------

  /** The order in which sort.Strings puts strings: code points, which is the order of their UTF-8 bytes. */
  predicate Below(a: string, b: string) {
    b != [] && (a == [] || a[0] < b[0] || (a[0] == b[0] && Below(a[1..], b[1..])))
  }

  lemma {:induction false} BelowTotal(a: string, b: string)
    ensures a == b || Below(a, b) || Below(b, a)
  {
    if a != [] && b != [] && a[0] == b[0] {
      BelowTotal(a[1..], b[1..]);
      assert a == [a[0]] + a[1..] && b == [b[0]] + b[1..];
    }
  }

  lemma {:induction false} BelowTransitive(a: string, b: string, c: string)
    requires Below(a, b) && Below(b, c)
    ensures Below(a, c)
  {
    if a != [] && a[0] == b[0] == c[0] {
      BelowTransitive(a[1..], b[1..], c[1..]);
    }
  }

  lemma {:induction false} BelowIrreflexive(a: string)
    ensures !Below(a, a)
  {
    if a != [] {
      BelowIrreflexive(a[1..]);
    }
  }

  /** Strictly ascending. */
  ghost predicate Ascending(s: seq<string>) {
    forall i, j :: 0 <= i < j < |s| ==> Below(s[i], s[j])
  }

  ghost function Elements(s: seq<string>): set<string> {
    set x | x in s
  }

  /** The first of an ascending list is the least element of its set. */
  lemma LeastFirst(s: seq<string>, x: string)
    requires Ascending(s) && s != [] && x in s
    ensures x == s[0] || Below(s[0], x)
  {
  }

  lemma {:induction false} AscendingTail(s: seq<string>)
    requires Ascending(s) && s != []
    ensures Ascending(s[1..]) && Elements(s[1..]) == Elements(s) - {s[0]}
  {
    BelowIrreflexive(s[0]);
    assert s == [s[0]] + s[1..];
    assert forall i :: 0 <= i < |s[1..]| ==> s[1..][i] == s[i + 1];
  }

  /** Sorting is canonical: a set of strings has one ascending enumeration. */
  lemma {:induction false} AscendingUnique(s: seq<string>, t: seq<string>)
    requires Ascending(s) && Ascending(t) && Elements(s) == Elements(t)
    ensures s == t
  {
    if t != [] {
      assert t[0] in Elements(t);
    }
    if s != [] {
      assert s[0] in Elements(s);
      assert s[0] in t && t != [];
      LeastFirst(s, t[0]);
      LeastFirst(t, s[0]);
      assert s[0] == t[0] by {
        if s[0] != t[0] {
          BelowTransitive(s[0], t[0], s[0]);
          BelowIrreflexive(s[0]);
          assert false;
        }
      }
      AscendingTail(s);
      AscendingTail(t);
      AscendingUnique(s[1..], t[1..]);
      assert s == [s[0]] + s[1..] && t == [t[0]] + t[1..];
    }
  }

  // ---------- quoting, as the %q verb does it ----------

  /** The character for a hexadecimal digit. */
  function Digit(n: nat): (c: char)
    requires n < 16
    ensures c != '"' && c != '\\'
  {
    "0123456789abcdef"[n]
  }

  lemma DigitInjective(m: nat, n: nat)
    requires m < 16 && n < 16 && Digit(m) == Digit(n)
    ensures m == n
  {
  }

  function Hex(n: nat, width: nat): (r: string)
    ensures |r| == width
    ensures forall i :: 0 <= i < width ==> r[i] != '"' && r[i] != '\\'
  {
    if width == 0 then [] else Hex(n / 16, width - 1) + [Digit(n % 16)]
  }

  function Power16(width: nat): nat {
    if width == 0 then 1 else 16 * Power16(width - 1)
  }

  lemma {:induction false} HexInjective(m: nat, n: nat, width: nat)
    requires m < Power16(width) && n < Power16(width) && Hex(m, width) == Hex(n, width)
    ensures m == n
  {
    if width > 0 {
      var a, b := Hex(m, width), Hex(n, width);
      assert a[..width - 1] == Hex(m / 16, width - 1) && b[..width - 1] == Hex(n / 16, width - 1);
      assert a[width - 1] == Digit(m % 16) && b[width - 1] == Digit(n % 16);
      HexInjective(m / 16, n / 16, width - 1);
      DigitInjective(m % 16, n % 16);
    }
  }

  /** The letters of the short escapes: \a \b \f \n \r \t \v. */
  function Short(c: char): string {
    match c as int
    case 7 => "a"
    case 8 => "b"
    case 12 => "f"
    case 10 => "n"
    case 13 => "r"
    case 9 => "t"
    case 11 => "v"
    case _ => ""
  }

  /** What follows the backslash in the escape of a character that is neither printable nor quote nor backslash. */
  function Long(c: char): (r: string) {
    var n := c as int;
    if Short(c) != "" then Short(c)
    else if n < 0x20 || n == 0x7f then "x" + Hex(n, 2)
    else if n < 0x10000 then "u" + Hex(n, 4)
    else "U" + Hex(n, 8)
  }

  /** A character inside quotes; `printable` tells which characters stand for themselves. */
  function Escape(c: char, printable: char -> bool): (r: string)
    ensures r != []
  {
    if c == '"' || c == '\\' then ['\\', c]
    else if printable(c) then [c]
    else "\\" + Long(c)
  }

  function Escapes(s: string, printable: char -> bool): string {
    if s == [] then [] else Escape(s[0], printable) + Escapes(s[1..], printable)
  }

  function Quote(s: string, printable: char -> bool): string {
    "\"" + Escapes(s, printable) + "\""
  }

  /** The strings of a list, each quoted, a space between two. */
  function QuoteAll(list: seq<string>, printable: char -> bool): string {
    if list == [] then ""
    else if |list| == 1 then Quote(list[0], printable)
    else Quote(list[0], printable) + " " + QuoteAll(list[1..], printable)
  }

  function QuoteList(list: seq<string>, printable: char -> bool): string {
    "[" + QuoteAll(list, printable) + "]"
  }

  // ---------- the encoding is injective ----------

  /** The escape letter tells the length of an escape. */
  function LongLength(letter: char): nat {
    if letter == 'x' then 3 else if letter == 'u' then 5 else if letter == 'U' then 9 else 1
  }

  lemma LongShape(c: char)
    ensures Long(c) != [] && |Long(c)| == LongLength(Long(c)[0])
    ensures Long(c)[0] != '"' && Long(c)[0] != '\\'
  {
  }

  lemma Powers()
    ensures Power16(2) == 0x100 && Power16(4) == 0x10000 && Power16(8) == 0x1_0000_0000
  {
    assert Power16(1) == 16;
    assert Power16(3) == 16 * Power16(2);
    assert Power16(5) == 16 * Power16(4);
    assert Power16(6) == 16 * Power16(5);
    assert Power16(7) == 16 * Power16(6);
  }

  lemma LongInjective(c: char, d: char)
    requires Long(c) == Long(d)
    ensures c == d
  {
    Powers();
    var x, y := Long(c), Long(d);
    LongShape(c);
    LongShape(d);
    if Short(c) == "" && Short(d) == "" {
      assert x[1..] == y[1..];
      var w := |x| - 1;
      assert x[1..] == Hex(c as int, w) && y[1..] == Hex(d as int, w);
      HexInjective(c as int, d as int, w);
    }
  }

  /** Two texts that agree and start with pieces of known equal length have equal pieces and equal rests. */
  lemma SamePieces(p: string, x: string, q: string, y: string)
    requires p + x == q + y && |p| == |q|
    ensures p == q && x == y
  {
    assert p == (p + x)[..|p|] && q == (q + y)[..|q|];
    assert x == (p + x)[|p|..] && y == (q + y)[|q|..];
  }

  lemma EscapeShape(c: char, printable: char -> bool)
    ensures var e := Escape(c, printable);
      && e[0] != '"'
      && (e[0] != '\\' <==> c != '"' && c != '\\' && printable(c))
      && (e[0] == '\\' ==> |e| >= 2 && |e| == 1 + LongLength(e[1]))
  {
    LongShape(c);
  }

  /** Escapes form a prefix code. */
  lemma EscapePrefixFree(c: char, x: string, d: char, y: string, printable: char -> bool)
    requires Escape(c, printable) + x == Escape(d, printable) + y
    ensures c == d && x == y
  {
    var e, f := Escape(c, printable), Escape(d, printable);
    EscapeShape(c, printable);
    EscapeShape(d, printable);
    assert e[0] == (e + x)[0] && f[0] == (f + y)[0];
    if e[0] == '\\' {
      assert e[1] == (e + x)[1] && f[1] == (f + y)[1];
    }
    SamePieces(e, x, f, y);
    EscapeInjective(c, d, printable);
  }

  lemma EscapeInjective(c: char, d: char, printable: char -> bool)
    requires Escape(c, printable) == Escape(d, printable)
    ensures c == d
  {
    LongShape(c);
    LongShape(d);
    var e, f := Escape(c, printable), Escape(d, printable);
    assert e[1..] == f[1..];
    if e[0] == '\\' && e[1] != '"' && e[1] != '\\' {
      assert e[1..] == Long(c) && f[1..] == Long(d);
      LongInjective(c, d);
    }
  }

  lemma FirstIsQuote(s: string, x: string, printable: char -> bool)
    ensures (Escapes(s, printable) + "\"" + x)[0] == '"' <==> s == []
  {
    if s != [] {
      EscapeShape(s[0], printable);
    }
  }

  /** Where a quoted text ends is decided by the text alone. */
  lemma {:induction false} EscapesEnd(s: string, x: string, t: string, y: string, printable: char -> bool)
    requires Escapes(s, printable) + "\"" + x == Escapes(t, printable) + "\"" + y
    ensures s == t && x == y
  {
    var q := "\"";
    FirstIsQuote(s, x, printable);
    FirstIsQuote(t, y, printable);
    if s == [] {
      assert Escapes(s, printable) + q == q;
      SamePieces(q, x, q, y);
    } else {
      var e, f := Escape(s[0], printable), Escape(t[0], printable);
      var m, n := Escapes(s[1..], printable), Escapes(t[1..], printable);
      Regroup(e, m, x);
      Regroup(f, n, y);
      EscapePrefixFree(s[0], m + q + x, t[0], n + q + y, printable);
      EscapesEnd(s[1..], x, t[1..], y, printable);
      assert s == [s[0]] + s[1..] && t == [t[0]] + t[1..];
    }
  }

  lemma Regroup(e: string, m: string, x: string)
    ensures (e + m) + "\"" + x == e + (m + "\"" + x)
  {
  }

  lemma QuotePrefixFree(s: string, x: string, t: string, y: string, printable: char -> bool)
    requires Quote(s, printable) + x == Quote(t, printable) + y
    ensures s == t && x == y
  {
    var q := "\"";
    var a, b := Escapes(s, printable), Escapes(t, printable);
    Regroup(q, a, x);
    Regroup(q, b, y);
    SamePieces(q, a + q + x, q, b + q + y);
    EscapesEnd(s, x, t, y, printable);
  }

  /** The rest of a list's text after its first element, up to the closing bracket. */
  function Rest(list: seq<string>, printable: char -> bool): string {
    if list == [] then "]" else " " + QuoteAll(list, printable) + "]"
  }

  lemma QuoteAllCons(list: seq<string>, printable: char -> bool)
    requires list != []
    ensures QuoteAll(list, printable) + "]" == Quote(list[0], printable) + Rest(list[1..], printable)
  {
    var q := Quote(list[0], printable);
    if |list| > 1 {
      Associative(q, " ", QuoteAll(list[1..], printable));
      Associative(q, " " + QuoteAll(list[1..], printable), "]");
    }
  }

  lemma {:induction false} RestInjective(s: seq<string>, t: seq<string>, printable: char -> bool)
    requires Rest(s, printable) == Rest(t, printable)
    ensures s == t
  {
    if s != [] {
      assert Rest(s, printable)[0] == ' ';
      var a, b := QuoteAll(s, printable) + "]", QuoteAll(t, printable) + "]";
      Associative(" ", QuoteAll(s, printable), "]");
      Associative(" ", QuoteAll(t, printable), "]");
      SamePieces(" ", a, " ", b);
      QuoteAllCons(s, printable);
      QuoteAllCons(t, printable);
      QuotePrefixFree(s[0], Rest(s[1..], printable), t[0], Rest(t[1..], printable), printable);
      RestInjective(s[1..], t[1..], printable);
      assert s == [s[0]] + s[1..] && t == [t[0]] + t[1..];
    } else {
      assert Rest(t, printable)[0] == ']';
    }
  }

  /** The printed list determines the list: quoting keeps apart every two lists of nonempty length. */
  lemma QuoteListInjective(s: seq<string>, t: seq<string>, printable: char -> bool)
    requires s != [] && t != [] && QuoteList(s, printable) == QuoteList(t, printable)
    ensures s == t
  {
    Associative("[", QuoteAll(s, printable), "]");
    Associative("[", QuoteAll(t, printable), "]");
    SamePieces("[", QuoteAll(s, printable) + "]", "[", QuoteAll(t, printable) + "]");
    Associative(" ", QuoteAll(s, printable), "]");
    Associative(" ", QuoteAll(t, printable), "]");
    RestInjective(s, t, printable);
  }

  // ---------- the key of a metric ----------

  /** Name and value of each label, in the order given. */
  function Pairs(labels: Labels, names: seq<string>): (r: seq<string>)
    requires forall n :: n in names ==> n in labels
    ensures |r| == 2 * |names|
    ensures forall i :: 0 <= i < |names| ==> r[2 * i] == names[i] && r[2 * i + 1] == labels[names[i]]
  {
    if names == [] then []
    else
      var k := |names| - 1;
      var before := Pairs(labels, names[..k]);
      assert forall i :: 0 <= i < k ==> before[2 * i] == names[i] && before[2 * i + 1] == labels[names[i]];
      before + [names[k], labels[names[k]]]
  }

  /** Is this the key of a metric with this name and these labels? */
  ghost predicate IsKey(key: string, name: string, labels: Labels, printable: char -> bool) {
    exists names: seq<string> ::
      && Ascending(names) && Elements(names) == labels.Keys
      && key == QuoteList([name] + Pairs(labels, names), printable)
  }

  lemma PairsInjective(l: Labels, ls: seq<string>, m: Labels, ms: seq<string>)
    requires Elements(ls) == l.Keys && Elements(ms) == m.Keys && Pairs(l, ls) == Pairs(m, ms)
    ensures l == m
  {
    var p := Pairs(l, ls);
    assert |ls| == |ms|;
    forall i | 0 <= i < |ls| ensures ls[i] == ms[i] && l[ls[i]] == m[ls[i]] {
      assert p[2 * i] == ls[i] && p[2 * i + 1] == l[ls[i]];
      assert p[2 * i] == ms[i] && p[2 * i + 1] == m[ms[i]];
    }
    assert ls == ms;
    forall k | k in l ensures k in m && l[k] == m[k] {
      assert k in Elements(ls);
      var i :| 0 <= i < |ls| && ls[i] == k;
    }
    assert l.Keys == m.Keys;
  }

  /** Two metrics have equal keys exactly when they have the same name and the same labels. */
  lemma KeysAgree(k: string, n: string, l: Labels, k': string, n': string, l': Labels, printable: char -> bool)
    requires IsKey(k, n, l, printable) && IsKey(k', n', l', printable)
    ensures k == k' <==> n == n' && l == l'
  {
    var s :| Ascending(s) && Elements(s) == l.Keys && k == QuoteList([n] + Pairs(l, s), printable);
    var s' :| Ascending(s') && Elements(s') == l'.Keys && k' == QuoteList([n'] + Pairs(l', s'), printable);
    if k == k' {
      QuoteListInjective([n] + Pairs(l, s), [n'] + Pairs(l', s'), printable);
      assert ([n] + Pairs(l, s))[0] == n && ([n'] + Pairs(l', s'))[0] == n';
      assert ([n] + Pairs(l, s))[1..] == Pairs(l, s) && ([n'] + Pairs(l', s'))[1..] == Pairs(l', s');
      PairsInjective(l, s, l', s');
    }
    if n == n' && l == l' {
      AscendingUnique(s, s');
    }
  }

  /** A list of the keys of a map in some order of iteration, each key once. */
  ghost predicate Enumerates(order: seq<string>, keys: set<string>) {
    && Elements(order) == keys
    && forall i, j :: 0 <= i < j < |order| ==> order[i] != order[j]
  }

  /** Insertion sort; the source calls sort.Strings. */
  method SortStrings(s: seq<string>) returns (r: seq<string>)
    requires forall i, j :: 0 <= i < j < |s| ==> s[i] != s[j]
    ensures Ascending(r) && Elements(r) == Elements(s)
  {
    r := [];
    for i := 0 to |s|
      invariant Ascending(r) && Elements(r) == Elements(s[..i])
    {
      var k := |r|;
      while k > 0 && Below(s[i], r[k - 1])
        invariant 0 <= k <= |r|
        invariant forall j :: k <= j < |r| ==> Below(s[i], r[j])
      {
        k := k - 1;
      }
      assert Elements(s[..i + 1]) == Elements(s[..i]) + {s[i]} by {
        assert s[..i + 1] == s[..i] + [s[i]];
      }
      Inserted(r, k, s[i], s, i);
      r := r[..k] + [s[i]] + r[k..];
    }
    assert s[..|s|] == s;
  }

  lemma Inserted(r: seq<string>, k: nat, x: string, s: seq<string>, i: nat)
    requires Ascending(r) && k <= |r| && i < |s| && x == s[i] && Elements(r) == Elements(s[..i])
    requires forall a, b :: 0 <= a < b < |s| ==> s[a] != s[b]
    requires k == 0 || !Below(x, r[k - 1])
    requires forall j :: k <= j < |r| ==> Below(x, r[j])
    ensures Ascending(r[..k] + [x] + r[k..])
    ensures Elements(r[..k] + [x] + r[k..]) == Elements(r) + {x}
  {
    forall j | 0 <= j < |r| ensures r[j] != x {
      assert r[j] in Elements(r);
      assert r[j] in s[..i];
    }
    var t := r[..k] + [x] + r[k..];
    forall j | 0 <= j < k ensures Below(r[j], x) {
      BelowTotal(r[k - 1], x);
      assert Below(r[k - 1], x);
      if j < k - 1 {
        BelowTransitive(r[j], r[k - 1], x);
      }
    }
    hide Below;
    assert r == r[..k] + r[k..];
    assert forall y :: y in t <==> y in r || y == x;
  }

  /** The key of a metric, whatever the order in which the iteration over the labels meets them. */
  method GetMapKey(name: string, labels: Labels, order: seq<string>, printable: char -> bool) returns (key: string)
    requires Enumerates(order, labels.Keys)
    ensures IsKey(key, name, labels, printable)
  {
    var names: seq<string> := [];
    for i := 0 to |order|
      invariant names == order[..i]
    {
      names := names + [order[i]];
    }
    names := SortStrings(names);
    assert order[..|order|] == order;
    forall n | n in names ensures n in labels {
      assert n in Elements(names);
    }
    var list := [name];
    for i := 0 to |names|
      invariant list == [name] + Pairs(labels, names[..i])
    {
      assert names[..i + 1][..i] == names[..i];
      list := list + [names[i], labels[names[i]]];
    }
    assert names[..|names|] == names;
    key := QuoteList(list, printable);
  }

  // ---------- label building in addPrometheus ----------

  predicate NameChar(c: char) {
    'a' <= c <= 'z' || 'A' <= c <= 'Z' || '0' <= c <= '9' || c == '_'
  }

  /** Every character that Prometheus does not allow in a name becomes an underscore. */
  function PromName(s: string): string {
    if s == [] then [] else PromName(s[..|s| - 1]) + [if NameChar(s[|s| - 1]) then s[|s| - 1] else '_']
  }

  lemma {:induction false} PromNameAt(s: string, i: nat)
    requires i < |s|
    ensures |PromName(s)| == |s|
    ensures var c := s[i];
      PromName(s)[i] ==
      if 'a' <= c <= 'z' || 'A' <= c <= 'Z' || '0' <= c <= '9' || c == '_' then c else '_'
  {
    if |s| > 1 {
      PromNameAt(s[..|s| - 1], if i < |s| - 1 then i else 0);
    }
  }

  /** The last tag of the order that goes by label name `l` is at k. */
  ghost predicate LastNamed(order: seq<string>, k: int, l: string) {
    0 <= k < |order| && PromName(order[k]) == l && forall j :: k < j < |order| ==> PromName(order[j]) != l
  }

  /** The last tag of the order that goes by label name `l` has value `v`. */
  ghost predicate LastValue(tags: Labels, order: seq<string>, l: string, v: string) {
    exists k :: LastNamed(order, k, l) && order[k] in tags && tags[order[k]] == v
  }

  ghost predicate IsLabels(tags: Labels, order: seq<string>, labels: Labels) {
    && (forall t :: t in order ==> PromName(t) in labels)
    && (forall l :: l in labels ==> LastValue(tags, order, l, labels[l]))
  }

  lemma NoLabels(tags: Labels)
    ensures IsLabels(tags, [], map[])
  {
  }

  lemma LastStays(tags: Labels, order: seq<string>, t: string, l: string, v: string)
    requires LastValue(tags, order, l, v) && l != PromName(t)
    ensures LastValue(tags, order + [t], l, v)
  {
    hide PromName;
    var k :| LastNamed(order, k, l) && order[k] in tags && tags[order[k]] == v;
    assert LastNamed(order + [t], k, l);
  }

  lemma OneMoreTag(tags: Labels, order: seq<string>, t: string, labels: Labels)
    requires IsLabels(tags, order, labels) && t in tags
    ensures IsLabels(tags, order + [t], labels[PromName(t) := tags[t]])
  {
    var more, after := order + [t], labels[PromName(t) := tags[t]];
    hide PromName;
    forall l | l in after ensures LastValue(tags, more, l, after[l]) {
      if l == PromName(t) {
        assert LastNamed(more, |order|, l);
      } else {
        LastStays(tags, order, t, l, labels[l]);
      }
    }
  }

  /** Labels of a metric: each tag under its Prometheus name; of two tags with one name the later one met wins. */
  method BuildLabels(tags: Labels, order: seq<string>) returns (labels: Labels)
    requires Enumerates(order, tags.Keys)
    ensures IsLabels(tags, order, labels)
  {
    hide PromName;
    hide IsLabels;
    assert forall k :: k in order ==> k in Elements(order);
    labels := map[];
    NoLabels(tags);
    assert order[..0] == [];
    for i := 0 to |order|
      invariant IsLabels(tags, order[..i], labels)
    {
      OneMoreTag(tags, order[..i], order[i], labels);
      assert order[..i + 1] == order[..i] + [order[i]];
      labels := labels[PromName(order[i]) := tags[order[i]]];
    }
    assert order[..|order|] == order;
  }

  /** Labels that some order of iteration gives. */
  ghost predicate CanBeLabels(tags: Labels, labels: Labels) {
    exists order :: Enumerates(order, tags.Keys) && IsLabels(tags, order, labels)
  }

  /** Tags that share a Prometheus name have one value. */
  ghost predicate Agreeing(tags: Labels) {
    forall t, u :: t in tags && u in tags && PromName(t) == PromName(u) ==> tags[t] == tags[u]
  }

  lemma SameLabel(tags: Labels, o: seq<string>, l: Labels, o': seq<string>, l': Labels, x: string)
    requires Enumerates(o, tags.Keys) && IsLabels(tags, o, l) && x in l
    requires Enumerates(o', tags.Keys) && IsLabels(tags, o', l')
    requires Agreeing(tags)
    ensures x in l' && l[x] == l'[x]
  {
    hide PromName;
    var k :| LastNamed(o, k, x) && o[k] in tags && tags[o[k]] == l[x];
    assert o[k] in Elements(o');
    var k' :| LastNamed(o', k', x) && o'[k'] in tags && tags[o'[k']] == l'[x];
  }

  lemma {:induction false} EnumerateKeys(keys: set<string>) returns (order: seq<string>)
    ensures Enumerates(order, keys)
  {
    if keys == {} {
      order := [];
    } else {
      var k :| k in keys;
      order := EnumerateLast(keys, k);
    }
  }

  /** Any key can be the last one met. */
  lemma {:induction false} EnumerateLast(keys: set<string>, k: string) returns (order: seq<string>)
    requires k in keys
    ensures Enumerates(order, keys) && order != [] && order[|order| - 1] == k
  {
    var before := EnumerateKeys(keys - {k});
    order := before + [k];
    forall i | 0 <= i < |before| ensures before[i] != k {
      assert before[i] in Elements(before);
    }
    forall x ensures x in Elements(order) <==> x in keys {
      assert x in Elements(before) <==> x in keys - {k};
    }
  }

  lemma {:induction false} SomeLabels(tags: Labels, order: seq<string>) returns (labels: Labels)
    requires forall t :: t in order ==> t in tags
    ensures IsLabels(tags, order, labels)
  {
    if order == [] {
      labels := map[];
      NoLabels(tags);
    } else {
      var k := |order| - 1;
      assert order[k] in order;
      var before := SomeLabels(tags, order[..k]);
      OneMoreTag(tags, order[..k], order[k], before);
      labels := before[PromName(order[k]) := tags[order[k]]];
      assert order == order[..k] + [order[k]];
    }
  }

  /** Every tag can be the one that decides the value of its label. */
  lemma DecidingTag(tags: Labels, t: string) returns (labels: Labels)
    requires t in tags
    ensures CanBeLabels(tags, labels) && PromName(t) in labels && labels[PromName(t)] == tags[t]
  {
    hide PromName;
    var order := EnumerateLast(tags.Keys, t);
    forall u | u in order ensures u in tags {
      assert u in Elements(order);
    }
    labels := SomeLabels(tags, order);
    assert t in order;
    var k :| LastNamed(order, k, PromName(t)) && order[k] in tags && tags[order[k]] == labels[PromName(t)];
    assert k == |order| - 1;
  }

  /**
   Two tags that differ only in a character Prometheus does not allow: their label depends on the order of
   iteration.
   */
  lemma DashAndUnderscore()
    ensures !Agreeing(map["/a-b" := "1", "/a_b" := "2"])
  {
    var tags: Labels := map["/a-b" := "1", "/a_b" := "2"];
    var x, y := PromName("/a-b"), PromName("/a_b");
    PromNameAt("/a-b", 0);
    PromNameAt("/a_b", 0);
    forall i | 0 <= i < 4 ensures x[i] == y[i] {
      PromNameAt("/a-b", i);
      PromNameAt("/a_b", i);
    }
    assert "/a-b"[2] != "/a_b"[2];
    assert x == y;
    assert PromName("/a-b") == PromName("/a_b") && "/a-b" in tags && "/a_b" in tags;
    assert tags["/a-b"] == "1" && tags["/a_b"] == "2";
  }

  /** The labels do not depend on the order of iteration exactly if tags that share a Prometheus name have one value. */
  lemma LabelsDeterminedIff(tags: Labels)
    ensures Agreeing(tags) <==> forall l, l' :: CanBeLabels(tags, l) && CanBeLabels(tags, l') ==> l == l'
  {
    hide PromName;
    hide IsLabels;
    if Agreeing(tags) {
      forall l, l' | CanBeLabels(tags, l) && CanBeLabels(tags, l') ensures l == l' {
        var o :| Enumerates(o, tags.Keys) && IsLabels(tags, o, l);
        var o' :| Enumerates(o', tags.Keys) && IsLabels(tags, o', l');
        forall x | x in l ensures x in l' && l[x] == l'[x] {
          SameLabel(tags, o, l, o', l', x);
        }
        forall x | x in l' ensures x in l {
          SameLabel(tags, o', l', o, l, x);
        }
      }
    } else {
      var t, u :| t in tags && u in tags && PromName(t) == PromName(u) && tags[t] != tags[u];
      var l := DecidingTag(tags, t);
      var l' := DecidingTag(tags, u);
      assert l != l';
    }
  }
}

/** Configured xpaths to gNMI paths (parseKeyValuePairs and xPathTognmiPath in gnmi_utils.go). */
module XpathText {
  import opened Text
  import opened GnmiPaths

  /** The outcome of a conversion; a pair without an equals sign makes the program panic. */
  datatype Conversion<T> = Done(value: T) | Erroneous | Panics

  // ---------- the parser ----------

  /** All bracketed texts, brackets included. */
  function Brackets(s: string): seq<string>
    decreases |s|
  {
    if s == "" then []
    else if s[0] == '[' && CloseFrom(s, 1).Some? then
      var j := CloseFrom(s, 1).value;
      [s[..j + 1]] + Brackets(s[j + 1..])
    else Brackets(s[1..])
  }

  /** One "key = value" text; None if there is no equals sign. */
  function ParsePair(pair: string): Option<(string, string)> {
    var kv := Split(pair, '=');
    if |kv| < 2 then None else Some((Trim(kv[0], " \""), Trim(kv[1], " \"")))
  }

  function AddPairs(pairs: seq<string>, m: map<string, string>): Option<map<string, string>>
    decreases |pairs|
  {
    if pairs == [] then Some(m)
    else
      var kv := ParsePair(pairs[0]);
      if kv.None? then None else AddPairs(pairs[1..], m[kv.value.0 := kv.value.1])
  }

  function AddMatches(matches: seq<string>, m: map<string, string>): Option<map<string, string>>
    decreases |matches|
  {
    if matches == [] then Some(m)
    else
      var next := AddPairs(SplitBy(Trim(matches[0], "[]"), "and"), m);
      if next.None? then None else AddMatches(matches[1..], next.value)
  }

  function Before(s: string, c: char): string {
    if s == "" || s[0] == c then "" else [s[0]] + Before(s[1..], c)
  }

  function ParseElem(input: string): Option<PathElem> {
    var keys := AddMatches(Brackets(input), map[]);
    if keys.None? then None else Some(PathElem(Before(input, '['), keys.value))
  }

  /** The elements of the nonempty pieces between slashes; None if one of them panics. */
  function ParsePieces(pieces: seq<string>): Option<seq<PathElem>>
    decreases |pieces|
  {
    if pieces == [] then Some([])
    else if pieces[0] == "" then ParsePieces(pieces[1..])
    else
      var e, rest := ParseElem(pieces[0]), ParsePieces(pieces[1..]);
      if e.None? || rest.None? then None else Some([e.value] + rest.value)
  }

  function Outcome(elems: Option<seq<PathElem>>): Conversion<seq<PathElem>> {
    if elems.None? then Panics else if elems.value == [] then Erroneous else Done(elems.value)
  }

  /** What xPathTognmiPath makes of a text: whatever stands before the first slash is ignored. */
  function ToGnmiPath(xpath: string): Conversion<seq<PathElem>> {
    Outcome(ParsePieces(Split(xpath, '/')[1..]))
  }

  /** The two inner loops of parseKeyValuePairs. */
  method ParsePairs(match': string, m: map<string, string>) returns (r: Option<map<string, string>>)
    ensures r == AddPairs(SplitBy(Trim(match', "[]"), "and"), m)
  {
    var pairs := SplitBy(Trim(match', "[]"), "and");
    var result := m;
    assert pairs[0..] == pairs;
    for i := 0 to |pairs|
      invariant AddPairs(pairs[i..], result) == AddPairs(pairs, m)
    {
      assert pairs[i..][0] == pairs[i] && pairs[i..][1..] == pairs[i + 1..];
      var kv := Split(pairs[i], '=');
      if |kv| < 2 {
        return None;
      }
      result := result[Trim(kv[0], " \"") := Trim(kv[1], " \"")];
    }
    assert pairs[|pairs|..] == [];
    r := Some(result);
  }

  /** parseKeyValuePairs */
  method ParseKeyValuePairs(input: string) returns (prefix: string, result: Option<map<string, string>>)
    ensures ParseElem(input) == if result.None? then None else Some(PathElem(prefix, result.value))
  {
    prefix := Before(input, '[');
    var matches := Brackets(input);
    var m: map<string, string> := map[];
    assert matches[0..] == matches;
    for i := 0 to |matches|
      invariant AddMatches(matches[i..], m) == AddMatches(matches, map[])
    {
      assert matches[i..][0] == matches[i] && matches[i..][1..] == matches[i + 1..];
      var next := ParsePairs(matches[i], m);
      if next.None? {
        return prefix, None;
      }
      m := next.value;
    }
    assert matches[|matches|..] == [];
    result := Some(m);
  }

  /** xPathTognmiPath */
  method XPathToGnmiPath(xpath: string) returns (r: Conversion<seq<PathElem>>)
    ensures r == ToGnmiPath(xpath)
  {
    var pieces := Split(xpath, '/')[1..];
    var elems: seq<PathElem> := [];
    assert pieces[0..] == pieces;
    PrependNothing([], ParsePieces(pieces));
    for i := 0 to |pieces|
      invariant ParsePieces(pieces) == Prepend(elems, ParsePieces(pieces[i..]))
    {
      assert pieces[i..][0] == pieces[i] && pieces[i..][1..] == pieces[i + 1..];
      if pieces[i] != "" {
        var prefix, kv := ParseKeyValuePairs(pieces[i]);
        if kv.None? {
          return Panics;
        }
        PrependMore(elems, PathElem(prefix, kv.value), ParsePieces(pieces[i + 1..]));
        elems := elems + [PathElem(prefix, kv.value)];
      }
    }
    assert pieces[|pieces|..] == [];
    PrependNothing(elems, Some([]));
    r := if |elems| == 0 then Erroneous else Done(elems);
  }

  function Prepend(elems: seq<PathElem>, rest: Option<seq<PathElem>>): Option<seq<PathElem>> {
    if rest.None? then None else Some(elems + rest.value)
  }

  lemma PrependMore(elems: seq<PathElem>, e: PathElem, rest: Option<seq<PathElem>>)
    ensures Prepend(elems + [e], rest) == if rest.None? then None else Some(elems + ([e] + rest.value))
  {
    if rest.Some? {
      assert elems + [e] + rest.value == elems + ([e] + rest.value);
    }
  }

  lemma PrependNothing(elems: seq<PathElem>, rest: Option<seq<PathElem>>)
    ensures Prepend([], rest) == rest && Prepend(elems, Some([])) == Some(elems)
  {
    assert elems + [] == elems;
    assert rest.Some? ==> [] + rest.value == rest.value;
  }

  // ---------- slashes ----------

  lemma {:induction false} SplitTwo(a: string, b: string, sep: char)
    ensures Split(a + [sep] + b, sep) == Split(a, sep) + Split(b, sep)
  {
    var s := a + [sep] + b;
    if a == "" {
      assert s[1..] == b;
    } else {
      assert s[1..] == a[1..] + [sep] + b;
      SplitTwo(a[1..], b, sep);
    }
  }

  lemma {:induction false} PiecesAppend(a: seq<string>, b: seq<string>)
    ensures ParsePieces(a + b) == if ParsePieces(a).None? then None else Prepend(ParsePieces(a).value, ParsePieces(b))
    decreases |a|
  {
    if a == [] {
      assert a + b == b;
      PrependNothing([], ParsePieces(b));
    } else {
      assert (a + b)[1..] == a[1..] + b;
      PiecesAppend(a[1..], b);
      var rest := ParsePieces(a[1..]);
      if a[0] != "" && rest.Some? && ParsePieces(b).Some? && ParseElem(a[0]).Some? {
        assert [ParseElem(a[0]).value] + (rest.value + ParsePieces(b).value) ==
          [ParseElem(a[0]).value] + rest.value + ParsePieces(b).value;
      }
    }
  }

  /** An empty piece changes nothing. */
  lemma EmptyPiece(a: seq<string>, b: seq<string>)
    ensures ParsePieces(a + [""] + b) == ParsePieces(a + b)
  {
    PiecesAppend(a, [""] + b);
    PiecesAppend(a, b);
    assert a + [""] + b == a + ([""] + b);
    assert ([""] + b)[1..] == b;
  }

  /** Repeated slashes and trailing slashes do not matter, in any text. */
  lemma SlashesDoNotMatter(a: string, b: string)
    ensures ToGnmiPath(a + "/" + "/" + b) == ToGnmiPath(a + "/" + b)
    ensures ToGnmiPath(a + "/") == ToGnmiPath(a)
  {
    hide ParsePieces;
    hide Split;
    var x, y := Split(a, '/'), Split(b, '/');
    SlashSplits(a, b);
    assert (x + ([""] + y))[1..] == x[1..] + [""] + y && (x + y)[1..] == x[1..] + y;
    EmptyPiece(x[1..], y);
    assert (x + [""])[1..] == x[1..] + [""] + [] && x[1..] + [] == x[1..];
    EmptyPiece(x[1..], []);
  }

  lemma SlashSplits(a: string, b: string)
    ensures var x, y := Split(a, '/'), Split(b, '/');
            && Split(a + "/" + "/" + b, '/') == x + ([""] + y)
            && Split(a + "/" + b, '/') == x + y
            && Split(a + "/", '/') == x + [""]
  {
    SplitNothing();
    hide Split;
    assert a + "/" + "/" + b == a + "/" + ("/" + b) && "/" + b == "" + "/" + b && a + "/" == a + "/" + "";
    SplitTwo(a, "/" + b, '/');
    SplitTwo("", b, '/');
    SplitTwo(a, b, '/');
    SplitTwo(a, "", '/');
  }

  lemma SplitNothing()
    ensures Split("", '/') == [""]
  {
  }

  predicate OnlySlashes(b: string) {
    forall i :: 0 <= i < |b| ==> b[i] == '/'
  }

  predicate AllEmpty(pieces: seq<string>) {
    forall i :: 0 <= i < |pieces| ==> pieces[i] == ""
  }

  /** A text is erroneous exactly if nothing but slashes comes after its first slash. */
  lemma {:induction false} ErroneousIff(a: string, b: string)
    requires '/' !in a
    ensures ToGnmiPath(a) == Erroneous
    ensures ToGnmiPath(a + "/" + b) == Erroneous <==> OnlySlashes(b)
  {
    SplitAtom(a, '/');
    SplitCons(a, b, '/');
    assert [a][1..] == [] && ([a] + Split(b, '/'))[1..] == Split(b, '/');
    SlashesOnly(b);
    NoPieces(Split(b, '/'));
    hide Split;
  }

  lemma {:induction false} SlashesOnly(b: string)
    ensures OnlySlashes(b) <==> AllEmpty(Split(b, '/'))
  {
    if b != "" {
      var tail, rest := b[1..], Split(b[1..], '/');
      SlashesOnly(tail);
      SlashCases(b);
      hide Split;
      if b[0] == '/' {
        assert forall i :: 0 <= i < |tail| ==> tail[i] == b[i + 1];
        assert OnlySlashes(b) <==> OnlySlashes(tail) by {
          assert forall i :: 0 < i < |b| ==> b[i] == tail[i - 1];
        }
        EmptyCons(rest);
      }
    }
  }

  lemma {:induction false} SlashCases(b: string)
    requires b != ""
    ensures b[0] == '/' ==> Split(b, '/') == [""] + Split(b[1..], '/')
    ensures b[0] != '/' ==> Split(b, '/')[0] != ""
  {
  }

  lemma {:induction false} EmptyCons(rest: seq<string>)
    ensures AllEmpty([""] + rest) <==> AllEmpty(rest)
  {
    var all := [""] + rest;
    assert forall i :: 0 <= i < |rest| ==> rest[i] == all[i + 1];
    assert forall i :: 0 < i < |all| ==> all[i] == rest[i - 1];
  }

  lemma {:induction false} NoPieces(pieces: seq<string>)
    ensures ParsePieces(pieces) == Some([]) <==> AllEmpty(pieces)
  {
    if pieces != [] {
      hide ParseElem;
      NoPieces(pieces[1..]);
      assert pieces == [pieces[0]] + pieces[1..];
      if pieces[0] == "" {
        EmptyCons(pieces[1..]);
      }
    }
  }

  // ---------- printing and parsing back ----------

  /** An element with its keys in groups: each group has its own brackets, and its pairs are joined by "and". */
  datatype Printable = Printable(name: string, groups: seq<seq<(string, string)>>)

  function PrintPair(kv: (string, string)): string {
    kv.0 + "=\"" + kv.1 + "\""
  }

  function PrintPairs(kvs: seq<(string, string)>): string {
    if kvs == [] then ""
    else if |kvs| == 1 then PrintPair(kvs[0])
    else PrintPair(kvs[0]) + " and " + PrintPairs(kvs[1..])
  }

  function PrintGroups(groups: seq<seq<(string, string)>>): string {
    if groups == [] then "" else "[" + PrintPairs(groups[0]) + "]" + PrintGroups(groups[1..])
  }

  function PrintXpath(ps: seq<Printable>): string {
    if ps == [] then "" else "/" + (ps[0].name + PrintGroups(ps[0].groups)) + PrintXpath(ps[1..])
  }

  function PairsMap(kvs: seq<(string, string)>, m: map<string, string>): map<string, string>
    decreases |kvs|
  {
    if kvs == [] then m else PairsMap(kvs[1..], m[kvs[0].0 := kvs[0].1])
  }

  function GroupsMap(groups: seq<seq<(string, string)>>, m: map<string, string>): map<string, string>
    decreases |groups|
  {
    if groups == [] then m else GroupsMap(groups[1..], PairsMap(groups[0], m))
  }

  function ElemOf(p: Printable): PathElem {
    PathElem(p.name, GroupsMap(p.groups, map[]))
  }

  /** An element with the groups that the conversion finds. */
  function Found(p: Printable): Printable {
    p.(groups := Unbroken(p.groups))
  }

  function AllFound(ps: seq<Printable>): (r: seq<Printable>)
    ensures |r| == |ps| && forall i :: 0 <= i < |ps| ==> r[i] == Found(ps[i])
  {
    seq(|ps|, i requires 0 <= i < |ps| => Found(ps[i]))
  }

  function ElemsOf(ps: seq<Printable>): seq<PathElem> {
    if ps == [] then [] else [ElemOf(ps[0])] + ElemsOf(ps[1..])
  }

  /** Text that can stand as a key or a value; it may hold line breaks, slashes and the word "and". */
  predicate GoodText(s: string) {
    && (forall c :: c in s ==> c != '[' && c != ']' && c != '=' && c != '"')
    && (s != "" ==> s[0] != ' ' && s[|s| - 1] != ' ')
  }

  ghost predicate GoodPairs(kvs: seq<(string, string)>) {
    kvs != [] && forall i :: 0 <= i < |kvs| ==> GoodText(kvs[i].0) && GoodText(kvs[i].1)
  }

  ghost predicate GoodPrintable(p: Printable) {
    && p.name != "" && '/' !in p.name && '[' !in p.name
    && forall i :: 0 <= i < |p.groups| ==> GoodPairs(p.groups[i])
  }

  /** A printed pair with a space before it and one behind it, or neither. */
  function Spaced(front: bool, kv: (string, string), back: bool): string {
    (if front then " " else "") + PrintPair(kv) + if back then " " else ""
  }

  lemma TrimmedText(front: string, s: string, back: string)
    requires GoodText(s) && front in {"", " ", "\"", " \""} && back in {"", " ", "\"", "\" "}
    ensures Trim(front + s + back, " \"") == s
  {
    hide Trim;
    TrimNothing(" \"");
    TrimFront(front, s + back, " \"");
    assert front + (s + back) == front + s + back;
    if s == "" {
      assert s + back == back;
      TrimFront(back, "", " \"");
      assert back + "" == back;
    } else {
      assert s[0] in s && s[|s| - 1] in s;
      TrimBack(s, back, " \"");
    }
  }

  lemma TrimNothing(cut: string)
    ensures Trim("", cut) == ""
  {
  }

  lemma {:induction false} TrimFront(front: string, s: string, cut: string)
    requires forall c :: c in front ==> c in cut
    ensures Trim(front + s, cut) == Trim(s, cut)
    decreases |front|
  {
    if front == "" {
      assert front + s == s;
    } else {
      assert (front + s)[1..] == front[1..] + s;
      TrimFront(front[1..], s, cut);
    }
  }

  lemma {:induction false} TrimBack(s: string, back: string, cut: string)
    requires s != "" && s[0] !in cut && s[|s| - 1] !in cut
    requires forall c :: c in back ==> c in cut
    ensures Trim(s + back, cut) == s
    decreases |back|
  {
    if back == "" {
      assert s + back == s;
    } else {
      var init := back[..|back| - 1];
      assert (s + back)[..|s + back| - 1] == s + init;
      TrimBack(s, init, cut);
    }
  }

  lemma SpacedParts(front: bool, kv: (string, string), back: bool)
    ensures Spaced(front, kv, back) ==
      ((if front then " " else "") + kv.0) + ['='] + ("\"" + kv.1 + "\"" + if back then " " else "")
  {
  }

  lemma ParseSpaced(front: bool, kv: (string, string), back: bool)
    requires GoodText(kv.0) && GoodText(kv.1)
    ensures ParsePair(Spaced(front, kv, back)) == Some(kv)
  {
    hide Trim;
    hide Split;
    var (k, v) := kv;
    var a, b := (if front then " " else "") + k, "\"" + v + "\"" + if back then " " else "";
    SpacedParts(front, kv, back);
    assert '=' !in k && '=' !in v;
    SplitCons(a, b, '=');
    SplitAtom(b, '=');
    TrimmedText(if front then " " else "", k, "");
    assert (if front then " " else "") + k + "" == a;
    TrimmedText("\"", v, if back then "\" " else "\"");
    assert "\"" + v + (if back then "\" " else "\"") == b;
  }

  // ---------- one group of brackets ----------

  /** The texts between the separators of a printed group. */
  function Pieces(front: bool, kvs: seq<(string, string)>): seq<string>
    requires kvs != []
    decreases |kvs|
  {
    if |kvs| == 1 then [Spaced(front, kvs[0], false)]
    else [Spaced(front, kvs[0], true)] + Pieces(true, kvs[1..])
  }

  lemma LacksEmpty(pat: string)
    requires pat != ""
    ensures Lacks("", pat)
  {
  }

  /** Some key or value of the group holds the separator of pairs. */
  ghost predicate HasAnd(kvs: seq<(string, string)>) {
    exists i :: 0 <= i < |kvs| && (!Lacks(kvs[i].0, "and") || !Lacks(kvs[i].1, "and"))
  }

  /** The separator occurs in no printed pair. */
  lemma PairLacksAnd(front: bool, kv: (string, string))
    requires Lacks(kv.0, "and") && Lacks(kv.1, "and")
    ensures Lacks(Spaced(front, kv, false), "and")
  {
    var (k, v) := kv;
    LacksEmpty("and");
    LacksAcross(k, '=', "", "and");
    LacksAcross(k + ['='] + "", '"', v, "and");
    LacksAcross(k + ['='] + "" + ['"'] + v, '"', "", "and");
    var text := k + ['='] + "" + ['"'] + v + ['"'] + "";
    LacksAcross("", ' ', text, "and");
    assert text == PrintPair(kv);
    assert "" + [' '] + text == Spaced(true, kv, false) && text == Spaced(false, kv, false);
  }

  lemma GroupText(front: bool, kvs: seq<(string, string)>)
    requires |kvs| > 1
    ensures var sp, a, rest := if front then " " else "", Spaced(front, kvs[0], false), PrintPairs(kvs[1..]);
            && sp + PrintPairs(kvs) == a + [' '] + "and" + (" " + rest)
            && a + [' '] == Spaced(front, kvs[0], true)
  {
    PrintPairsCons(kvs);
    hide PrintPairs;
    hide PrintPair;
    Respace(if front then " " else "", PrintPair(kvs[0]), PrintPairs(kvs[1..]));
  }

  lemma PrintPairsCons(kvs: seq<(string, string)>)
    requires |kvs| > 1
    ensures PrintPairs(kvs) == PrintPair(kvs[0]) + " and " + PrintPairs(kvs[1..])
  {
  }

  lemma Respace(sp: string, pair: string, rest: string)
    ensures sp + (pair + " and " + rest) == (sp + pair + "") + [' '] + "and" + (" " + rest)
    ensures (sp + pair + "") + [' '] == sp + pair + " "
  {
  }

  lemma {:induction false} SplitGroup(front: bool, kvs: seq<(string, string)>)
    requires kvs != [] && !HasAnd(kvs)
    ensures SplitBy((if front then " " else "") + PrintPairs(kvs), "and") == Pieces(front, kvs)
    decreases |kvs|
  {
    hide SplitBy;
    var sp := if front then " " else "";
    var a := Spaced(front, kvs[0], false);
    assert Lacks(kvs[0].0, "and") && Lacks(kvs[0].1, "and");
    PairLacksAnd(front, kvs[0]);
    if |kvs| == 1 {
      assert sp + PrintPairs(kvs) == a;
      SplitByNone(a, "and");
    } else {
      var rest := PrintPairs(kvs[1..]);
      SplitByCons(a, ' ', "and", " " + rest);
      GroupText(front, kvs);
      assert forall i :: 0 <= i < |kvs[1..]| ==> kvs[1..][i] == kvs[i + 1];
      SplitGroup(true, kvs[1..]);
    }
  }

  lemma {:induction false} AddPieces(front: bool, kvs: seq<(string, string)>, m: map<string, string>)
    requires GoodPairs(kvs)
    ensures AddPairs(Pieces(front, kvs), m) == Some(PairsMap(kvs, m))
    decreases |kvs|
  {
    hide ParsePair;
    var (k, v) := kvs[0];
    if |kvs| == 1 {
      ParseSpaced(front, kvs[0], false);
      assert Pieces(front, kvs)[1..] == [];
    } else {
      ParseSpaced(front, kvs[0], true);
      assert Pieces(front, kvs)[1..] == Pieces(true, kvs[1..]);
      AddPieces(true, kvs[1..], m[k := v]);
    }
  }

  lemma {:induction false} PairsChars(kvs: seq<(string, string)>)
    requires GoodPairs(kvs)
    ensures PrintPairs(kvs) != ""
    ensures '[' !in PrintPairs(kvs) && ']' !in PrintPairs(kvs)
    decreases |kvs|
  {
    if |kvs| > 1 {
      PairsChars(kvs[1..]);
    }
  }

  /** Some key or value of the group holds the character. */
  predicate Holds(kvs: seq<(string, string)>, c: char) {
    exists i :: 0 <= i < |kvs| && (c in kvs[i].0 || c in kvs[i].1)
  }

  predicate HasBreak(kvs: seq<(string, string)>) {
    Holds(kvs, '\n')
  }

  /** The groups without a line break. */
  function Unbroken(groups: seq<seq<(string, string)>>): seq<seq<(string, string)>> {
    if groups == [] then []
    else (if HasBreak(groups[0]) then [] else [groups[0]]) + Unbroken(groups[1..])
  }

  lemma PairHolds(kv: (string, string), rest: string, c: char)
    requires c !in "=\" and"
    ensures c in PrintPair(kv) <==> c in kv.0 || c in kv.1
    ensures c in PrintPair(kv) + " and " + rest <==> c in PrintPair(kv) || c in rest
  {
    var tail := kv.1 + "\"";
    assert c !in "=\"" && c !in "\"" && c !in " and ";
    assert PrintPair(kv) == kv.0 + "=\"" + tail;
  }

  lemma {:induction false} PairsHold(kvs: seq<(string, string)>, c: char)
    requires c !in "=\" and"
    ensures c in PrintPairs(kvs) <==> Holds(kvs, c)
    decreases |kvs|
  {
    if kvs != [] {
      var rest := kvs[1..];
      PairsHold(rest, c);
      PairHolds(kvs[0], PrintPairs(rest), c);
      hide PrintPair;
      HoldsCons(kvs, c);
      if |kvs| > 1 {
        PrintPairsCons(kvs);
      } else {
        assert rest == [];
      }
    }
  }

  lemma HoldsCons(kvs: seq<(string, string)>, c: char)
    requires kvs != []
    ensures Holds(kvs, c) <==> c in kvs[0].0 || c in kvs[0].1 || Holds(kvs[1..], c)
  {
    var rest := kvs[1..];
    if Holds(kvs, c) {
      var i :| 0 <= i < |kvs| && (c in kvs[i].0 || c in kvs[i].1);
      assert i > 0 ==> rest[i - 1] == kvs[i];
    }
    if Holds(rest, c) {
      var i :| 0 <= i < |rest| && (c in rest[i].0 || c in rest[i].1);
      assert kvs[i + 1] == rest[i];
    }
  }

  // ---------- a group with "and" in a key or value ----------

  function Equals(s: string): nat {
    if s == "" then 0 else (if s[0] == '=' then 1 else 0) + Equals(s[1..])
  }

  function AllEquals(pieces: seq<string>): nat {
    if pieces == [] then 0 else Equals(pieces[0]) + AllEquals(pieces[1..])
  }

  lemma {:induction false} EqualsAppend(a: string, b: string)
    ensures Equals(a + b) == Equals(a) + Equals(b)
    decreases |a|
  {
    if a == "" {
      assert a + b == b;
    } else {
      assert (a + b)[1..] == a[1..] + b;
      EqualsAppend(a[1..], b);
    }
  }

  lemma {:induction false} EqualsNone(s: string)
    ensures Equals(s) == 0 <==> '=' !in s
  {
    if s != "" {
      EqualsNone(s[1..]);
      assert s == [s[0]] + s[1..];
    }
  }

  /** The separator holds no equals sign, so the pieces have as many as the text. */
  lemma {:induction false} EqualsSplit(s: string)
    ensures AllEquals(SplitBy(s, "and")) == Equals(s)
    decreases |s|
  {
    var i := IndexFrom(s, 0, "and");
    if i < |s| {
      var rest := s[i + 3..];
      EqualsSplit(rest);
      assert s[i..i + 3] == "and";
      assert s == s[..i] + ("and" + rest);
      EqualsAppend(s[..i], "and" + rest);
      EqualsAppend("and", rest);
      EqualsNone("and");
      assert ([s[..i]] + SplitBy(rest, "and"))[1..] == SplitBy(rest, "and");
    } else {
      assert [s][1..] == [];
    }
  }

  /** Every piece of a group that parses has an equals sign. */
  lemma {:induction false} ParsedHaveEquals(pieces: seq<string>, m: map<string, string>)
    requires AddPairs(pieces, m).Some?
    ensures AllEquals(pieces) >= |pieces|
    decreases |pieces|
  {
    if pieces != [] {
      EqualsNone(pieces[0]);
      if '=' !in pieces[0] {
        SplitAtom(pieces[0], '=');
        assert false;
      }
      var kv := ParsePair(pieces[0]).value;
      ParsedHaveEquals(pieces[1..], m[kv.0 := kv.1]);
    }
  }

  lemma PairEquals(kv: (string, string))
    requires GoodText(kv.0) && GoodText(kv.1)
    ensures Equals(PrintPair(kv)) == 1
  {
    EqualsNone(kv.0);
    EqualsNone("\"" + kv.1 + "\"");
    EqualsAppend(kv.0, "=" + ("\"" + kv.1 + "\""));
    EqualsAppend("=", "\"" + kv.1 + "\"");
    assert Equals("=") == 1 + Equals("");
    assert PrintPair(kv) == kv.0 + ("=" + ("\"" + kv.1 + "\""));
  }

  lemma {:induction false} PairsEquals(kvs: seq<(string, string)>)
    requires kvs != [] && GoodPairs(kvs)
    ensures Equals(PrintPairs(kvs)) == |kvs|
    decreases |kvs|
  {
    PairEquals(kvs[0]);
    hide PrintPair;
    if |kvs| > 1 {
      var rest := PrintPairs(kvs[1..]);
      PairsEquals(kvs[1..]);
      PrintPairsCons(kvs);
      EqualsNone(" and ");
      EqualsAppend(PrintPair(kvs[0]) + " and ", rest);
      EqualsAppend(PrintPair(kvs[0]), " and ");
    }
  }

  /** A pair has one piece, and one more for each separator in its key or its value. */
  lemma PairPieces(kv: (string, string))
    ensures var n := |SplitBy(PrintPair(kv), "and")|;
      n >= 1 && (n == 1 <==> Lacks(kv.0, "and") && Lacks(kv.1, "and"))
  {
    hide SplitBy;
    var quoted := kv.1 + ['"'] + "";
    OnePieceIff(kv.0, "and");
    OnePieceIff(kv.1, "and");
    LacksEmpty("and");
    OnePieceIff("", "and");
    SplitByAcross(kv.1, '"', "", "and");
    SplitByAcross("", '"', quoted, "and");
    SplitByAcross(kv.0, '=', "" + ['"'] + quoted, "and");
    assert kv.0 + ['='] + ("" + ['"'] + quoted) == PrintPair(kv);
  }

  lemma {:induction false} PairsPieces(kvs: seq<(string, string)>)
    requires kvs != []
    ensures |SplitBy(PrintPairs(kvs), "and")| >= |kvs|
    ensures |SplitBy(PrintPairs(kvs), "and")| == |kvs| <==> !HasAnd(kvs)
    decreases |kvs|
  {
    hide SplitBy;
    PairPieces(kvs[0]);
    AndCons(kvs);
    if |kvs| > 1 {
      var pair, rest := PrintPair(kvs[0]), PrintPairs(kvs[1..]);
      PairsPieces(kvs[1..]);
      PrintPairsCons(kvs);
      SeparatorPieces();
      SplitByAcross("and", ' ', rest, "and");
      SplitByAcross(pair, ' ', "and" + [' '] + rest, "and");
      assert pair + [' '] + ("and" + [' '] + rest) == pair + " and " + rest;
    } else {
      assert kvs[1..] == [];
    }
  }

  lemma SeparatorPieces()
    ensures |SplitBy("and", "and")| == 2
  {
    assert "and"[0..3] == "and";
    FirstIs("and", "and", 0);
    PieceCount("and", "and");
    assert "and"[3..] == "";
    LacksEmpty("and");
    OnePieceIff("", "and");
  }

  lemma AndCons(kvs: seq<(string, string)>)
    requires kvs != []
    ensures HasAnd(kvs) <==> !Lacks(kvs[0].0, "and") || !Lacks(kvs[0].1, "and") || HasAnd(kvs[1..])
  {
    hide Lacks;
    var rest := kvs[1..];
    if HasAnd(kvs) {
      var i :| 0 <= i < |kvs| && (!Lacks(kvs[i].0, "and") || !Lacks(kvs[i].1, "and"));
      assert i > 0 ==> rest[i - 1] == kvs[i];
    }
    if HasAnd(rest) {
      var i :| 0 <= i < |rest| && (!Lacks(rest[i].0, "and") || !Lacks(rest[i].1, "and"));
      assert kvs[i + 1] == rest[i];
    }
  }

  /** More pieces than equals signs: one piece has none, and the program panics on it. */
  lemma AndPanics(kvs: seq<(string, string)>, m: map<string, string>)
    requires GoodPairs(kvs) && HasAnd(kvs)
    ensures AddPairs(SplitBy(PrintPairs(kvs), "and"), m).None?
  {
    hide SplitBy;
    hide AddPairs;
    hide HasAnd;
    PairsPieces(kvs);
    PairsEquals(kvs);
    EqualsSplit(PrintPairs(kvs));
    if AddPairs(SplitBy(PrintPairs(kvs), "and"), m).Some? {
      ParsedHaveEquals(SplitBy(PrintPairs(kvs), "and"), m);
      assert false;
    }
  }

  /** A printed group gives back its pairs, or makes the program panic. */
  lemma ParseGroup(kvs: seq<(string, string)>, m: map<string, string>)
    requires GoodPairs(kvs)
    ensures AddPairs(SplitBy(Trim("[" + PrintPairs(kvs) + "]", "[]"), "and"), m) ==
      if HasAnd(kvs) then None else Some(PairsMap(kvs, m))
  {
    hide SplitBy;
    hide Trim;
    hide AddPairs;
    var body := PrintPairs(kvs);
    PairsChars(kvs);
    assert body[0] in body && body[|body| - 1] in body;
    assert "[" + body + "]" == "[" + (body + "]");
    TrimFront("[", body + "]", "[]");
    TrimBack(body, "]", "[]");
    assert "" + body == body;
    if HasAnd(kvs) {
      AndPanics(kvs, m);
    } else {
      SplitGroup(false, kvs);
      AddPieces(false, kvs, m);
    }
  }

  // ---------- one element ----------

  lemma {:induction false} BracketsPlain(a: string, b: string)
    requires '[' !in a
    ensures Brackets(a + b) == Brackets(b) && (b == "" || b[0] == '[' ==> Before(a + b, '[') == a)
    decreases |a|
  {
    if a == "" {
      assert a + b == b;
    } else {
      assert (a + b)[1..] == a[1..] + b;
      BracketsPlain(a[1..], b);
    }
  }

  lemma BracketsGroup(body: string, rest: string)
    requires forall c :: c in body ==> c != ']' && c != '\n'
    ensures Brackets("[" + body + "]" + rest) == ["[" + body + "]"] + Brackets(rest)
  {
    var group := "[" + body + "]";
    var s, e := group + rest, |body| + 1;
    assert s[e] == ']' && s[..e + 1] == group && s[e + 1..] == rest;
    forall i | 1 <= i < e ensures s[i] != ']' && s[i] != '\n' {
      assert s[i] == body[i - 1] && body[i - 1] in body;
    }
    CloseAt(s, 1, e);
    FirstBracket(s, e);
  }

  lemma {:induction false} CloseNone(s: string, j: nat, e: nat)
    requires j <= e < |s| && s[e] == '\n' && forall i :: j <= i < e ==> s[i] != ']'
    ensures CloseFrom(s, j).None?
    decreases e - j
  {
    if j < e {
      CloseNone(s, j + 1, e);
    }
  }

  /** A group with a line break is not found: the dot of the regular expression does not match one. */
  lemma BracketsBroken(body: string, rest: string)
    requires '\n' in body && '[' !in body && ']' !in body
    ensures Brackets("[" + body + "]" + rest) == Brackets(rest)
  {
    var s := "[" + body + "]" + rest;
    var k :| 0 <= k < |body| && body[k] == '\n';
    assert s[k + 1] == '\n';
    forall i | 1 <= i < k + 1 ensures s[i] != ']' {
      assert s[i] == body[i - 1] && body[i - 1] in body;
    }
    CloseNone(s, 1, k + 1);
    assert s[1..] == (body + "]") + rest;
    BracketsPlain(body + "]", rest);
    SkipBracket(s);
  }

  lemma SkipBracket(s: string)
    requires s != "" && CloseFrom(s, 1).None?
    ensures Brackets(s) == Brackets(s[1..])
  {
  }

  lemma FirstBracket(s: string, e: nat)
    requires s != "" && s[0] == '[' && CloseFrom(s, 1) == Some(e)
    ensures Brackets(s) == [s[..e + 1]] + Brackets(s[e + 1..])
  {
  }

  /** Some group that is found holds the separator in a key or a value. */
  ghost predicate PanicsIn(groups: seq<seq<(string, string)>>) {
    exists g :: 0 <= g < |groups| && !HasBreak(groups[g]) && HasAnd(groups[g])
  }

  lemma PanicsCons(groups: seq<seq<(string, string)>>)
    requires groups != []
    ensures PanicsIn(groups) <==> (!HasBreak(groups[0]) && HasAnd(groups[0])) || PanicsIn(groups[1..])
  {
    hide HasBreak;
    hide HasAnd;
    var rest := groups[1..];
    if PanicsIn(groups) {
      var g :| 0 <= g < |groups| && !HasBreak(groups[g]) && HasAnd(groups[g]);
      assert g > 0 ==> rest[g - 1] == groups[g];
    }
    if PanicsIn(rest) {
      var g :| 0 <= g < |rest| && !HasBreak(rest[g]) && HasAnd(rest[g]);
      assert groups[g + 1] == rest[g];
    }
  }

  lemma {:induction false} ParseGroups(groups: seq<seq<(string, string)>>, m: map<string, string>)
    requires forall i :: 0 <= i < |groups| ==> GoodPairs(groups[i])
    ensures AddMatches(Brackets(PrintGroups(groups)), m) ==
      if PanicsIn(groups) then None else Some(GroupsMap(Unbroken(groups), m))
    decreases |groups|
  {
    hide AddPairs;
    hide SplitBy;
    hide Trim;
    hide Holds;
    hide HasAnd;
    hide PrintPairs;
    hide Brackets;
    hide AddMatches;
    if groups == [] {
      NoBrackets();
    } else {
      var body, rest := PrintPairs(groups[0]), PrintGroups(groups[1..]);
      PairsChars(groups[0]);
      PairsHold(groups[0], '\n');
      UnbrokenCons(groups, m);
      PanicsCons(groups);
      if HasBreak(groups[0]) {
        BracketsBroken(body, rest);
        ParseGroups(groups[1..], m);
      } else {
        BracketsGroup(body, rest);
        ParseGroup(groups[0], m);
        MatchesCons("[" + body + "]", Brackets(rest), m);
        if !HasAnd(groups[0]) {
          ParseGroups(groups[1..], PairsMap(groups[0], m));
        }
      }
    }
  }

  lemma UnbrokenCons(groups: seq<seq<(string, string)>>, m: map<string, string>)
    requires groups != []
    ensures GroupsMap(Unbroken(groups), m) ==
      GroupsMap(Unbroken(groups[1..]), if HasBreak(groups[0]) then m else PairsMap(groups[0], m))
  {
    hide HasBreak;
    hide PairsMap;
    var rest := Unbroken(groups[1..]);
    assert ([groups[0]] + rest)[1..] == rest && [] + rest == rest;
  }

  lemma NoBrackets()
    ensures Brackets("") == [] && forall m :: AddMatches([], m) == Some(m)
  {
  }

  lemma MatchesCons(first: string, rest: seq<string>, m: map<string, string>)
    ensures var next := AddPairs(SplitBy(Trim(first, "[]"), "and"), m);
      AddMatches([first] + rest, m) == if next.None? then None else AddMatches(rest, next.value)
  {
    hide AddPairs;
    hide SplitBy;
    hide Trim;
    assert ([first] + rest)[1..] == rest;
  }

  lemma ParsePrintable(p: Printable)
    requires GoodPrintable(p)
    ensures ParseElem(p.name + PrintGroups(p.groups)) == if PanicsIn(p.groups) then None else Some(ElemOf(Found(p)))
  {
    hide AddMatches;
    hide Brackets;
    hide Before;
    hide GroupsMap;
    hide PanicsIn;
    BracketsPlain(p.name, PrintGroups(p.groups));
    ParseGroups(p.groups, map[]);
  }

  // ---------- the whole path ----------

  function Texts(ps: seq<Printable>): seq<string> {
    if ps == [] then [] else [ps[0].name + PrintGroups(ps[0].groups)] + Texts(ps[1..])
  }

  /** Some key or value of the element holds a slash. */
  predicate HasSlash(p: Printable) {
    exists g :: 0 <= g < |p.groups| && Holds(p.groups[g], '/')
  }

  function TextOf(p: Printable): string {
    p.name + PrintGroups(p.groups)
  }

  lemma {:induction false} GroupsChars(groups: seq<seq<(string, string)>>)
    ensures '/' in PrintGroups(groups) <==> exists g :: 0 <= g < |groups| && Holds(groups[g], '/')
    ensures groups != [] ==> PrintGroups(groups) != "" && PrintGroups(groups)[|PrintGroups(groups)| - 1] == ']'
    decreases |groups|
  {
    if groups != [] {
      hide Holds;
      hide PrintPairs;
      var body, rest, tail := PrintPairs(groups[0]), groups[1..], PrintGroups(groups[1..]);
      PairsHold(groups[0], '/');
      GroupsChars(rest);
      assert PrintGroups(groups) == "[" + body + "]" + tail;
      assert '/' in PrintGroups(groups) <==> '/' in body || '/' in tail;
      SlashCons(groups);
    }
  }

  lemma SlashCons(groups: seq<seq<(string, string)>>)
    requires groups != []
    ensures (exists g :: 0 <= g < |groups| && Holds(groups[g], '/')) <==>
      Holds(groups[0], '/') || exists g :: 0 <= g < |groups[1..]| && Holds(groups[1..][g], '/')
  {
    hide Holds;
    var rest := groups[1..];
    if g :| 0 <= g < |groups| && Holds(groups[g], '/') {
      assert g > 0 ==> rest[g - 1] == groups[g];
    }
    if g :| 0 <= g < |rest| && Holds(rest[g], '/') {
      assert groups[g + 1] == rest[g];
    }
  }

  /** The text of an element begins and ends with something else than a slash. */
  lemma TextEnds(p: Printable)
    requires GoodPrintable(p)
    ensures var x := TextOf(p);
      x != "" && x[0] != '/' && x[|x| - 1] != '/' && ('/' in x <==> HasSlash(p))
  {
    hide Holds;
    hide PrintGroups;
    GroupsChars(p.groups);
    var x, tail := TextOf(p), PrintGroups(p.groups);
    assert x == p.name + tail;
    assert '/' in x <==> '/' in p.name || '/' in tail;
    if p.groups == [] {
      NoGroups();
      assert x == p.name && x[|x| - 1] in p.name;
    } else {
      assert x[|x| - 1] == tail[|tail| - 1];
    }
    assert x[0] in p.name;
  }

  lemma NoGroups()
    ensures PrintGroups([]) == ""
  {
  }

  /** The pieces of all texts, one text after the other. */
  function AllPieces(ps: seq<Printable>): seq<string> {
    if ps == [] then [] else Split(TextOf(ps[0]), '/') + AllPieces(ps[1..])
  }

  lemma PrintXpathCons(ps: seq<Printable>)
    requires ps != []
    ensures PrintXpath(ps) == ['/'] + (TextOf(ps[0]) + PrintXpath(ps[1..]))
  {
  }

  lemma SplitLeading(x: string)
    ensures Split(['/'] + x, '/') == [""] + Split(x, '/')
  {
    SplitNothing();
    hide Split;
    SplitTwo("", x, '/');
    assert "" + ['/'] + x == ['/'] + x;
  }

  lemma {:induction false} SplitPrinted(ps: seq<Printable>)
    requires ps != []
    ensures Split(PrintXpath(ps), '/') == [""] + AllPieces(ps)
    decreases |ps|
  {
    hide Split;
    hide PrintXpath;
    hide TextOf;
    var x, rest := TextOf(ps[0]), ps[1..];
    PrintXpathCons(ps);
    SplitLeading(x + PrintXpath(rest));
    if rest == [] {
      NoElements();
      assert x + "" == x && Split(x, '/') + [] == Split(x, '/');
    } else {
      SplitPrinted(rest);
      PrintXpathCons(rest);
      var tail := TextOf(rest[0]) + PrintXpath(rest[1..]);
      SplitLeading(tail);
      SameTail(Split(tail, '/'), AllPieces(rest));
      SplitTwo(x, tail, '/');
      Associative(x, ['/'], tail);
    }
  }

  lemma NoElements()
    ensures PrintXpath([]) == ""
  {
  }

  lemma SameTail(a: seq<string>, b: seq<string>)
    requires [""] + a == [""] + b
    ensures a == b
  {
    assert a == ([""] + a)[1..] && b == ([""] + b)[1..];
  }

  lemma {:induction false} PlainPieces(ps: seq<Printable>)
    requires forall i :: 0 <= i < |ps| ==> '/' !in TextOf(ps[i])
    ensures AllPieces(ps) == Texts(ps)
  {
    if ps != [] {
      SplitAtom(TextOf(ps[0]), '/');
      PlainPieces(ps[1..]);
    }
  }

  // ---------- slashes in keys and values ----------

  function Nonempty(pieces: seq<string>): nat {
    if pieces == [] then 0 else (if pieces[0] == "" then 0 else 1) + Nonempty(pieces[1..])
  }

  lemma {:induction false} NonemptyAppend(a: seq<string>, b: seq<string>)
    ensures Nonempty(a + b) == Nonempty(a) + Nonempty(b)
    decreases |a|
  {
    if a == [] {
      assert a + b == b;
    } else {
      assert (a + b)[1..] == a[1..] + b;
      NonemptyAppend(a[1..], b);
    }
  }

  lemma {:induction false} PiecesBecomeElems(pieces: seq<string>)
    requires ParsePieces(pieces).Some?
    ensures |ParsePieces(pieces).value| == Nonempty(pieces)
    decreases |pieces|
  {
    if pieces != [] {
      hide ParseElem;
      PiecesBecomeElems(pieces[1..]);
    }
  }

  /** A text that does not end in a slash has a nonempty piece, and two if it does not begin with the slash it holds. */
  lemma {:induction false} TextPieces(x: string)
    requires x != "" && x[|x| - 1] != '/'
    ensures Nonempty(Split(x, '/')) >= 1
    ensures x[0] != '/' && '/' in x ==> Nonempty(Split(x, '/')) >= 2
    decreases |x|
  {
    if '/' !in x {
      SplitAtom(x, '/');
      assert [x][1..] == [];
    } else {
      var k := FirstSlash(x);
      var a, b := x[..k], x[k + 1..];
      assert x == a + ['/'] + b && b[|b| - 1] == x[|x| - 1];
      SplitCons(a, b, '/');
      TextPieces(b);
      assert ([a] + Split(b, '/'))[1..] == Split(b, '/');
    }
  }

  lemma {:induction false} FirstSlash(x: string) returns (k: nat)
    requires '/' in x
    ensures k < |x| && x[k] == '/' && '/' !in x[..k]
  {
    if x[0] == '/' {
      k := 0;
    } else {
      assert x == [x[0]] + x[1..];
      var j := FirstSlash(x[1..]);
      k := j + 1;
      assert x[..k] == [x[0]] + x[1..][..j];
    }
  }

  /** Every element gives an element at least, and one with a slash in a key or value more than one. */
  lemma {:induction false} CountPieces(ps: seq<Printable>)
    requires forall i :: 0 <= i < |ps| ==> GoodPrintable(ps[i])
    ensures Nonempty(AllPieces(ps)) >= |ps|
    ensures (exists i :: 0 <= i < |ps| && HasSlash(ps[i])) ==> Nonempty(AllPieces(ps)) > |ps|
    decreases |ps|
  {
    if ps != [] {
      hide GoodPrintable;
      hide HasSlash;
      hide Split;
      var rest := ps[1..];
      TextEnds(ps[0]);
      TextPieces(TextOf(ps[0]));
      CountPieces(rest);
      NonemptyAppend(Split(TextOf(ps[0]), '/'), AllPieces(rest));
      if i :| 0 <= i < |ps| && HasSlash(ps[i]) {
        assert i > 0 ==> rest[i - 1] == ps[i];
      }
    }
  }

  ghost predicate AnyPanics(ps: seq<Printable>) {
    exists i :: 0 <= i < |ps| && PanicsIn(ps[i].groups)
  }

  lemma AnyPanicsCons(ps: seq<Printable>)
    requires ps != []
    ensures AnyPanics(ps) <==> PanicsIn(ps[0].groups) || AnyPanics(ps[1..])
  {
    hide PanicsIn;
    var rest := ps[1..];
    if AnyPanics(ps) {
      var i :| 0 <= i < |ps| && PanicsIn(ps[i].groups);
      assert i > 0 ==> rest[i - 1] == ps[i];
    }
    if AnyPanics(rest) {
      var i :| 0 <= i < |rest| && PanicsIn(rest[i].groups);
      assert ps[i + 1] == rest[i];
    }
  }

  lemma {:induction false} ParseTexts(ps: seq<Printable>)
    requires forall i :: 0 <= i < |ps| ==> GoodPrintable(ps[i])
    ensures ParsePieces(Texts(ps)) == if AnyPanics(ps) then None else Some(ElemsOf(AllFound(ps)))
    decreases |ps|
  {
    hide ParseElem;
    hide PrintGroups;
    hide Found;
    hide PanicsIn;
    if ps != [] {
      ParsePrintable(ps[0]);
      ParseTexts(ps[1..]);
      AnyPanicsCons(ps);
      assert AllFound(ps)[1..] == AllFound(ps[1..]);
      assert Texts(ps)[1..] == Texts(ps[1..]);
      assert Texts(ps)[0] != "";
    }
  }

  /**
   Printing elements as an xpath, with the keys in any groups and order, and converting the text, where no key or value
   holds a slash: the program panics if a group without a line break has "and" in a key or value, and otherwise gives
   the elements back without the groups that hold a line break.
   */
  lemma XpathConversion(ps: seq<Printable>)
    requires ps != [] && forall i :: 0 <= i < |ps| ==> GoodPrintable(ps[i]) && !HasSlash(ps[i])
    ensures ToGnmiPath(PrintXpath(ps)) == if AnyPanics(ps) then Panics else Done(ElemsOf(AllFound(ps)))
  {
    forall i | 0 <= i < |ps| ensures '/' !in TextOf(ps[i]) {
      TextEnds(ps[i]);
    }
    hide Split;
    hide ParsePieces;
    hide AnyPanics;
    hide TextOf;
    hide HasSlash;
    hide GoodPrintable;
    SplitPrinted(ps);
    PlainPieces(ps);
    assert ([""] + AllPieces(ps))[1..] == AllPieces(ps);
    ParseTexts(ps);
    SomeElems(AllFound(ps));
  }

  lemma SomeElems(ps: seq<Printable>)
    requires ps != []
    ensures ElemsOf(ps) != []
  {
  }

  /** So it panics exactly if some group without a line break has "and" in a key or value. */
  lemma PanicsIff(ps: seq<Printable>)
    requires ps != [] && forall i :: 0 <= i < |ps| ==> GoodPrintable(ps[i]) && !HasSlash(ps[i])
    ensures ToGnmiPath(PrintXpath(ps)) == Panics <==>
      exists i, g :: 0 <= i < |ps| && 0 <= g < |ps[i].groups| && !HasBreak(ps[i].groups[g]) && HasAnd(ps[i].groups[g])
  {
    hide ToGnmiPath;
    hide PrintXpath;
    hide ElemsOf;
    hide HasBreak;
    hide HasAnd;
    hide HasSlash;
    hide GoodPrintable;
    XpathConversion(ps);
    if i, g :| 0 <= i < |ps| && 0 <= g < |ps[i].groups| && !HasBreak(ps[i].groups[g]) && HasAnd(ps[i].groups[g]) {
      assert PanicsIn(ps[i].groups);
    }
  }

  /** With a slash in a key or value the conversion panics or gives more elements than there were. */
  lemma SlashAddsElems(ps: seq<Printable>)
    requires ps != [] && forall i :: 0 <= i < |ps| ==> GoodPrintable(ps[i])
    requires exists i :: 0 <= i < |ps| && HasSlash(ps[i])
    ensures var r := ToGnmiPath(PrintXpath(ps)); r == Panics || (r.Done? && |r.value| > |ps|)
  {
    hide Split;
    hide ParsePieces;
    hide HasSlash;
    hide GoodPrintable;
    SplitPrinted(ps);
    assert ([""] + AllPieces(ps))[1..] == AllPieces(ps);
    CountPieces(ps);
    if ParsePieces(AllPieces(ps)).Some? {
      PiecesBecomeElems(AllPieces(ps));
    }
  }

  /** No key or value of the group holds a line break, a slash or the word "and". */
  ghost predicate Clean(kvs: seq<(string, string)>) {
    !HasBreak(kvs) && !Holds(kvs, '/') && !HasAnd(kvs)
  }

  ghost predicate AllClean(ps: seq<Printable>) {
    forall i :: 0 <= i < |ps| ==> forall g :: 0 <= g < |ps[i].groups| ==> Clean(ps[i].groups[g])
  }

  lemma {:induction false} AllUnbroken(groups: seq<seq<(string, string)>>)
    requires forall g :: 0 <= g < |groups| ==> !HasBreak(groups[g])
    ensures Unbroken(groups) == groups
  {
    if groups != [] {
      hide HasBreak;
      AllUnbroken(groups[1..]);
    }
  }

  /** Elements with clean keys and values come back, also if a key is printed twice. */
  lemma XpathRoundTrip(ps: seq<Printable>)
    requires ps != [] && forall i :: 0 <= i < |ps| ==> GoodPrintable(ps[i])
    requires AllClean(ps)
    ensures ToGnmiPath(PrintXpath(ps)) == Done(ElemsOf(ps))
  {
    hide HasBreak;
    hide HasAnd;
    hide Holds;
    hide GoodPrintable;
    hide ToGnmiPath;
    hide PrintXpath;
    hide ElemsOf;
    XpathConversion(ps);
    forall i | 0 <= i < |ps| ensures Found(ps[i]) == ps[i] {
      AllUnbroken(ps[i].groups);
    }
    assert AllFound(ps) == ps;
  }

  /** No key stands in two groups of an element. */
  ghost predicate GroupsApart(groups: seq<seq<(string, string)>>) {
    forall g, h, i, j :: 0 <= g < h < |groups| && 0 <= i < |groups[g]| && 0 <= j < |groups[h]| ==>
      groups[g][i].0 != groups[h][j].0
  }

  ghost predicate InGroup(kvs: seq<(string, string)>, k: string) {
    exists i :: 0 <= i < |kvs| && kvs[i].0 == k
  }

  ghost predicate InGroups(groups: seq<seq<(string, string)>>, k: string) {
    exists g :: 0 <= g < |groups| && InGroup(groups[g], k)
  }

  lemma {:induction false} PairsMapKeys(kvs: seq<(string, string)>, m: map<string, string>, k: string)
    ensures k in PairsMap(kvs, m) <==> k in m || InGroup(kvs, k)
    decreases |kvs|
  {
    if kvs != [] {
      var rest := kvs[1..];
      PairsMapKeys(rest, m[kvs[0].0 := kvs[0].1], k);
      if InGroup(rest, k) {
        var i :| 0 <= i < |rest| && rest[i].0 == k;
        assert kvs[i + 1].0 == k;
      }
      if InGroup(kvs, k) {
        var i :| 0 <= i < |kvs| && kvs[i].0 == k;
        assert i > 0 ==> rest[i - 1].0 == k;
      }
    }
  }

  lemma {:induction false} GroupsMapKeys(groups: seq<seq<(string, string)>>, m: map<string, string>, k: string)
    ensures k in GroupsMap(groups, m) <==> k in m || InGroups(groups, k)
    decreases |groups|
  {
    if groups != [] {
      hide PairsMap;
      var rest := groups[1..];
      PairsMapKeys(groups[0], m, k);
      GroupsMapKeys(rest, PairsMap(groups[0], m), k);
      InGroupsCons(groups, k);
    }
  }

  lemma InGroupsCons(groups: seq<seq<(string, string)>>, k: string)
    requires groups != []
    ensures InGroups(groups, k) <==> InGroup(groups[0], k) || InGroups(groups[1..], k)
  {
    hide InGroup;
    var rest := groups[1..];
    if InGroups(groups, k) {
      var g :| 0 <= g < |groups| && InGroup(groups[g], k);
      assert g > 0 ==> rest[g - 1] == groups[g];
    }
    if InGroups(rest, k) {
      var g :| 0 <= g < |rest| && InGroup(rest[g], k);
      assert groups[g + 1] == rest[g];
    }
  }

  /** A key of the groups that are found stands in a group without a line break. */
  lemma {:induction false} InUnbroken(groups: seq<seq<(string, string)>>, k: string)
    requires InGroups(Unbroken(groups), k)
    ensures exists g :: 0 <= g < |groups| && !HasBreak(groups[g]) && InGroup(groups[g], k)
    decreases |groups|
  {
    hide HasBreak;
    hide InGroup;
    var rest := Unbroken(groups[1..]);
    if HasBreak(groups[0]) {
      assert [] + rest == rest;
    } else {
      InGroupsCons([groups[0]] + rest, k);
      assert ([groups[0]] + rest)[1..] == rest;
    }
    if HasBreak(groups[0]) || !InGroup(groups[0], k) {
      InUnbroken(groups[1..], k);
      var g :| 0 <= g < |groups[1..]| && !HasBreak(groups[1..][g]) && InGroup(groups[1..][g], k);
      assert groups[g + 1] == groups[1..][g];
    }
  }

  /** The keys of a group with a line break are lost. */
  lemma BrokenKeyIsLost(p: Printable, g: nat)
    requires GoodPrintable(p) && GroupsApart(p.groups) && g < |p.groups| && HasBreak(p.groups[g])
    ensures ElemOf(Found(p)) != ElemOf(p)
  {
    hide HasBreak;
    assert GoodPairs(p.groups[g]);
    var k := p.groups[g][0].0;
    assert InGroup(p.groups[g], k);
    GroupsMapKeys(p.groups, map[], k);
    GroupsMapKeys(Unbroken(p.groups), map[], k);
    assert k in ElemOf(p).keys;
    if InGroups(Unbroken(p.groups), k) {
      InUnbroken(p.groups, k);
      var h :| 0 <= h < |p.groups| && !HasBreak(p.groups[h]) && InGroup(p.groups[h], k);
      SameGroup(p.groups, g, h, k);
      assert false;
    }
  }

  lemma SameGroup(groups: seq<seq<(string, string)>>, g: nat, h: nat, k: string)
    requires GroupsApart(groups) && g < |groups| && h < |groups| && InGroup(groups[g], k) && InGroup(groups[h], k)
    ensures g == h
  {
    var i :| 0 <= i < |groups[g]| && groups[g][i].0 == k;
    var j :| 0 <= j < |groups[h]| && groups[h][j].0 == k;
  }

  lemma {:induction false} ElemsOfAt(ps: seq<Printable>, i: nat)
    requires i < |ps|
    ensures |ElemsOf(ps)| == |ps| && ElemsOf(ps)[i] == ElemOf(ps[i])
  {
    if |ps| > 1 {
      ElemsOfAt(ps[1..], if i > 0 then i - 1 else 0);
    }
  }

  /** The conversion gives the printed elements back exactly if no key or value holds a line break, a slash or "and". */
  lemma XpathRoundTripIff(ps: seq<Printable>)
    requires ps != [] && forall i :: 0 <= i < |ps| ==> GoodPrintable(ps[i]) && GroupsApart(ps[i].groups)
    ensures ToGnmiPath(PrintXpath(ps)) == Done(ElemsOf(ps)) <==> AllClean(ps)
  {
    hide HasBreak;
    hide HasAnd;
    hide ToGnmiPath;
    hide PrintXpath;
    hide ElemsOf;
    hide GoodPrintable;
    hide GroupsApart;
    hide Holds;
    ElemsOfAt(ps, 0);
    if AllClean(ps) {
      XpathRoundTrip(ps);
    } else {
      var i, g :| 0 <= i < |ps| && 0 <= g < |ps[i].groups| && !Clean(ps[i].groups[g]);
      if exists j :: 0 <= j < |ps| && HasSlash(ps[j]) {
        SlashAddsElems(ps);
      } else {
        assert !HasSlash(ps[i]);
        UncleanIsLost(ps, i, g);
      }
    }
  }

  lemma UncleanIsLost(ps: seq<Printable>, i: nat, g: nat)
    requires forall j :: 0 <= j < |ps| ==> GoodPrintable(ps[j]) && GroupsApart(ps[j].groups) && !HasSlash(ps[j])
    requires i < |ps| && g < |ps[i].groups| && (HasBreak(ps[i].groups[g]) || HasAnd(ps[i].groups[g]))
    ensures ToGnmiPath(PrintXpath(ps)) != Done(ElemsOf(ps))
  {
    hide HasBreak;
    hide HasAnd;
    hide ToGnmiPath;
    hide PrintXpath;
    hide ElemsOf;
    hide ElemOf;
    hide Found;
    hide GoodPrintable;
    hide GroupsApart;
    hide HasSlash;
    XpathConversion(ps);
    if HasBreak(ps[i].groups[g]) {
      BrokenKeyIsLost(ps[i], g);
      ElemsOfAt(ps, i);
      ElemsOfAt(AllFound(ps), i);
    } else {
      assert PanicsIn(ps[i].groups);
    }
  }

  // ---------- real texts ----------

  function OneKey(v: string): seq<Printable> {
    [Printable("a", [[("k", v)]])]
  }

  /** The key of /a[k="x, line break, y"] is lost. */
  lemma LineBreakIsLost()
    ensures ToGnmiPath(PrintXpath(OneKey("x\ny"))) == Done([PathElem("a", map[])])
  {
    hide ToGnmiPath;
    hide PrintXpath;
    var kvs := [("k", "x\ny")];
    var p := Printable("a", [kvs]);
    assert kvs[0].1[1] == '\n' && HasBreak(kvs);
    assert forall i :: 0 <= i < |kvs| ==> '/' !in kvs[i].0 && '/' !in kvs[i].1;
    assert GoodText("k") && GoodText("x\ny");
    XpathConversion([p]);
    assert [kvs][1..] == [] && Unbroken([kvs]) == [];
    ElemsOfAt(AllFound([p]), 0);
    assert ElemsOf(AllFound([p])) == [PathElem("a", map[])];
  }

  /** The program panics on /a[k="xand"]. */
  lemma AndIsFatal()
    ensures ToGnmiPath(PrintXpath(OneKey("xand"))) == Panics
  {
    hide ToGnmiPath;
    hide PrintXpath;
    var kvs := [("k", "xand")];
    var p := Printable("a", [kvs]);
    assert "xand"[1..4] == "and" && HasPrefixAt("xand", 1, "and");
    assert !Lacks(kvs[0].1, "and") && HasAnd(kvs);
    assert forall i, c :: 0 <= i < |kvs| && c in "/\n" ==> c !in kvs[i].0 && c !in kvs[i].1;
    assert !Holds(kvs, '/') && !Holds(kvs, '\n');
    assert GoodText("k") && GoodText("xand");
    XpathConversion([p]);
    assert PanicsIn(p.groups);
    assert AnyPanics([p]);
  }

  /** An interface name in /a[k="ge-0/0"] gives two elements and no key. */
  lemma SlashIsLost()
    ensures ToGnmiPath(PrintXpath(OneKey("ge-0/0"))) ==
      Done([PathElem("a", map[]), PathElem("0\"]", map[])])
  {
    var a, b := "a[k=\"ge-0", "0\"]";
    TornText();
    TornElem();
    hide PrintXpath;
    hide ParseElem;
    hide Split;
    hide ParsePieces;
    TwoPieces(a, b, PathElem("a", map[]), PathElem(b, map[]));
    assert ([""] + [a, b])[1..] == [a, b];
  }

  lemma TwoPieces(a: string, b: string, x: PathElem, y: PathElem)
    requires a != "" && b != "" && ParseElem(a) == Some(x) && ParseElem(b) == Some(y)
    ensures ParsePieces([a, b]) == Some([x, y])
  {
    hide ParseElem;
    assert [a, b][1..] == [b] && [b][1..] == [];
    assert ParsePieces([]) == Some([]);
    assert ParsePieces([b]) == Some([y] + []);
    assert [x] + ([y] + []) == [x, y];
  }

  lemma TornText()
    ensures Split(PrintXpath(OneKey("ge-0/0")), '/') == [""] + ["a[k=\"ge-0", "0\"]"]
  {
    var ps := OneKey("ge-0/0");
    var a, b := "a[k=\"ge-0", "0\"]";
    assert PrintPairs([("k", "ge-0/0")]) == "k=\"ge-0/0\"";
    assert [[("k", "ge-0/0")]][1..] == [];
    assert TextOf(ps[0]) == a + ['/'] + b;
    hide PrintXpath;
    hide TextOf;
    hide Split;
    SplitPrinted(ps);
    SplitCons(a, b, '/');
    SplitAtom(b, '/');
    assert ps[1..] == [];
    assert Split(TextOf(ps[0]), '/') == [a, b];
    assert AllPieces(ps) == [a, b] + [];
  }

  lemma TornElem()
    ensures ParseElem("a[k=\"ge-0") == Some(PathElem("a", map[]))
    ensures ParseElem("0\"]") == Some(PathElem("0\"]", map[]))
  {
    NoBrackets();
    OpenBracket();
    hide Brackets;
    hide Before;
    var s := "[k=\"ge-0";
    BracketsPlain("0\"]", "");
    assert "0\"]" + "" == "0\"]";
    BracketsPlain("a", s);
    assert "a" + s == "a[k=\"ge-0";
  }

  lemma OpenBracket()
    ensures Brackets("[k=\"ge-0") == []
  {
    var s, tail := "[k=\"ge-0", "k=\"ge-0";
    NoBrackets();
    NoClose(s, 1);
    SkipBracket(s);
    hide Brackets;
    assert s[1..] == tail && tail + "" == tail;
    BracketsPlain(tail, "");
  }

  lemma {:induction false} NoClose(s: string, j: nat)
    requires forall i :: j <= i < |s| ==> s[i] != ']'
    ensures CloseFrom(s, j).None?
    decreases |s| - j
  {
    if j < |s| {
      NoClose(s, j + 1);
    }
  }
}

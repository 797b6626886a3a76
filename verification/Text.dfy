/** The string operations of the Go standard library that the models need. */
module Text {

  datatype Option<+T> = None | Some(value: T)

  /** strings.Split(s, sep) for a one-character separator: never empty, and no piece holds the separator. */
  function Split(s: string, sep: char): (r: seq<string>)
    ensures |r| >= 1
    ensures forall i :: 0 <= i < |r| ==> sep !in r[i]
  {
    if s == "" then [""]
    else
      var rest := Split(s[1..], sep);
      if s[0] == sep then [""] + rest
      else [[s[0]] + rest[0]] + rest[1..]
  }

  /** strings.Join(parts, sep). */
  function Join(parts: seq<string>, sep: string): string {
    if parts == [] then ""
    else if |parts| == 1 then parts[0]
    else parts[0] + sep + Join(parts[1..], sep)
  }

  lemma {:induction false} JoinLast(parts: seq<string>, sep: string)
    requires |parts| > 1
    ensures Join(parts, sep) == Join(parts[..|parts| - 1], sep) + sep + parts[|parts| - 1]
  {
    var k := |parts| - 1;
    if k == 1 {
      assert parts[1..][0] == parts[1];
    } else {
      var rest := parts[1..];
      JoinLast(rest, sep);
      assert rest[..k - 1] == parts[..k][1..];
      assert parts[0] + sep + (Join(rest[..k - 1], sep) + sep + parts[k]) ==
        parts[0] + sep + Join(rest[..k - 1], sep) + sep + parts[k];
    }
  }

  /** Text without the separator is one piece. */
  lemma SplitAtom(s: string, sep: char)
    requires sep !in s
    ensures Split(s, sep) == [s]
  {
    if s != "" {
      SplitAtom(s[1..], sep);
      assert [s[0]] + s[1..] == s;
    }
  }

  /** Splitting at the first separator. */
  lemma {:induction false} SplitCons(a: string, b: string, sep: char)
    requires sep !in a
    ensures Split(a + [sep] + b, sep) == [a] + Split(b, sep)
  {
    var s := a + [sep] + b;
    if a == "" {
      assert s[1..] == b;
    } else {
      SplitCons(a[1..], b, sep);
      assert s[1..] == a[1..] + [sep] + b;
      assert [a[0]] + a[1..] == a;
    }
  }

  // ---------- white space ----------

  /** unicode.IsSpace */
  predicate IsSpace(c: char) {
    c in "\t\n\r " || c as int in {0x0B, 0x0C, 0x85, 0xA0, 0x1680, 0x2028, 0x2029, 0x202F, 0x205F, 0x3000} ||
      0x2000 <= c as int <= 0x200A
  }

  /** strings.TrimSpace */
  function TrimSpace(s: string): string
    decreases |s|
  {
    if s == "" then ""
    else if IsSpace(s[0]) then TrimSpace(s[1..])
    else if IsSpace(s[|s| - 1]) then TrimSpace(s[..|s| - 1])
    else s
  }

  // ---------- substrings ----------

  predicate HasPrefixAt(s: string, i: nat, pat: string) {
    i + |pat| <= |s| && s[i..i + |pat|] == pat
  }

  /** The first occurrence of a pattern at or after i, or the length of the text if there is none. */
  function IndexFrom(s: string, i: nat, pat: string): (r: nat)
    requires i <= |s|
    ensures i <= r <= |s|
    ensures r < |s| ==> HasPrefixAt(s, r, pat)
    ensures forall j :: i <= j < r ==> !HasPrefixAt(s, j, pat)
    decreases |s| - i
  {
    if i == |s| || HasPrefixAt(s, i, pat) then i else IndexFrom(s, i + 1, pat)
  }

  /** strings.Replace(s, pat, sub, 1) for a nonempty pattern. */
  function ReplaceFirst(s: string, pat: string, sub: string): string {
    var i := IndexFrom(s, 0, pat);
    if i < |s| then s[..i] + sub + s[i + |pat|..] else s
  }

  /** strings.Trim(s, cutset) */
  function Trim(s: string, cutset: string): string
    decreases |s|
  {
    if s == "" then ""
    else if s[0] in cutset then Trim(s[1..], cutset)
    else if s[|s| - 1] in cutset then Trim(s[..|s| - 1], cutset)
    else s
  }

  /** strings.Split(s, pat) for a nonempty pattern. */
  function SplitBy(s: string, pat: string): seq<string>
    requires pat != ""
    decreases |s|
  {
    var i := IndexFrom(s, 0, pat);
    if i < |s| then [s[..i]] + SplitBy(s[i + |pat|..], pat) else [s]
  }

  ghost predicate Lacks(s: string, pat: string) {
    forall i: nat :: !HasPrefixAt(s, i, pat)
  }

  /** A pattern cannot reach across a character that it does not hold. */
  lemma LacksAcross(a: string, c: char, b: string, pat: string)
    requires Lacks(a, pat) && Lacks(b, pat) && c !in pat && pat != ""
    ensures Lacks(a + [c] + b, pat)
  {
    var s := a + [c] + b;
    forall i: nat ensures !HasPrefixAt(s, i, pat) {
      if i + |pat| <= |s| {
        var w := s[i..i + |pat|];
        if i + |pat| <= |a| {
          assert w == a[i..i + |pat|];
          assert !HasPrefixAt(a, i, pat);
        } else if i > |a| {
          var j := i - |a| - 1;
          assert w == b[j..j + |pat|];
          assert !HasPrefixAt(b, j, pat);
        } else {
          assert w[|a| - i] == c;
        }
      }
    }
  }

  /** Splitting at a pattern that stands right behind a character it does not hold. */
  lemma SplitByCons(a: string, c: char, pat: string, b: string)
    requires Lacks(a, pat) && c !in pat && pat != ""
    ensures SplitBy(a + [c] + pat + b, pat) == [a + [c]] + SplitBy(b, pat)
  {
    var first := a + [c];
    var s := first + pat + b;
    assert s[|first|..|first| + |pat|] == pat;
    assert HasPrefixAt(s, |first|, pat);
    forall i | 0 <= i < |first| ensures !HasPrefixAt(s, i, pat) {
      if i + |pat| <= |s| {
        var w := s[i..i + |pat|];
        if i + |pat| <= |a| {
          assert w == a[i..i + |pat|];
          assert !HasPrefixAt(a, i, pat);
        } else {
          assert w[|a| - i] == c;
        }
      }
    }
    assert IndexFrom(s, 0, pat) == |first|;
    assert s[..|first|] == first && s[|first| + |pat|..] == b;
  }

  lemma SplitByNone(s: string, pat: string)
    requires Lacks(s, pat) && pat != ""
    ensures SplitBy(s, pat) == [s]
  {
    var i := IndexFrom(s, 0, pat);
    assert !HasPrefixAt(s, i, pat);
  }

  lemma FirstIs(s: string, pat: string, i: nat)
    requires i < |s| && HasPrefixAt(s, i, pat) && forall j :: 0 <= j < i ==> !HasPrefixAt(s, j, pat)
    ensures IndexFrom(s, 0, pat) == i
  {
  }

  /** Text has one piece exactly if it lacks the pattern. */
  lemma {:induction false} OnePieceIff(s: string, pat: string)
    requires pat != ""
    ensures |SplitBy(s, pat)| >= 1 && (|SplitBy(s, pat)| == 1 <==> Lacks(s, pat))
  {
    var i := IndexFrom(s, 0, pat);
    if i < |s| {
      assert HasPrefixAt(s, i, pat);
      assert |SplitBy(s[i + |pat|..], pat)| >= 1;
    } else {
      SplitByEnd(s, pat);
    }
  }

  lemma SplitByEnd(s: string, pat: string)
    requires pat != "" && IndexFrom(s, 0, pat) == |s|
    ensures Lacks(s, pat)
  {
    forall i: nat ensures !HasPrefixAt(s, i, pat) {
      assert i < |s| ==> !HasPrefixAt(s, i, pat);
    }
  }

  /**
   Behind a text that lacks the pattern, and a character that is not in it, the pattern is first found where it was.
   */
  lemma {:induction false} ShiftedIndex(a: string, c: char, b: string, pat: string)
    requires Lacks(a, pat) && c !in pat && pat != ""
    ensures IndexFrom(a + [c] + b, 0, pat) == |a| + 1 + IndexFrom(b, 0, pat)
  {
    var s, j := a + [c] + b, IndexFrom(b, 0, pat);
    if j == |b| {
      SplitByEnd(b, pat);
      LacksAcross(a, c, b, pat);
      LacksEnd(s, pat);
    } else {
      assert s[|a| + 1 + j..|a| + 1 + j + |pat|] == b[j..j + |pat|];
      forall k | 0 <= k < |a| + 1 + j ensures !HasPrefixAt(s, k, pat) {
        NoEarlierMatch(a, c, b, pat, k, j);
      }
      FirstIs(s, pat, |a| + 1 + j);
    }
  }

  lemma LacksEnd(s: string, pat: string)
    requires Lacks(s, pat)
    ensures IndexFrom(s, 0, pat) == |s|
  {
  }

  lemma NoEarlierMatch(a: string, c: char, b: string, pat: string, k: nat, j: nat)
    requires Lacks(a, pat) && c !in pat && pat != "" && k < |a| + 1 + j && j <= |b|
    requires forall i :: 0 <= i < j ==> !HasPrefixAt(b, i, pat)
    ensures !HasPrefixAt(a + [c] + b, k, pat)
  {
    var s := a + [c] + b;
    if k + |pat| <= |s| {
      var w := s[k..k + |pat|];
      if k + |pat| <= |a| {
        assert w == a[k..k + |pat|];
        assert !HasPrefixAt(a, k, pat);
      } else if k > |a| {
        var i := k - |a| - 1;
        assert w == b[i..i + |pat|];
        assert !HasPrefixAt(b, i, pat);
      } else {
        assert w[|a| - k] == c;
      }
    }
  }

  lemma {:induction false} PieceCount(s: string, pat: string)
    requires pat != ""
    ensures var i := IndexFrom(s, 0, pat);
      |SplitBy(s, pat)| == if i < |s| then 1 + |SplitBy(s[i + |pat|..], pat)| else 1
  {
  }

  lemma IndexFits(s: string, pat: string)
    ensures IndexFrom(s, 0, pat) < |s| ==> IndexFrom(s, 0, pat) + |pat| <= |s|
  {
  }

  /** Splitting on both sides of a character that the pattern does not hold. */
  lemma {:induction false} SplitByAcross(a: string, c: char, b: string, pat: string)
    requires c !in pat && pat != ""
    ensures |SplitBy(a + [c] + b, pat)| == |SplitBy(a, pat)| + |SplitBy(b, pat)| - 1
    decreases |a|
  {
    IndexFits(a, pat);
    IndexFits(b, pat);
    hide SplitBy;
    hide Lacks;
    hide HasPrefixAt;
    var s, i := a + [c] + b, IndexFrom(a, 0, pat);
    PieceCount(s, pat);
    PieceCount(a, pat);
    PieceCount(b, pat);
    if i < |a| {
      SameFirst(a, c, b, pat);
      var rest := a[i + |pat|..];
      assert s[i + |pat|..] == rest + [c] + b;
      SplitByAcross(rest, c, b, pat);
    } else {
      SplitByEnd(a, pat);
      ShiftedIndex(a, c, b, pat);
      var j := IndexFrom(b, 0, pat);
      assert j < |b| ==> s[|a| + 1 + j + |pat|..] == b[j + |pat|..];
    }
  }

  lemma {:induction false} SameFirst(a: string, c: char, b: string, pat: string)
    requires c !in pat && pat != "" && IndexFrom(a, 0, pat) < |a|
    ensures IndexFrom(a + [c] + b, 0, pat) == IndexFrom(a, 0, pat)
  {
    var s, i := a + [c] + b, IndexFrom(a, 0, pat);
    assert s[i..i + |pat|] == a[i..i + |pat|];
    forall k | 0 <= k < i ensures !HasPrefixAt(s, k, pat) {
      EarlierMatch(a, c, b, pat, k, i);
    }
    FirstIs(s, pat, i);
  }

  lemma EarlierMatch(a: string, c: char, b: string, pat: string, k: nat, i: nat)
    requires c !in pat && pat != "" && k < i < |a| && forall j :: 0 <= j < i ==> !HasPrefixAt(a, j, pat)
    ensures !HasPrefixAt(a + [c] + b, k, pat)
  {
    var s := a + [c] + b;
    if k + |pat| <= |s| {
      var w := s[k..k + |pat|];
      if k + |pat| <= |a| {
        assert w == a[k..k + |pat|];
        assert !HasPrefixAt(a, k, pat);
      } else {
        assert w[|a| - k] == c;
      }
    }
  }

  // ---------- brackets ----------

  /** The first closing bracket at or after j, if no newline comes before it. */
  function CloseFrom(s: string, j: nat): (r: Option<nat>)
    ensures r.Some? ==> j <= r.value < |s| && s[r.value] == ']'
    decreases |s| - j
  {
    if j >= |s| || s[j] == '\n' then None
    else if s[j] == ']' then Some(j)
    else CloseFrom(s, j + 1)
  }

  lemma {:induction false} CloseAt(s: string, j: nat, e: nat)
    requires j <= e < |s| && s[e] == ']'
    requires forall i :: j <= i < e ==> s[i] != ']' && s[i] != '\n'
    ensures CloseFrom(s, j) == Some(e)
    decreases e - j
  {
    if j < e {
      CloseAt(s, j + 1, e);
    }
  }

  lemma Associative<T>(a: seq<T>, b: seq<T>, c: seq<T>)
    ensures (a + b) + c == a + (b + c)
  {
  }
}

/** Structured gNMI paths: tags and xpaths of a notification (gnmi_utils.go, subscribe_gnmi.go). */
module GnmiPaths {
  import opened Text
  import opened Points

  datatype PathElem = PathElem(name: string, keys: map<string, string>)

  /** The tag name of a key at a path. */
  function TagKey(path: string, k: string): string {
    path + "/@" + k
  }

  lemma TagKeyInjective(path: string)
    ensures forall k, k' :: TagKey(path, k) == TagKey(path, k') ==> k == k'
  {
    forall k, k' | TagKey(path, k) == TagKey(path, k') ensures k == k' {
      assert TagKey(path, k)[|path| + 2..] == k;
      assert TagKey(path, k')[|path| + 2..] == k';
    }
  }

  function KeyTags(path: string, keys: map<string, string>): Tags {
    TagKeyInjective(path);
    map k | k in keys :: TagKey(path, k) := keys[k]
  }

  function XPath(prefix: string, pes: seq<PathElem>): string
    decreases |pes|
  {
    if pes == [] then prefix else XPath(prefix + "/" + pes[0].name, pes[1..])
  }

  /** The tags of all keys of a path, each under the path of its element. */
  function TagsOf(prefix: string, pes: seq<PathElem>): Tags
    decreases |pes|
  {
    if pes == [] then map[]
    else
      var path := prefix + "/" + pes[0].name;
      KeyTags(path, pes[0].keys) + TagsOf(path, pes[1..])
  }

  /** The names among the elements that were looked for. */
  function Internal(pes: seq<PathElem>, look: set<string>): set<string> {
    set i | 0 <= i < |pes| && |pes[i].name| >= 2 && pes[i].name[..2] == "__" && pes[i].name in look :: pes[i].name
  }

  lemma PlusUpdate(m: Tags, a: Tags, t: string, v: string)
    ensures (m + a)[t := v] == m + a[t := v]
  {
  }

  lemma PlusAssociative(a: Tags, b: Tags, c: Tags)
    ensures (a + b) + c == a + (b + c)
  {
  }

  lemma KeyTagsMore(path: string, done: map<string, string>, k: string, v: string)
    ensures KeyTags(path, done[k := v]) == KeyTags(path, done)[TagKey(path, k) := v]
  {
    TagKeyInjective(path);
  }

  lemma NoKeyTags(path: string, kvpairs: Tags)
    ensures kvpairs + KeyTags(path, map[]) == kvpairs
  {
  }

  /** The inner loop: the keys of one element, in any order. */
  method AddKeys(path: string, keys: map<string, string>, kvpairs: Tags) returns (kv: Tags)
    ensures kv == kvpairs + KeyTags(path, keys)
  {
    hide KeyTags;
    hide TagKey;
    kv := kvpairs;
    var left := keys.Keys;
    NoKeyTags(path, kvpairs);
    ghost var done: map<string, string> := map[];
    while left != {}
      invariant left <= keys.Keys
      invariant done.Keys == keys.Keys - left && forall k :: k in done ==> done[k] == keys[k]
      invariant kv == kvpairs + KeyTags(path, done)
    {
      var k :| k in left;
      KeyTagsMore(path, done, k, keys[k]);
      PlusUpdate(kvpairs, KeyTags(path, done), TagKey(path, k), keys[k]);
      kv := kv[TagKey(path, k) := keys[k]];
      done := done[k := keys[k]];
      left := left - {k};
    }
    assert done == keys;
  }

  lemma {:induction false} PathAppend(prefix: string, a: seq<PathElem>, b: seq<PathElem>)
    ensures XPath(prefix, a + b) == XPath(XPath(prefix, a), b)
    ensures TagsOf(prefix, a + b) == TagsOf(prefix, a) + TagsOf(XPath(prefix, a), b)
    decreases |a|
  {
    if a == [] {
      assert a + b == b;
      assert map[] + TagsOf(prefix, b) == TagsOf(prefix, b);
    } else {
      assert (a + b)[1..] == a[1..] + b;
      var path := prefix + "/" + a[0].name;
      PathAppend(path, a[1..], b);
      PlusAssociative(KeyTags(path, a[0].keys), TagsOf(path, a[1..]), TagsOf(XPath(path, a[1..]), b));
    }
  }

  /** gnmiParsePath: extends the prefix, and fills in the tags and the internal names found on the way. */
  method GnmiParsePath(prefix: string, pes: seq<PathElem>, kvpairs: Tags, look: set<string>)
    returns (path: string, kv: Tags, found: set<string>)
    ensures path == XPath(prefix, pes)
    ensures kv == kvpairs + TagsOf(prefix, pes)
    ensures found == Internal(pes, look)
  {
    path, kv, found := prefix, kvpairs, {};
    for i := 0 to |pes|
      invariant path == XPath(prefix, pes[..i])
      invariant kv == kvpairs + TagsOf(prefix, pes[..i])
      invariant found == Internal(pes[..i], look)
    {
      OneMoreElem(prefix, pes, i, look);
      path := path + "/" + pes[i].name;
      PlusAssociative(kvpairs, TagsOf(prefix, pes[..i]), KeyTags(path, pes[i].keys));
      kv := AddKeys(path, pes[i].keys, kv);
      if |pes[i].name| >= 2 && pes[i].name[..2] == "__" && pes[i].name in look {
        found := found + {pes[i].name};
      }
    }
    assert pes[..|pes|] == pes;
  }

  lemma OneMoreElem(prefix: string, pes: seq<PathElem>, i: nat, look: set<string>)
    requires i < |pes|
    ensures var path := XPath(prefix, pes[..i]) + "/" + pes[i].name;
            && XPath(prefix, pes[..i + 1]) == path
            && TagsOf(prefix, pes[..i + 1]) == TagsOf(prefix, pes[..i]) + KeyTags(path, pes[i].keys)
    ensures Internal(pes[..i + 1], look) == Internal(pes[..i], look) +
            if |pes[i].name| >= 2 && pes[i].name[..2] == "__" && pes[i].name in look then {pes[i].name} else {}
  {
    PathAppend(prefix, pes[..i], [pes[i]]);
    assert pes[..i + 1] == pes[..i] + [pes[i]];
    OneElem(XPath(prefix, pes[..i]), pes[i]);
    InternalMore(pes[..i], pes[i], look);
  }

  lemma OneElem(path: string, pe: PathElem)
    ensures XPath(path, [pe]) == path + "/" + pe.name
    ensures TagsOf(path, [pe]) == KeyTags(path + "/" + pe.name, pe.keys)
  {
    assert [pe][1..] == [];
  }

  lemma InternalMore(pes: seq<PathElem>, pe: PathElem, look: set<string>)
    ensures Internal(pes + [pe], look) == Internal(pes, look) + Internal([pe], look)
    ensures Internal([pe], look) == if |pe.name| >= 2 && pe.name[..2] == "__" && pe.name in look then {pe.name} else {}
  {
    var more := pes + [pe];
    forall x ensures x in Internal(more, look) <==> x in Internal(pes, look) || x in Internal([pe], look) {
      if x in Internal(pes, look) {
        var i :| 0 <= i < |pes| && pes[i].name == x;
        assert more[i].name == x;
      }
      if x in Internal([pe], look) {
        assert more[|pes|].name == x;
      }
    }
    assert [pe][0] == pe;
  }

  lemma {:induction false} InternalAppend(a: seq<PathElem>, b: seq<PathElem>, look: set<string>)
    ensures Internal(a + b, look) == Internal(a, look) + Internal(b, look)
  {
    if b == [] {
      assert a + b == a;
    } else {
      var init, last := b[..|b| - 1], b[|b| - 1];
      InternalAppend(a, init, look);
      assert a + b == (a + init) + [last] && b == init + [last];
      InternalMore(a + init, last, look);
      InternalMore(init, last, look);
    }
  }

  // ---------- tag names of nested elements never meet ----------

  /** Element names that cannot be mistaken for a key. */
  predicate PlainNames(pes: seq<PathElem>) {
    forall i :: 0 <= i < |pes| && pes[i].name != "" ==> pes[i].name[0] != '@'
  }

  lemma TagsCons(p: string, pes: seq<PathElem>, key: string)
    requires key in TagsOf(p, pes)
    ensures pes != [] &&
      var path := p + "/" + pes[0].name; key in KeyTags(path, pes[0].keys) || key in TagsOf(path, pes[1..])
  {
  }

  /** Every tag of a path strictly below p begins with p, a slash and something that is not "@". */
  lemma {:induction false} TagsStart(p: string, pes: seq<PathElem>, key: string)
    requires PlainNames(pes) && key in TagsOf(p, pes)
    ensures |key| > |p| + 1 && key[..|p| + 1] == p + "/" && key[|p| + 1] != '@'
    decreases |pes|
  {
    TagsCons(p, pes, key);
    hide TagsOf;
    var name := pes[0].name;
    var path := p + "/" + name;
    if key in KeyTags(path, pes[0].keys) {
      var k :| k in pes[0].keys && key == TagKey(path, k);
      TextStart(p, name, "/@" + k);
      assert path + "/@" + k == path + ("/@" + k);
    } else {
      TagsStart(path, pes[1..], key);
      TextStart(p, name, key[|path|..]);
      assert key[..|path|] == (path + "/")[..|path|] == path;
      assert key == path + key[|path|..] && key[|path|..][0] == (path + "/")[|path|] == '/';
    }
  }

  lemma TextStart(p: string, name: string, rest: string)
    ensures name == "" || name[0] != '@' ==> rest != "" && rest[0] == '/' ==>
      var key := p + "/" + name + rest; |key| > |p| + 1 && key[..|p| + 1] == p + "/" && key[|p| + 1] != '@'
  {
    var key := p + "/" + name + rest;
    assert key == (p + "/") + (name + rest);
    assert rest != "" ==> key[|p| + 1] == (name + rest)[0];
  }

  /** The tags of a path and those of the elements below it are disjoint. */
  lemma {:induction false} TagsDisjoint(p: string, head: seq<PathElem>, tail: seq<PathElem>)
    requires PlainNames(head) && PlainNames(tail)
    ensures TagsOf(p, head).Keys !! TagsOf(XPath(p, head), tail).Keys
    decreases |head|
  {
    if head != [] {
      var path := p + "/" + head[0].name;
      var rest := head[1..] + tail;
      TagsDisjoint(path, head[1..], tail);
      PathAppend(path, head[1..], tail);
      forall key | key in TagsOf(XPath(p, head), tail) ensures key !in KeyTags(path, head[0].keys) {
        TagsStart(path, rest, key);
        assert forall k :: TagKey(path, k)[|path| + 1] == '@';
      }
    }
  }
}

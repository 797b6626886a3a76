/**
 The registry of workers and its reconciliation with a list of configuration files (workers.go).
 Every signal is taken by its worker here; Supervision models when it is not.
 */
module WorkerRegistry {
  import opened Text

  datatype Signal = SIGCONT | SIGHUP | Interrupt

  datatype Sent = Sent(worker: nat, signal: Signal)

  type Registry = map<string, nat>

  /** The signals sent to one worker, in order. */
  function SignalsTo(log: seq<Sent>, w: nat): seq<Signal> {
    if log == [] then []
    else
      var k := |log| - 1;
      SignalsTo(log[..k], w) + if log[k].worker == w then [log[k].signal] else []
  }

  /**
   The signals that reconciliation with a list owes to the worker of a file: `known` tells whether the file was
   registered before, loads[i] whether the configuration file listed at i can be read.
   */
  function Owed(known: bool, list: seq<string>, loads: seq<bool>, file: string): seq<Signal>
    requires |loads| == |list|
  {
    if list == [] then []
    else
      var k := |list| - 1;
      var before := Owed(known, list[..k], loads[..k], file);
      if list[k] != file then before
      else if known || before != [] then before + [SIGHUP]
      else if loads[k] then [SIGCONT]
      else []
  }

  /** How often a file is listed. */
  function Listed(list: seq<string>, file: string): nat {
    multiset(list)[file]
  }

  class JWorkers {
    var m: Registry
    var next: nat
    var log: seq<Sent>
    var wg: nat

    /** Workers are numbered as they are created; no two files share one; signals go to workers created before. */
    ghost predicate Valid() reads this {
      && (forall f :: f in m ==> m[f] < next)
      && (forall f, g :: f in m && g in m && m[f] == m[g] ==> f == g)
      && (forall i :: 0 <= i < |log| ==> log[i].worker < next)
    }

    method Send(w: nat, signal: Signal)
      requires Valid() && w < next
      modifies this`log
      ensures Valid() && log == old(log) + [Sent(w, signal)]
    {
      log := log + [Sent(w, signal)];
    }

    /** Create a worker, if its configuration can be read, and register it under its file. */
    method AddWorker(file: string, loads: bool)
      requires Valid()
      modifies this`m, this`next, this`wg
      ensures Valid()
      ensures loads ==> m == old(m)[file := old(next)] && next == old(next) + 1 && wg == old(wg) + 1
      ensures !loads ==> m == old(m) && next == old(next) && wg == old(wg)
    {
      if loads {
        m := m[file := next];
        next := next + 1;
        wg := wg + 1;
      }
    }

    /** Create a worker and ask it to begin. */
    method StartWorker(file: string, loads: bool)
      requires Valid() && file !in m
      modifies this
      ensures Valid()
      ensures loads ==>
        m == old(m)[file := old(next)] && next == old(next) + 1 &&
        log == old(log) + [Sent(old(next), SIGCONT)]
      ensures !loads ==> m == old(m) && next == old(next) && log == old(log)
      ensures wg - old(wg) == next - old(next)
    {
      AddWorker(file, loads);
      if file in m {
        Send(m[file], SIGCONT);
      }
    }

    /** Go through the list: registered files get a SIGHUP, others a new worker. */
    method SignalListed(list: seq<string>, loads: seq<bool>)
      requires Valid() && |loads| == |list|
      modifies this
      ensures Valid() && old(next) <= next && wg - old(wg) == next - old(next)
      ensures Reconciling(old(m), old(next), old(log), m, log, list, loads)
    {
      hide Reconciling;
      StartReconciling(m, next, log);
      for i := 0 to |list|
        invariant Valid() && old(next) <= next && wg - old(wg) == next - old(next)
        invariant Reconciling(old(m), old(next), old(log), m, log, list[..i], loads[..i])
      {
        if list[i] in m {
          KnownListed(old(m), old(next), old(log), m, log, list, loads, i);
          Send(m[list[i]], SIGHUP);
        } else {
          NewListed(old(m), old(next), old(log), m, log, list, loads, i, next);
          StartWorker(list[i], loads[i]);
        }
      }
      assert list[..|list|] == list && loads[..|list|] == loads;
    }

    /** Go through the registry, in any order: interrupt and remove what is not listed. */
    method RemoveUnlisted(list: seq<string>)
      requires Valid()
      modifies this`m, this`log
      ensures Valid() && Removing(old(m), old(log), m, log, list, {})
    {
      hide Removing;
      var todo := m.Keys;
      StartRemoving(m, log, list);
      while todo != {}
        invariant Valid() && todo <= m.Keys && Removing(old(m), old(log), m, log, list, todo)
        decreases todo
      {
        var f :| f in todo;
        OneSeen(old(m), old(log), m, log, list, todo, f);
        todo := todo - {f};
        if f !in list {
          Send(m[f], Interrupt);
          m := m - {f};
        }
      }
    }

    /** Reconcile the registry with a new list of files; None stands for a list that cannot be read. */
    method HandleConfigChanges(file: Option<seq<string>>, loads: seq<bool>)
      requires Valid()
      requires file.Some? ==> |loads| == |file.value|
      modifies this
      ensures Valid() && wg - old(wg) == next - old(next)
      ensures file.None? ==> m == old(m) && next == old(next) && log == old(log)
      ensures file.Some? ==> Reconciled(old(m), old(next), old(log), m, log, file.value, loads)
    {
      hide Reconciling;
      hide Removing;
      hide Reconciled;
      if file.Some? {
        SignalListed(file.value, loads);
        ghost var m1, log1 := m, log;
        RemoveUnlisted(file.value);
        ReconciledAll(old(m), old(next), old(log), m1, log1, m, log, file.value, loads);
      }
    }
  }

  /**
   What reconciliation does. Registered is then exactly what is listed and was registered or could be loaded; kept
   workers are the same ones, new ones are new; each worker gets the signals owed to it, a removed one an Interrupt,
   and all others nothing.
   */
  ghost predicate Reconciled(m0: Registry, next0: nat, log0: seq<Sent>, m: Registry, log: seq<Sent>,
                             list: seq<string>, loads: seq<bool>)
    requires |loads| == |list|
  {
    && (forall f :: f in m <==> f in list && (f in m0 || Owed(false, list, loads, f) != []))
    && (forall f :: f in m ==> if f in m0 then m[f] == m0[f] else m[f] >= next0)
    && (forall f :: f in m ==> SignalsTo(log, m[f]) == SignalsTo(log0, m[f]) + Owed(f in m0, list, loads, f))
    && (forall f :: f in m0 && f !in m ==> SignalsTo(log, m0[f]) == SignalsTo(log0, m0[f]) + [Interrupt])
    && (forall w :: Free(m, w) && Free(m0, w) ==> SignalsTo(log, w) == SignalsTo(log0, w))
  }

  /** No file is registered with this worker. */
  ghost predicate Free(m: Registry, w: nat) {
    forall f :: f in m ==> m[f] != w
  }

  // ---------- the two loops ----------

  /** The state of the first loop after a prefix of the list. */
  ghost predicate Reconciling(m0: Registry, next0: nat, log0: seq<Sent>, m: Registry, log: seq<Sent>,
                              list: seq<string>, loads: seq<bool>)
    requires |loads| == |list|
  {
    && (forall f :: f in m <==> f in m0 || Owed(false, list, loads, f) != [])
    && (forall f :: f in m0 ==> f in m && m[f] == m0[f])
    && (forall f :: f in m && f !in m0 ==> m[f] >= next0)
    && (forall f :: f in m ==> SignalsTo(log, m[f]) == SignalsTo(log0, m[f]) + Owed(f in m0, list, loads, f))
    && (forall w :: Free(m, w) ==> SignalsTo(log, w) == SignalsTo(log0, w))
  }

  lemma StartReconciling(m: Registry, next: nat, log: seq<Sent>)
    ensures Reconciling(m, next, log, m, log, [], [])
  {
    assert forall w :: SignalsTo(log, w) + [] == SignalsTo(log, w);
  }

  lemma SignalsMore(log: seq<Sent>, w: nat, signal: Signal, v: nat)
    ensures SignalsTo(log + [Sent(w, signal)], v) == if v == w then SignalsTo(log, v) + [signal] else SignalsTo(log, v)
  {
    assert (log + [Sent(w, signal)])[..|log|] == log;
    assert SignalsTo(log, v) + [] == SignalsTo(log, v);
  }

  lemma OwedMore(known: bool, list: seq<string>, loads: seq<bool>, i: nat, f: string)
    requires |loads| == |list| && i < |list|
    ensures var before := Owed(known, list[..i], loads[..i], f);
      Owed(known, list[..i + 1], loads[..i + 1], f) ==
      if list[i] != f then before else if known || before != [] then before + [SIGHUP] else if loads[i] then [SIGCONT]
        else []
  {
    assert list[..i + 1][..i] == list[..i] && loads[..i + 1][..i] == loads[..i];
  }

  /** A listed file that is registered: its worker gets a SIGHUP. */
  lemma KnownListed(m0: Registry, next0: nat, log0: seq<Sent>, m: Registry, log: seq<Sent>, list: seq<string>,
                    loads: seq<bool>, i: nat)
    requires |loads| == |list| && i < |list| && list[i] in m
    requires forall f, g :: f in m && g in m && m[f] == m[g] ==> f == g
    requires Reconciling(m0, next0, log0, m, log, list[..i], loads[..i])
    ensures Reconciling(m0, next0, log0, m, log + [Sent(m[list[i]], SIGHUP)], list[..i + 1], loads[..i + 1])
  {
    hide Owed;
    hide SignalsTo;
    var x := list[i];
    var log' := log + [Sent(m[x], SIGHUP)];
    var list', loads' := list[..i + 1], loads[..i + 1];
    forall f ensures f in m <==> f in m0 || Owed(false, list', loads', f) != [] {
      OwedMore(false, list, loads, i, f);
    }
    forall f | f in m ensures SignalsTo(log', m[f]) == SignalsTo(log0, m[f]) + Owed(f in m0, list', loads', f) {
      SignalsMore(log, m[x], SIGHUP, m[f]);
      OwedMore(f in m0, list, loads, i, f);
      Associative(SignalsTo(log0, m[f]), Owed(f in m0, list[..i], loads[..i], f), [SIGHUP]);
    }
    forall w | Free(m, w) ensures SignalsTo(log', w) == SignalsTo(log0, w) {
      SignalsMore(log, m[x], SIGHUP, w);
    }
  }

  /** A listed file that is not registered: if it loads, a new worker gets a SIGCONT. */
  lemma NewListed(m0: Registry, next0: nat, log0: seq<Sent>, m: Registry, log: seq<Sent>, list: seq<string>,
                  loads: seq<bool>, i: nat, next: nat)
    requires |loads| == |list| && i < |list| && list[i] !in m && next0 <= next
    requires forall f :: f in m ==> m[f] < next
    requires forall i :: 0 <= i < |log| ==> log[i].worker < next
    requires Reconciling(m0, next0, log0, m, log, list[..i], loads[..i])
    ensures !loads[i] ==> Reconciling(m0, next0, log0, m, log, list[..i + 1], loads[..i + 1])
    ensures loads[i] ==>
      Reconciling(m0, next0, log0, m[list[i] := next], log + [Sent(next, SIGCONT)], list[..i + 1], loads[..i + 1])
  {
    hide Owed;
    hide SignalsTo;
    if loads[i] {
      NewLoaded(m0, next0, log0, m, log, list, loads, i, next);
    } else {
      forall f ensures Owed(false, list[..i + 1], loads[..i + 1], f) == Owed(false, list[..i], loads[..i], f) {
        OwedMore(false, list, loads, i, f);
      }
      forall f | f in m
        ensures Owed(f in m0, list[..i + 1], loads[..i + 1], f) == Owed(f in m0, list[..i], loads[..i], f)
      {
        OwedMore(f in m0, list, loads, i, f);
      }
    }
  }

  lemma NewLoaded(m0: Registry, next0: nat, log0: seq<Sent>, m: Registry, log: seq<Sent>, list: seq<string>,
                  loads: seq<bool>, i: nat, next: nat)
    requires |loads| == |list| && i < |list| && list[i] !in m && next0 <= next && loads[i]
    requires forall f :: f in m ==> m[f] < next
    requires forall i :: 0 <= i < |log| ==> log[i].worker < next
    requires Reconciling(m0, next0, log0, m, log, list[..i], loads[..i])
    ensures Reconciling(m0, next0, log0, m[list[i] := next], log + [Sent(next, SIGCONT)], list[..i + 1], loads[..i + 1])
  {
    hide Owed;
    hide SignalsTo;
    hide Free;
    var x := list[i];
    var log', m' := log + [Sent(next, SIGCONT)], m[x := next];
    var list', loads' := list[..i + 1], loads[..i + 1];
    NoSignals(log, next);
    NextIsFree(m, next);
    forall f ensures f in m' <==> f in m0 || Owed(false, list', loads', f) != [] {
      OwedMore(false, list, loads, i, f);
    }
    forall f | f in m' ensures SignalsTo(log', m'[f]) == SignalsTo(log0, m'[f]) + Owed(f in m0, list', loads', f) {
      SignalsMore(log, next, SIGCONT, m'[f]);
      OwedMore(f in m0, list, loads, i, f);
      if f == x {
        assert SignalsTo(log, next) == [] == SignalsTo(log0, next);
        assert Owed(false, list[..i], loads[..i], f) == [];
      } else {
        assert f in m && m[f] != next;
      }
    }
    forall w | Free(m', w) ensures SignalsTo(log', w) == SignalsTo(log0, w) {
      FreeBefore(m, x, next, w);
      SignalsMore(log, next, SIGCONT, w);
    }
  }

  lemma NextIsFree(m: Registry, next: nat)
    requires forall f :: f in m ==> m[f] < next
    ensures Free(m, next)
  {
  }

  lemma FreeBefore(m: Registry, x: string, next: nat, w: nat)
    requires x !in m && Free(m[x := next], w)
    ensures Free(m, w) && w != next
  {
    var m' := m[x := next];
    assert m'[x] == next;
    assert forall f :: f in m ==> f in m' && m'[f] == m[f];
  }

  lemma {:induction false} NoSignals(log: seq<Sent>, w: nat)
    requires forall i :: 0 <= i < |log| ==> log[i].worker < w
    ensures SignalsTo(log, w) == []
  {
    if log != [] {
      NoSignals(log[..|log| - 1], w);
    }
  }

  /** The state of the second loop with the files in `todo` still to be looked at. */
  ghost predicate Removing(m1: Registry, log1: seq<Sent>, m: Registry, log: seq<Sent>, list: seq<string>,
                           todo: set<string>) {
    && (forall f :: f in m ==> f in m1 && m[f] == m1[f])
    && (forall f :: f in m1 ==> (f in m <==> f in list || f in todo))
    && (forall f :: f in m1 ==> SignalsTo(log, m1[f]) == SignalsTo(log1, m1[f]) + if f in m then [] else [Interrupt])
    && (forall w :: Free(m1, w) ==> SignalsTo(log, w) == SignalsTo(log1, w))
  }

  lemma StartRemoving(m: Registry, log: seq<Sent>, list: seq<string>)
    ensures Removing(m, log, m, log, list, m.Keys)
  {
    assert forall w :: SignalsTo(log, w) + [] == SignalsTo(log, w);
  }

  /** One file looked at: if it is not listed, its worker gets an Interrupt and leaves the registry. */
  lemma OneSeen(m1: Registry, log1: seq<Sent>, m: Registry, log: seq<Sent>, list: seq<string>, todo: set<string>,
                f: string)
    requires f in todo && f in m && Removing(m1, log1, m, log, list, todo)
    requires forall g, h :: g in m1 && h in m1 && m1[g] == m1[h] ==> g == h
    ensures f in list ==> Removing(m1, log1, m, log, list, todo - {f})
    ensures f !in list ==> Removing(m1, log1, m - {f}, log + [Sent(m[f], Interrupt)], list, todo - {f})
  {
    hide SignalsTo;
    if f !in list {
      var m', log' := m - {f}, log + [Sent(m[f], Interrupt)];
      forall g | g in m1
        ensures SignalsTo(log', m1[g]) == SignalsTo(log1, m1[g]) + if g in m' then [] else [Interrupt]
      {
        SignalsMore(log, m[f], Interrupt, m1[g]);
        assert SignalsTo(log1, m1[g]) + [] == SignalsTo(log1, m1[g]);
      }
      forall w | Free(m1, w) ensures SignalsTo(log', w) == SignalsTo(log1, w) {
        SignalsMore(log, m[f], Interrupt, w);
      }
    }
  }

  lemma {:induction false} OwedListed(known: bool, list: seq<string>, loads: seq<bool>, f: string)
    requires |loads| == |list| && f !in list
    ensures Owed(known, list, loads, f) == []
  {
    if list != [] {
      assert list[|list| - 1] in list;
      OwedListed(known, list[..|list| - 1], loads[..|list| - 1], f);
    }
  }

  lemma ReconciledAll(m0: Registry, next0: nat, log0: seq<Sent>, m1: Registry, log1: seq<Sent>, m: Registry,
                      log: seq<Sent>, list: seq<string>, loads: seq<bool>)
    requires |loads| == |list|
    requires Reconciling(m0, next0, log0, m1, log1, list, loads) && Removing(m1, log1, m, log, list, {})
    ensures Reconciled(m0, next0, log0, m, log, list, loads)
  {
    hide Owed;
    hide SignalsTo;
    hide Free;
    forall known, f | f !in list ensures Owed(known, list, loads, f) == [] {
      OwedListed(known, list, loads, f);
    }
    forall f | f in m ensures SignalsTo(log, m[f]) == SignalsTo(log0, m[f]) + Owed(f in m0, list, loads, f) {
      NothingMore(SignalsTo(log1, m1[f]));
    }
    forall f | f in m0 && f !in m ensures SignalsTo(log, m0[f]) == SignalsTo(log0, m0[f]) + [Interrupt] {
      NothingMore(SignalsTo(log0, m1[f]));
    }
    assert forall f :: f in m1 ==> if f in list then f in m && m[f] == m1[f] else f in m0 && m0[f] == m1[f];
    forall w | Free(m, w) && Free(m0, w) ensures Free(m1, w) {
      StillFree(m0, m1, m, list, w);
    }
  }

  lemma NothingMore(s: seq<Signal>)
    ensures s + [] == s
  {
  }

  lemma StillFree(m0: Registry, m1: Registry, m: Registry, list: seq<string>, w: nat)
    requires forall f :: f in m1 ==> if f in list then f in m && m[f] == m1[f] else f in m0 && m0[f] == m1[f]
    requires Free(m, w) && Free(m0, w)
    ensures Free(m1, w)
  {
  }

  // ---------- what each worker is owed ----------

  /** A kept worker gets one SIGHUP for each time its file is listed. */
  lemma {:induction false} OwedKept(list: seq<string>, loads: seq<bool>, f: string)
    requires |loads| == |list|
    ensures Owed(true, list, loads, f) == seq(Listed(list, f), _ => SIGHUP)
  {
    if list != [] {
      var k := |list| - 1;
      OwedKept(list[..k], loads[..k], f);
      assert list == list[..k] + [list[k]];
    }
  }

  /** The file is listed and loads at i, and at no earlier place. */
  ghost predicate FirstLoad(list: seq<string>, loads: seq<bool>, f: string, i: nat)
    requires |loads| == |list|
  {
    i < |list| && list[i] == f && loads[i] && forall j :: 0 <= j < i && list[j] == f ==> !loads[j]
  }

  /** A new worker gets SIGCONT where its file first loads, then one SIGHUP for each time it is listed after that. */
  lemma {:induction false} OwedNew(list: seq<string>, loads: seq<bool>, f: string, i: nat)
    requires |loads| == |list| && FirstLoad(list, loads, f, i)
    ensures Owed(false, list, loads, f) == [SIGCONT] + seq(Listed(list[i + 1..], f), _ => SIGHUP)
  {
    var k := |list| - 1;
    var l, o := list[..k], loads[..k];
    if i < k {
      assert FirstLoad(l, o, f, i);
      OwedNew(l, o, f, i);
      assert list[i + 1..] == l[i + 1..] + [list[k]];
    } else {
      OwedNone(l, o, f);
      assert list[i + 1..] == [];
    }
  }

  /** A file that never loads gets no worker, and so no signal; one that loads somewhere gets one. */
  lemma {:induction false} OwedNone(list: seq<string>, loads: seq<bool>, f: string)
    requires |loads| == |list|
    ensures Owed(false, list, loads, f) == [] <==> forall j :: 0 <= j < |list| && list[j] == f ==> !loads[j]
  {
    if list != [] {
      var k := |list| - 1;
      OwedNone(list[..k], loads[..k], f);
    }
  }

  /** Registered after a reconciliation is what is listed and was registered or loads where it is listed. */
  lemma RegisteredIff(m0: Registry, next0: nat, log0: seq<Sent>, m: Registry, log: seq<Sent>, list: seq<string>,
                      loads: seq<bool>, f: string)
    requires |loads| == |list| && Reconciled(m0, next0, log0, m, log, list, loads)
    ensures f in m <==> exists j :: 0 <= j < |list| && list[j] == f && (f in m0 || loads[j])
  {
    hide Owed;
    hide SignalsTo;
    OwedNone(list, loads, f);
  }

  /** Repeating the list leaves the registry unchanged, exactly if no listed file loads now that did not before. */
  lemma RepeatUnchanged(m0: Registry, n0: nat, log0: seq<Sent>, m1: Registry, n1: nat, log1: seq<Sent>, m2: Registry,
                        log2: seq<Sent>,
                        list: seq<string>, loads: seq<bool>, again: seq<bool>)
    requires |loads| == |list| == |again|
    requires Reconciled(m0, n0, log0, m1, log1, list, loads) && Reconciled(m1, n1, log1, m2, log2, list, again)
    ensures m2 == m1 <==> forall j :: 0 <= j < |list| && again[j] ==> list[j] in m1
    ensures again == loads ==> m2 == m1
  {
    forall f ensures f in m2 <==> exists j :: 0 <= j < |list| && list[j] == f && (f in m1 || again[j]) {
      RegisteredIff(m1, n1, log1, m2, log2, list, again, f);
    }
    forall f ensures f in m1 <==> exists j :: 0 <= j < |list| && list[j] == f && (f in m0 || loads[j]) {
      RegisteredIff(m0, n0, log0, m1, log1, list, loads, f);
    }
    hide Owed;
    hide SignalsTo;
    assert forall f :: f in m2 && f in m1 ==> m2[f] == m1[f];
    SameFiles(m0, m1, m2, list, loads, again);
  }

  lemma SameFiles(m0: Registry, m1: Registry, m2: Registry, list: seq<string>, loads: seq<bool>, again: seq<bool>)
    requires |loads| == |list| == |again|
    requires forall f :: f in m2 <==> exists j :: 0 <= j < |list| && list[j] == f && (f in m1 || again[j])
    requires forall f :: f in m1 <==> exists j :: 0 <= j < |list| && list[j] == f && (f in m0 || loads[j])
    requires forall f :: f in m2 && f in m1 ==> m2[f] == m1[f]
    ensures m2 == m1 <==> forall j :: 0 <= j < |list| && again[j] ==> list[j] in m1
    ensures again == loads ==> m2 == m1
  {
    forall f | f in m1 ensures f in m2 {
      var j :| 0 <= j < |list| && list[j] == f && (f in m0 || loads[j]);
      assert list[j] == f;
    }
    forall j | 0 <= j < |list| && again[j] ensures list[j] in m2 && (again == loads ==> list[j] in m1) {
      var f := list[j];
      assert list[j] == f;
    }
    if forall j :: 0 <= j < |list| && again[j] ==> list[j] in m1 {
      assert m2.Keys == m1.Keys;
    }
  }
}

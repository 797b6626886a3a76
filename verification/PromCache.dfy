/**
 The exporter's cache of Prometheus series (prometheus_exporter.go): entries are replaced as metrics
 arrive, a ticker drops those that are more than a minute old, and a scrape emits what is there.
 */
module PromCache {
  import opened PromKey

  datatype Metric = Metric(key: string, name: string, labels: Labels, value: real, stamp: int)

  /** What the exporter's loop sees: a metric, or a tick of the ticker with the clock reading it takes. */
  datatype Event = Received(metric: Metric) | Ticked(now: int)

  type Cache = map<string, Metric>

  /** Nanoseconds in a minute. */
  const MINUTE := 60_000_000_000

  predicate Stale(metric: Metric, now: int) {
    now - MINUTE > metric.stamp
  }

  function Sweep(m: Cache, now: int): Cache {
    map k | k in m && !Stale(m[k], now) :: m[k]
  }

  function Step(m: Cache, e: Event): Cache {
    match e
    case Received(metric) => m[metric.key := metric]
    case Ticked(now) => Sweep(m, now)
  }

  /** The cache after a run of events. */
  function After(events: seq<Event>): Cache {
    if events == [] then map[] else Step(After(events[..|events| - 1]), events[|events| - 1])
  }

  class Exporter {
    var m: Cache

    constructor ()
      ensures m == map[]
    {
      m := map[];
    }

    method Receive(metric: Metric)
      modifies this
      ensures m == old(m)[metric.key := metric]
    {
      m := m[metric.key := metric];
    }

    /** Drop the stale entries, met in any order. */
    method Tick(now: int)
      modifies this
      ensures m == Sweep(old(m), now)
    {
      var todo := m.Keys;
      while todo != {}
        invariant todo <= m.Keys <= old(m).Keys
        invariant forall k :: k in m ==> m[k] == old(m)[k]
        invariant forall k :: k in old(m) && k !in todo ==> (k in m <==> !Stale(old(m)[k], now))
        decreases todo
      {
        var k :| k in todo;
        todo := todo - {k};
        if now - MINUTE > m[k].stamp {
          m := m - {k};
        }
      }
    }

    /** The loop of the exporter over a run of events. */
    method Process(events: seq<Event>)
      requires m == map[]
      modifies this
      ensures m == After(events)
    {
      for i := 0 to |events|
        invariant m == After(events[..i])
      {
        assert events[..i + 1][..i] == events[..i];
        match events[i]
        case Received(metric) => Receive(metric);
        case Ticked(now) => Tick(now);
      }
      assert events[..|events|] == events;
    }

    /** Emit every entry once, met in any order; no two of them have the same name and labels. */
    method Collect(order: seq<string>, printable: char -> bool) returns (out: seq<Metric>)
      requires Enumerates(order, m.Keys)
      ensures |out| == |order| && forall i :: 0 <= i < |out| ==> order[i] in m && out[i] == m[order[i]]
      ensures Keyed(m, printable) ==>
        forall i, j :: 0 <= i < j < |out| ==> !(out[i].name == out[j].name && out[i].labels == out[j].labels)
    {
      out := [];
      assert forall k :: k in order ==> k in Elements(order);
      for i := 0 to |order|
        invariant |out| == i && forall j :: 0 <= j < i ==> order[j] in m && out[j] == m[order[j]]
      {
        out := out + [m[order[i]]];
      }
      if Keyed(m, printable) {
        forall i, j | 0 <= i < j < |out| ensures !(out[i].name == out[j].name && out[i].labels == out[j].labels) {
          EntriesDiffer(m, order[i], order[j], printable);
        }
      }
    }
  }

  /** Every entry is stored under the key of its name and labels. */
  ghost predicate Keyed(m: Cache, printable: char -> bool) {
    forall k :: k in m ==> IsKey(k, m[k].name, m[k].labels, printable)
  }

  lemma EntriesDiffer(m: Cache, k: string, l: string, printable: char -> bool)
    requires Keyed(m, printable) && k in m && l in m && k != l
    ensures !(m[k].name == m[l].name && m[k].labels == m[l].labels)
  {
    KeysAgree(k, m[k].name, m[k].labels, l, m[l].name, m[l].labels, printable);
  }

  /** Over every run of metrics that carry their key the entries stay under their keys. */
  lemma {:induction false} AfterKeyed(events: seq<Event>, printable: char -> bool)
    requires forall e :: e in events && e.Received? ==>
      IsKey(e.metric.key, e.metric.name, e.metric.labels, printable)
    ensures Keyed(After(events), printable)
  {
    hide IsKey;
    if events != [] {
      assert events[|events| - 1] in events;
      AfterKeyed(events[..|events| - 1], printable);
    }
  }

  // ---------- the cache against its update log ----------

  /** The i-th event is the last metric received for key k. */
  ghost predicate LastFor(events: seq<Event>, i: int, k: string) {
    && 0 <= i < |events| && events[i].Received? && events[i].metric.key == k
    && forall j :: i < j < |events| && events[j].Received? ==> events[j].metric.key != k
  }

  /** A tick after the i-th event finds its metric too old. */
  ghost predicate Expired(events: seq<Event>, i: int)
    requires 0 <= i < |events| && events[i].Received?
  {
    exists j :: i < j < |events| && events[j].Ticked? && events[j].now - events[i].metric.stamp > 60_000_000_000
  }

  /** The entry for a key is the last metric received for it; there is none only if none was received or it expired. */
  lemma {:induction false} EntryIsLast(events: seq<Event>, k: string)
    ensures k in After(events) <==> exists i :: LastFor(events, i, k) && !Expired(events, i)
    ensures forall i :: LastFor(events, i, k) && !Expired(events, i) ==>
              k in After(events) && After(events)[k] == events[i].metric
  {
    if events != [] {
      var n := |events| - 1;
      EntryIsLast(events[..n], k);
      if events[n].Received? && events[n].metric.key == k {
        assert LastFor(events, n, k) && !Expired(events, n);
      } else {
        forall i ensures LastFor(events, i, k) <==> LastFor(events[..n], i, k) {
          SameLast(events, i, k);
        }
        forall i | LastFor(events, i, k)
          ensures Expired(events, i) <==>
            Expired(events[..n], i) || (events[n].Ticked? && Stale(events[i].metric, events[n].now))
        {
          ExpiredMore(events, i);
        }
      }
    }
  }

  lemma SameLast(events: seq<Event>, i: int, k: string)
    requires events != [] && !(events[|events| - 1].Received? && events[|events| - 1].metric.key == k)
    ensures LastFor(events, i, k) <==> LastFor(events[..|events| - 1], i, k)
  {
    var before := events[..|events| - 1];
    assert forall j :: 0 <= j < |before| ==> before[j] == events[j];
  }

  lemma ExpiredMore(events: seq<Event>, i: int)
    requires 0 <= i < |events| - 1 && events[i].Received?
    ensures var n := |events| - 1; Expired(events, i) <==>
      Expired(events[..n], i) || (events[n].Ticked? && Stale(events[i].metric, events[n].now))
  {
    var n := |events| - 1;
    var before := events[..n];
    assert forall j :: 0 <= j < n ==> before[j] == events[j];
    if Expired(before, i) {
      var j :| i < j < |before| && before[j].Ticked? && Stale(before[i].metric, before[j].now);
      assert events[j].Ticked? && Stale(events[i].metric, events[j].now);
    }
    if Expired(events, i) {
      var j :| i < j < |events| && events[j].Ticked? && Stale(events[i].metric, events[j].now);
      if j < n {
        assert before[j].Ticked? && Stale(before[i].metric, before[j].now);
      }
    }
  }

  // ---------- ages ----------

  /** When an event happens: a metric is received when it is stamped. */
  function At(e: Event): int {
    match e
    case Received(metric) => metric.stamp
    case Ticked(now) => now
  }

  /** The events happen one after another, none before the start and none after the present. */
  ghost predicate InOrder(events: seq<Event>, start: int, now: int) {
    && (forall i :: 0 <= i < |events| ==> start <= At(events[i]) <= now)
    && (forall i, j :: 0 <= i < j < |events| ==> At(events[i]) <= At(events[j]))
  }

  /** The last tick, or the start of the ticker if there was none yet, is at most a minute ago. */
  ghost predicate TickedLately(events: seq<Event>, start: int, now: int) {
    || now - start <= MINUTE
    || exists i :: 0 <= i < |events| && events[i].Ticked? && now - events[i].now <= MINUTE
  }

  /** With metrics received when stamped and a tick every minute, no entry is ever older than two minutes. */
  lemma {:induction false} AtMostTwoMinutes(events: seq<Event>, start: int, now: int, k: string)
    requires InOrder(events, start, now) && TickedLately(events, start, now)
    requires k in After(events)
    ensures now - After(events)[k].stamp <= 120_000_000_000
  {
    EntryIsLast(events, k);
    var i :| LastFor(events, i, k) && !Expired(events, i);
    if now - start > MINUTE {
      var j :| 0 <= j < |events| && events[j].Ticked? && now - events[j].now <= MINUTE;
      assert i < j ==> !Stale(events[i].metric, events[j].now);
      assert j < i ==> At(events[j]) <= At(events[i]);
    }
  }

  /** Two minutes is the exact bound: there is a run with an entry of just that age. */
  lemma TwoMinutesAreReached(metric: Metric)
    ensures exists events, start, now ::
      && InOrder(events, start, now) && TickedLately(events, start, now)
      && metric.key in After(events) && After(events)[metric.key] == metric
      && now - metric.stamp == 120_000_000_000
  {
    var t := metric.stamp;
    var one := [Received(metric)];
    var events := [Received(metric), Ticked(t + MINUTE)];
    assert events[..1] == one && one[..0] == [];
    assert After(one) == map[metric.key := metric];
    assert After(events) == Sweep(After(one), t + MINUTE);
    assert events[1].Ticked?;
    assert InOrder(events, t, t + 2 * MINUTE) && TickedLately(events, t, t + 2 * MINUTE);
  }
}

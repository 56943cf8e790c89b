/**
 The telemetry collector: rename suppression with a pruned cache, the ancestry
 filter, and the bounded queue behind them.
 */
module Collector {
  import opened Common
  import opened OrderedMaps

  datatype Kind = Exec | Exit | Rename | OtherKind

  datatype Event = Event(kind: Kind, timestamp: int, pid: int, tgid: int, ppid: int, uid: int, identifier: string)

  datatype Filter = Filter(uids: set<int>, monitored: set<int>, ignored: set<int>, descendants: bool, maxTracked: nat)

  type Ancestry = seq<Entry<int, int>>

  // ------------------------------------------------------------ ancestry

  function ParentOf(anc: Ancestry, pid: int): int {
    match Get(anc, pid) case Some(p) => p case None => 0
  }

  /** The n-th ancestor, counting the starting process as the zeroth. */
  function Ancestor(anc: Ancestry, start: int, n: nat): int {
    if n == 0 then start else ParentOf(anc, Ancestor(anc, start, n - 1))
  }

  predicate Positive(anc: Ancestry, start: int, n: nat) {
    forall m: nat | m <= n :: Ancestor(anc, start, m) > 0
  }

  /** Some process reached from start through positive ids is monitored. */
  ghost predicate Descends(anc: Ancestry, start: int, monitored: set<int>) {
    exists n: nat :: Positive(anc, start, n) && Ancestor(anc, start, n) in monitored
  }

  /** What the filter promises, with reachability in place of the walk. */
  ghost predicate Wanted(f: Filter, e: Event, anc: Ancestry) {
    && e.tgid !in f.ignored && e.pid !in f.ignored
    && (f.uids == {} || e.uid in f.uids)
    && (f.monitored == {} || e.tgid in f.monitored || e.pid in f.monitored
        || (f.descendants && Descends(anc, e.ppid, f.monitored)))
  }

  function Visited(anc: Ancestry, start: int, n: nat): set<int> {
    set m: nat | m < n :: Ancestor(anc, start, m)
  }

  function Universe(anc: Ancestry, start: int): set<int> {
    {start, 0} + set i | 0 <= i < |anc| :: anc[i].value
  }

  lemma {:induction false} AncestorsKnown(anc: Ancestry, start: int, n: nat)
    ensures Ancestor(anc, start, n) in Universe(anc, start)
  {
    if n > 0 {
      var c := Ancestor(anc, start, n - 1);
      if Find(anc, c) < |anc| {
        assert anc[Find(anc, c)].value in Universe(anc, start);
      }
    }
  }

  lemma {:induction false} CycleCloses(anc: Ancestry, start: int, n: nat, k: nat)
    requires Ancestor(anc, start, n) in Visited(anc, start, n)
    ensures Ancestor(anc, start, k) in Visited(anc, start, n)
  {
    if k >= n && k > 0 {
      CycleCloses(anc, start, n, k - 1);
      var m: nat :| m < n && Ancestor(anc, start, m) == Ancestor(anc, start, k - 1);
      assert Ancestor(anc, start, k) == Ancestor(anc, start, m + 1);
    }
  }

  /** The walk stops where nothing further could be reached: at a non-positive id or inside a cycle. */
  lemma DeadEnd(anc: Ancestry, start: int, n: nat, monitored: set<int>)
    requires Ancestor(anc, start, n) <= 0 || Ancestor(anc, start, n) in Visited(anc, start, n)
    requires Visited(anc, start, n) !! monitored
    ensures !Descends(anc, start, monitored)
  {
    forall k: nat | Positive(anc, start, k) ensures Ancestor(anc, start, k) !in monitored {
      if k < n {
        assert Ancestor(anc, start, k) in Visited(anc, start, n);
      } else if Ancestor(anc, start, n) > 0 {
        CycleCloses(anc, start, n, k);
      }
    }
  }

  /** The visited set grows inside the ids of the map, so the walk ends on any parent map, cyclic or not. */
  method Walk(anc: Ancestry, start: int, monitored: set<int>) returns (found: bool)
    ensures found <==> Descends(anc, start, monitored)
  {
    hide Universe, Visited, Descends;
    var current := start;
    var visited: set<int> := {};
    ghost var n: nat := 0;
    NothingVisited(anc, start);
    while current > 0 && current !in visited
      invariant current == Ancestor(anc, start, n) && visited == Visited(anc, start, n)
      invariant n > 0 ==> Positive(anc, start, n - 1)
      invariant visited !! monitored && visited <= Universe(anc, start)
      decreases |Universe(anc, start) - visited|
    {
      PositiveSnoc(anc, start, n);
      AncestorsKnown(anc, start, n);
      if current in monitored {
        Found(anc, start, n, monitored);
        return true;
      }
      VisitedSnoc(anc, start, n);
      Shrinks(Universe(anc, start), visited, current);
      visited := visited + {current};
      current := ParentOf(anc, current);
      n := n + 1;
    }
    DeadEnd(anc, start, n, monitored);
    return false;
  }

  lemma NothingVisited(anc: Ancestry, start: int)
    ensures Visited(anc, start, 0) == {}
  {
  }

  lemma PositiveSnoc(anc: Ancestry, start: int, n: nat)
    requires (n > 0 ==> Positive(anc, start, n - 1)) && Ancestor(anc, start, n) > 0
    ensures Positive(anc, start, n)
  {
    hide Ancestor;
  }

  lemma Found(anc: Ancestry, start: int, n: nat, monitored: set<int>)
    requires Positive(anc, start, n) && Ancestor(anc, start, n) in monitored
    ensures Descends(anc, start, monitored)
  {
  }

  /** The filter accepts exactly the wanted events. */
  method Accepts(f: Filter, e: Event, anc: Ancestry) returns (ok: bool)
    ensures ok <==> Wanted(f, e, anc)
  {
    hide Descends;
    if e.tgid in f.ignored || e.pid in f.ignored {
      return false;
    }
    if !(f.uids == {} || e.uid in f.uids) {
      return false;
    }
    if f.monitored == {} || e.tgid in f.monitored || e.pid in f.monitored {
      return true;
    }
    if !f.descendants {
      return false;
    }
    ok := Walk(anc, e.ppid, f.monitored);
  }

  lemma VisitedSnoc(anc: Ancestry, start: int, n: nat)
    ensures Visited(anc, start, n + 1) == Visited(anc, start, n) + {Ancestor(anc, start, n)}
  {
  }

  lemma Shrinks(all: set<int>, seen: set<int>, x: int)
    requires x in all && x !in seen
    ensures |all - (seen + {x})| < |all - seen|
  {
    assert all - seen == (all - (seen + {x})) + {x};
  }

  // ------------------------------------------------------------ rename suppression

  datatype Fingerprint = Fingerprint(tgid: int, uid: int, identifier: string)

  type Cache = seq<Entry<Fingerprint, int>>

  function Pruned(c: Cache, cutoff: int): Cache {
    if c == [] || c[0].value >= cutoff then c else Pruned(c[1..], cutoff)
  }

  /** One rename against the pruned cache: the new cache, and whether it goes on. */
  function Cached(c: Cache, window: nat, k: Fingerprint, t: int): (Cache, bool) {
    if Get(c, k).Some? && t - Get(c, k).value <= window then (c, false)
    else (Pruned(Put(c, k, t), t - window), true)
  }

  /** One rename against a map that forgets nothing. */
  function Remembered(last: map<Fingerprint, int>, window: nat, k: Fingerprint, t: int): (map<Fingerprint, int>, bool) {
    if k in last && t - last[k] <= window then (last, false) else (last[k := t], true)
  }

  predicate Sorted(c: Cache) {
    forall i, j | 0 <= i < j < |c| :: c[i].value <= c[j].value
  }

  /** The cache holds exactly the recent part of the full map, oldest first. */
  ghost predicate Mirrors(c: Cache, last: map<Fingerprint, int>, window: nat, now: int) {
    && Keyed(c) && Sorted(c)
    && (forall e | e in c :: e.key in last && last[e.key] == e.value)
    && (forall k | k in last :: last[k] <= now && (Entry(k, last[k]) in c || last[k] < now - window))
  }

  lemma {:induction false} PrunedMeaning(c: Cache, cutoff: int)
    requires Keyed(c) && Sorted(c)
    ensures var r := Pruned(c, cutoff);
      && Keyed(r) && Sorted(r)
      && (forall e | e in r :: e in c && e.value >= cutoff)
      && (forall e | e in c && e.value >= cutoff :: e in r)
  {
    if c != [] && c[0].value < cutoff {
      PrunedMeaning(c[1..], cutoff);
    }
  }

  lemma WithoutSorted(c: Cache, k: Fingerprint)
    requires Sorted(c)
    ensures Sorted(Without(c, k))
  {
    var i, r := Find(c, k), Without(c, k);
    if i < |c| {
      assert forall j | 0 <= j < |r| :: r[j] == c[if j < i then j else j + 1];
    }
  }

  lemma PutSorted(c: Cache, k: Fingerprint, t: int)
    requires Keyed(c) && Sorted(c) && forall e | e in c :: e.value <= t
    ensures Sorted(Put(c, k, t)) && Keyed(Put(c, k, t))
  {
    hide Without, Keyed;
    PutKeyed(c, k, t);
    WithoutMeaning(c, k);
    WithoutSorted(c, k);
    forall i | 0 <= i < |Without(c, k)| ensures Without(c, k)[i].value <= t {
      assert Without(c, k)[i] in Without(c, k);
    }
  }

  lemma AnswersAgree(c: Cache, last: map<Fingerprint, int>, window: nat, now: int, k: Fingerprint, t: int)
    requires Mirrors(c, last, window, now) && t >= now
    ensures Cached(c, window, k, t).1 == Remembered(last, window, k, t).1
  {
    if k in last {
      GetMeaning(c, k, last[k]);
    }
    if Get(c, k).Some? {
      GetMeaning(c, k, Get(c, k).value);
    }
  }

  lemma Refreshed(c: Cache, last: map<Fingerprint, int>, window: nat, now: int, k: Fingerprint, t: int)
    requires Mirrors(c, last, window, now) && t >= now
    ensures Mirrors(Put(c, k, t), last[k := t], window, t)
  {
    hide Put, Without;
    PutKeyed(c, k, t);
    forall e | e in c ensures e.value <= t {
      assert e.key in last;
    }
    PutSorted(c, k, t);
    var full := last[k := t];
    forall x | x in full ensures full[x] <= t && (Entry(x, full[x]) in Put(c, k, t) || full[x] < t - window) {
      if x == k || Entry(x, last[x]) in c {
        PutHolds(c, k, t, x, full[x]);
      }
    }
  }

  lemma PutHolds(c: Cache, k: Fingerprint, t: int, x: Fingerprint, v: int)
    requires Keyed(c) && if x == k then v == t else Entry(x, v) in c
    ensures Entry(x, v) in Put(c, k, t)
  {
    WithoutMeaning(c, k);
    assert Put(c, k, t)[|Put(c, k, t)| - 1] == Entry(k, t);
  }

  lemma PrunedMirrors(c: Cache, last: map<Fingerprint, int>, window: nat, t: int)
    requires Mirrors(c, last, window, t)
    ensures Mirrors(Pruned(c, t - window), last, window, t)
  {
    hide Pruned;
    PrunedMeaning(c, t - window);
  }

  lemma StillMirrors(c: Cache, last: map<Fingerprint, int>, window: nat, now: int, t: int)
    requires Mirrors(c, last, window, now) && t >= now
    ensures Mirrors(c, last, window, t)
  {
  }

  lemma MirrorsOn(c: Cache, last: map<Fingerprint, int>, window: nat, now: int, k: Fingerprint, t: int)
    requires Mirrors(c, last, window, now) && t >= now
    ensures Mirrors(Cached(c, window, k, t).0, Remembered(last, window, k, t).0, window, t)
  {
    hide Mirrors, Put, Pruned, Get;
    AnswersAgree(c, last, window, now, k, t);
    StillMirrors(c, last, window, now, t);
    Refreshed(c, last, window, now, k, t);
    PrunedMirrors(Put(c, k, t), last[k := t], window, t);
  }

  datatype Seen = Seen(k: Fingerprint, t: int)

  predicate InOrder(s: seq<Seen>) {
    forall i, j | 0 <= i < j < |s| :: s[i].t <= s[j].t
  }

  function CacheAfter(window: nat, s: seq<Seen>): Cache {
    if s == [] then [] else Cached(CacheAfter(window, s[..|s| - 1]), window, s[|s| - 1].k, s[|s| - 1].t).0
  }

  function MapAfter(window: nat, s: seq<Seen>): map<Fingerprint, int> {
    if s == [] then map[] else Remembered(MapAfter(window, s[..|s| - 1]), window, s[|s| - 1].k, s[|s| - 1].t).0
  }

  /** Whether the rename at position i of a stream goes on. */
  predicate Passes(window: nat, s: seq<Seen>, i: nat)
    requires i < |s|
  {
    Cached(CacheAfter(window, s[..i]), window, s[i].k, s[i].t).1
  }

  predicate PassesFull(window: nat, s: seq<Seen>, i: nat)
    requires i < |s|
  {
    Remembered(MapAfter(window, s[..i]), window, s[i].k, s[i].t).1
  }

  lemma {:induction false} CacheMirrors(window: nat, s: seq<Seen>)
    requires InOrder(s)
    ensures s == [] ==> CacheAfter(window, s) == [] && MapAfter(window, s) == map[]
    ensures s != [] ==> Mirrors(CacheAfter(window, s), MapAfter(window, s), window, s[|s| - 1].t)
  {
    if s != [] {
      var n := |s| - 1;
      CacheMirrors(window, s[..n]);
      var c, m := CacheAfter(window, s[..n]), MapAfter(window, s[..n]);
      MirrorsOn(c, m, window, if n == 0 then s[n].t else s[n - 1].t, s[n].k, s[n].t);
    }
  }

  /**
   The pruned cache refines the map that forgets nothing: on any stream whose
   timestamps do not decrease, every rename gets the same answer from both.
   */
  lemma SameAnswers(window: nat, s: seq<Seen>, i: nat)
    requires InOrder(s) && i < |s|
    ensures Passes(window, s, i) <==> PassesFull(window, s, i)
  {
    hide Cached, Remembered;
    CacheMirrors(window, s[..i]);
    AnswersAgree(CacheAfter(window, s[..i]), MapAfter(window, s[..i]), window, if i == 0 then s[i].t else s[i - 1].t,
                 s[i].k, s[i].t);
  }

  /** The cache is in timestamp order and holds nothing from outside the window before the last forwarded rename. */
  lemma CacheInWindow(window: nat, s: seq<Seen>)
    requires InOrder(s) && s != [] && Passes(window, s, |s| - 1)
    ensures Sorted(CacheAfter(window, s)) && Keyed(CacheAfter(window, s))
    ensures forall e | e in CacheAfter(window, s) :: s[|s| - 1].t - window <= e.value <= s[|s| - 1].t
  {
    hide Cached, Put, Pruned, Mirrors;
    var n := |s| - 1;
    var c, k, t := CacheAfter(window, s[..n]), s[n].k, s[n].t;
    CacheMirrors(window, s);
    CacheMirrors(window, s[..n]);
    InWindow(c, MapAfter(window, s[..n]), window, if n == 0 then t else s[n - 1].t, k, t);
  }

  lemma InWindow(c: Cache, last: map<Fingerprint, int>, window: nat, now: int, k: Fingerprint, t: int)
    requires c == [] || (Mirrors(c, last, window, now) && t >= now)
    requires Cached(c, window, k, t).1
    ensures var r := Cached(c, window, k, t).0;
      Sorted(r) && Keyed(r) && forall e | e in r :: t - window <= e.value <= t
  {
    hide Put, Pruned;
    forall e | e in c ensures e.value <= t {
      assert e.key in last;
    }
    PutSorted(c, k, t);
    PutKeyed(c, k, t);
    PrunedMeaning(Put(c, k, t), t - window);
  }

  lemma {:induction false} LastPass(window: nat, s: seq<Seen>, i: nat)
    requires i < |s| && PassesFull(window, s, i)
    ensures s[i].k in MapAfter(window, s)
    ensures MapAfter(window, s)[s[i].k] >= s[i].t
    decreases |s|
  {
    var n := |s| - 1;
    if i < n {
      assert s[..n][..i] == s[..i];
      LastPass(window, s[..n], i);
    }
  }

  /** Two forwarded renames with one fingerprint are more than the window apart. */
  lemma ForwardedApart(window: nat, s: seq<Seen>, i: nat, j: nat)
    requires InOrder(s) && i < j < |s| && s[i].k == s[j].k && Passes(window, s, i) && Passes(window, s, j)
    ensures s[j].t - s[i].t > window
  {
    SameAnswers(window, s, i);
    SameAnswers(window, s, j);
    assert s[..j][..i] == s[..i];
    LastPass(window, s[..j], i);
  }

  // ------------------------------------------------------------ late events

  /** The time of the last rename of a stream that went on. */
  function LastForwarded(window: nat, s: seq<Seen>): Option<int> {
    if s == [] then None
    else if Cached(CacheAfter(window, s[..|s| - 1]), window, s[|s| - 1].k, s[|s| - 1].t).1 then Some(s[|s| - 1].t)
    else LastForwarded(window, s[..|s| - 1])
  }

  /** What the cache still holds: exactly the entries no older than the window before the last forwarded rename. */
  ghost predicate HoldsFrom(c: Cache, last: map<Fingerprint, int>, cutoff: int) {
    && (forall k | k in last :: Entry(k, last[k]) in c <==> last[k] >= cutoff)
    && (forall e | e in c :: e.key in last && last[e.key] == e.value)
  }

  lemma RefreshedHolds(c: Cache, last: map<Fingerprint, int>, cutoff: int, k: Fingerprint, t: int, window: nat)
    requires Keyed(c) && Sorted(c) && HoldsFrom(c, last, cutoff) && cutoff <= t - window
    requires forall e | e in c :: e.value <= t
    ensures HoldsFrom(Pruned(Put(c, k, t), t - window), last[k := t], t - window)
  {
    hide Pruned, Without;
    var full, put := last[k := t], Put(c, k, t);
    PutKeyed(c, k, t);
    PutSorted(c, k, t);
    PrunedMeaning(put, t - window);
    forall x | x in full ensures Entry(x, full[x]) in Pruned(put, t - window) <==> full[x] >= t - window {
      if x == k || Entry(x, last[x]) in c {
        PutHolds(c, k, t, x, full[x]);
      }
    }
  }

  /** Cache, full map and last forwarded time belong together; t is the time of the newest rename. */
  ghost predicate Exact(c: Cache, last: map<Fingerprint, int>, m: Option<int>, window: nat, t: int) {
    match m
    case None => c == [] && last == map[]
    case Some(at) =>
      && at <= t && Keyed(c) && Sorted(c) && HoldsFrom(c, last, at - window)
      && forall k | k in last :: last[k] <= t
  }

  lemma ExactStep(c: Cache, last: map<Fingerprint, int>, m: Option<int>, window: nat, now: int, k: Fingerprint, t: int)
    requires Exact(c, last, m, window, now) && now <= t
    ensures Cached(c, window, k, t).1 == Remembered(last, window, k, t).1
    ensures var m' := if Cached(c, window, k, t).1 then Some(t) else m;
      Exact(Cached(c, window, k, t).0, Remembered(last, window, k, t).0, m', window, t)
  {
    hide Pruned, Put;
    if m.Some? {
      ExactAnswers(c, last, m.value, window, k, t);
    }
    if Cached(c, window, k, t).1 {
      forall e | e in c ensures e.value <= t {
        assert e.key in last;
      }
      RefreshedHolds(c, last, if m.Some? then m.value - window else t - window, k, t, window);
      PutSorted(c, k, t);
      PrunedMeaning(Put(c, k, t), t - window);
    }
  }

  /** The answers differ exactly for a fingerprint already pruned but still inside the window before t. */
  lemma ExactAnswers(c: Cache, last: map<Fingerprint, int>, m: int, window: nat, k: Fingerprint, t: int)
    requires Keyed(c) && HoldsFrom(c, last, m - window)
    ensures Cached(c, window, k, t).1 != Remembered(last, window, k, t).1 <==>
            k in last && t - window <= last[k] < m - window
  {
    hide Pruned, Put;
    if k in last {
      GetMeaning(c, k, last[k]);
    }
    if Get(c, k).Some? {
      GetMeaning(c, k, Get(c, k).value);
    }
  }

  lemma {:induction false} CacheExact(window: nat, s: seq<Seen>, t: int)
    requires InOrder(s) && (s != [] ==> s[|s| - 1].t <= t)
    ensures Exact(CacheAfter(window, s), MapAfter(window, s), LastForwarded(window, s), window, t)
  {
    if s != [] {
      hide Exact, Cached, Remembered;
      var n := |s| - 1;
      CacheExact(window, s[..n], s[n].t);
      ExactStep(CacheAfter(window, s[..n]), MapAfter(window, s[..n]), LastForwarded(window, s[..n]), window,
                s[n].t, s[n].k, s[n].t);
      ExactLater(CacheAfter(window, s), MapAfter(window, s), LastForwarded(window, s), window, s[n].t, t);
    }
  }

  lemma ExactLater(c: Cache, last: map<Fingerprint, int>, m: Option<int>, window: nat, now: int, t: int)
    requires Exact(c, last, m, window, now) && now <= t
    ensures Exact(c, last, m, window, t)
  {
  }

  /**
   A rename that arrives at any time t, however late, after a stream in order: the
   two answers differ exactly when its fingerprint was last forwarded at a time that
   is still inside the window before t but already outside the window before the
   last forwarded rename.
   */
  lemma LateAnswers(window: nat, s: seq<Seen>, k: Fingerprint, t: int)
    requires InOrder(s)
    ensures var last, m := MapAfter(window, s), LastForwarded(window, s);
      Passes(window, s + [Seen(k, t)], |s|) != PassesFull(window, s + [Seen(k, t)], |s|) <==>
      m.Some? && k in last && t - window <= last[k] < m.value - window
  {
    hide Cached, Remembered, HoldsFrom;
    assert (s + [Seen(k, t)])[..|s|] == s;
    CacheExact(window, s, if s == [] then t else s[|s| - 1].t);
    var c, last, m := CacheAfter(window, s), MapAfter(window, s), LastForwarded(window, s);
    if m.Some? {
      ExactAnswers(c, last, m.value, window, k, t);
    } else {
      NothingYet(window, k, t);
    }
  }

  lemma NothingYet(window: nat, k: Fingerprint, t: int)
    ensures Cached([], window, k, t).1 && Remembered(map[], window, k, t).1
  {
  }

  // ------------------------------------------------------------ the collector

  const RENAME_WINDOW: nat := 10000000

  function FingerprintOf(e: Event): Fingerprint {
    Fingerprint(e.tgid, e.uid, e.identifier)
  }

  function Trimmed(anc: Ancestry, bound: nat): Ancestry {
    if |anc| > bound then Trimmed(anc[1..], bound) else anc
  }

  function AncestryWith(f: Filter, anc: Ancestry, e: Event): Ancestry {
    if e.kind == Exec then Trimmed(Put(anc, e.tgid, e.ppid), f.maxTracked) else anc
  }

  function AncestryAfter(f: Filter, anc: Ancestry, e: Event): Ancestry {
    var a := AncestryWith(f, anc, e);
    if e.kind == Exit then Without(a, e.tgid) else a
  }

  predicate Repeated(c: Cache, e: Event) {
    e.kind == Rename && !Cached(c, RENAME_WINDOW, FingerprintOf(e), e.timestamp).1
  }

  class EBPFCollector {
    const filter: Filter
    const queueSize: int
    var recent: Cache
    var ancestry: Ancestry
    var queue: seq<Event>
    var dropped: nat

    /** Every event the filter let through, those lost to a full queue, and those handed to the consumer. */
    ghost var accepted: seq<Event>
    ghost var lost: seq<nat>
    ghost var taken: seq<Event>

    /** Nothing accepted is duplicated, reordered or lost except the drops that are counted. */
    ghost predicate Valid()
      reads this
    {
      && Keyed(ancestry) && |ancestry| <= filter.maxTracked
      && (queueSize > 0 ==> |queue| <= queueSize)
      && dropped == |lost| && Skips(|accepted|, lost)
      && taken + queue == Skipping(accepted, lost)
    }

    constructor (filter: Filter, queueSize: int)
      ensures Valid() && this.filter == filter && this.queueSize == queueSize
      ensures recent == [] && ancestry == [] && queue == [] && dropped == 0
    {
      this.filter, this.queueSize := filter, queueSize;
      recent, ancestry, queue, dropped := [], [], [], 0;
      accepted, lost, taken := [], [], [];
    }

    /** The rename cache: refresh the fingerprint, then drop from the old end. */
    method Suppress(e: Event) returns (again: bool)
      requires e.kind == Rename
      modifies this`recent
      ensures again == Repeated(old(recent), e)
      ensures recent == Cached(old(recent), RENAME_WINDOW, FingerprintOf(e), e.timestamp).0
    {
      var k := FingerprintOf(e);
      var previous := Get(recent, k);
      if previous.Some? && e.timestamp - previous.value <= RENAME_WINDOW {
        return true;
      }
      recent := Put(recent, k, e.timestamp);
      var cutoff := e.timestamp - RENAME_WINDOW;
      while recent != [] && recent[0].value < cutoff
        invariant Pruned(recent, cutoff) == Pruned(Put(old(recent), k, e.timestamp), cutoff)
        decreases |recent|
      {
        recent := recent[1..];
      }
      return false;
    }

    method Track(e: Event)
      requires e.kind == Exec && Keyed(ancestry)
      modifies this`ancestry
      ensures ancestry == AncestryWith(filter, old(ancestry), e) && Keyed(ancestry) && |ancestry| <= filter.maxTracked
    {
      PutKeyed(ancestry, e.tgid, e.ppid);
      ancestry := Put(ancestry, e.tgid, e.ppid);
      while |ancestry| > filter.maxTracked
        invariant Keyed(ancestry)
        invariant Trimmed(ancestry, filter.maxTracked) == AncestryWith(filter, old(ancestry), e)
        decreases |ancestry|
      {
        ancestry := ancestry[1..];
      }
    }

    method Enqueue(e: Event) returns (ok: bool)
      requires Valid()
      modifies this`queue, this`dropped, this`accepted, this`lost
      ensures Valid() && accepted == old(accepted) + [e]
      ensures ok == (queueSize <= 0 || |old(queue)| < queueSize)
      ensures ok ==> queue == old(queue) + [e] && dropped == old(dropped)
      ensures !ok ==> queue == old(queue) && dropped == old(dropped) + 1
    {
      SkippingSnoc(accepted, lost, e);
      accepted := accepted + [e];
      if queueSize <= 0 || |queue| < queueSize {
        queue := queue + [e];
        return true;
      }
      lost := lost + [|accepted| - 1];
      dropped := dropped + 1;
      return false;
    }

    /**
     One decoded event: a repeated rename stops first, then the ancestry is updated
     and consulted, then the queue takes the event or the drop is counted.
     */
    method PublishEvent(e: Event) returns (ok: bool)
      requires Valid()
      modifies this`recent, this`ancestry, this`queue, this`dropped, this`accepted, this`lost
      ensures Valid()
      ensures e.kind != Rename ==> recent == old(recent)
      ensures e.kind == Rename ==> recent == Cached(old(recent), RENAME_WINDOW, FingerprintOf(e), e.timestamp).0
      ensures ancestry == if Repeated(old(recent), e) then old(ancestry) else AncestryAfter(filter, old(ancestry), e)
      ensures ok <==> !Repeated(old(recent), e) && Wanted(filter, e, AncestryWith(filter, old(ancestry), e))
                      && (queueSize <= 0 || |old(queue)| < queueSize)
      ensures queue == if ok then old(queue) + [e] else old(queue)
      ensures accepted == if !Repeated(old(recent), e) && Wanted(filter, e, AncestryWith(filter, old(ancestry), e))
                          then old(accepted) + [e] else old(accepted)
      ensures dropped == old(dropped) + |accepted| - |old(accepted)| - |queue| + |old(queue)|
    {
      hide Cached, Wanted, Keyed, Skips, Skipping, Trimmed, Put;
      if e.kind == Rename {
        var again := Suppress(e);
        if again {
          SuppressedSame(old(recent), e);
          return false;
        }
      }
      if e.kind == Exec {
        Track(e);
      }
      var wanted := Accepts(filter, e, ancestry);
      if e.kind == Exit {
        WithoutMeaning(ancestry, e.tgid);
        ancestry := Without(ancestry, e.tgid);
      }
      if !wanted {
        return false;
      }
      ok := Enqueue(e);
    }

    method GetEvent() returns (r: Option<Event>)
      requires Valid()
      modifies this`queue, this`taken
      ensures Valid()
      ensures old(queue) == [] ==> r == None && queue == [] && taken == old(taken)
      ensures old(queue) != [] ==> r == Some(old(queue)[0]) && queue == old(queue)[1..]
      ensures old(queue) != [] ==> taken == old(taken) + [old(queue)[0]]
    {
      if queue == [] {
        return None;
      }
      r := Some(queue[0]);
      assert taken + [queue[0]] + queue[1..] == taken + queue;
      taken := taken + [queue[0]];
      queue := queue[1..];
    }
  }

  lemma SuppressedSame(c: Cache, e: Event)
    requires Repeated(c, e)
    ensures Cached(c, RENAME_WINDOW, FingerprintOf(e), e.timestamp).0 == c
  {
  }

  /** Rising positions inside a sequence. */
  predicate Skips(n: nat, gaps: seq<nat>) {
    && (forall i, j | 0 <= i < j < |gaps| :: gaps[i] < gaps[j])
    && (forall i | 0 <= i < |gaps| :: gaps[i] < n)
  }

  /** The sequence without the elements at the given positions. */
  function Skipping<T>(s: seq<T>, gaps: seq<nat>): seq<T> {
    if s == [] then []
    else
      var n := |s| - 1;
      if n in gaps then Skipping(s[..n], gaps) else Skipping(s[..n], gaps) + [s[n]]
  }

  lemma {:induction false} SkippingLocal<T>(s: seq<T>, gaps: seq<nat>, g: nat)
    requires g >= |s|
    ensures Skipping(s, gaps + [g]) == Skipping(s, gaps)
  {
    if s != [] {
      SkippingLocal(s[..|s| - 1], gaps, g);
    }
  }

  lemma SkippingSnoc<T>(s: seq<T>, gaps: seq<nat>, x: T)
    requires Skips(|s|, gaps)
    ensures Skips(|s| + 1, gaps) && Skipping(s + [x], gaps) == Skipping(s, gaps) + [x]
    ensures Skips(|s| + 1, gaps + [|s|]) && Skipping(s + [x], gaps + [|s|]) == Skipping(s, gaps)
  {
    assert (s + [x])[..|s|] == s;
    SkippingLocal(s, gaps, |s|);
  }

  // ------------------------------------------------------------ pruned ancestry

  /** The pruned ancestry tells no lies about the parents recorded so far. */
  predicate Agrees(anc: Ancestry, parents: map<int, int>) {
    Keyed(anc) && forall e | e in anc :: e.key in parents && parents[e.key] == e.value
  }

  function ParentsAfter(parents: map<int, int>, e: Event): map<int, int> {
    if e.kind == Exec then parents[e.tgid := e.ppid] else if e.kind == Exit then parents - {e.tgid} else parents
  }

  lemma {:induction false} TrimmedPart(anc: Ancestry, bound: nat)
    requires Keyed(anc)
    ensures Keyed(Trimmed(anc, bound)) && forall e | e in Trimmed(anc, bound) :: e in anc
    ensures |Trimmed(anc, bound)| <= bound
    decreases |anc|
  {
    if |anc| > bound {
      TrimmedPart(anc[1..], bound);
    }
  }

  lemma {:induction false} TrimmedSuffix(anc: Ancestry, bound: nat)
    ensures Trimmed(anc, bound) == anc[|anc| - Min(|anc|, bound)..]
    decreases |anc|
  {
    if |anc| > bound {
      TrimmedSuffix(anc[1..], bound);
    }
  }

  /** An execution stands last, over the newest of the others that fit; an exit removes its own entry alone. */
  lemma AncestryMeaning(f: Filter, anc: Ancestry, e: Event)
    requires Keyed(anc)
    ensures var after, others := AncestryAfter(f, anc, e), Without(anc, e.tgid);
      && (e.kind == Exec && f.maxTracked > 0 ==>
            after == others[|others| - Min(|others|, f.maxTracked - 1)..] + [Entry(e.tgid, e.ppid)])
      && (e.kind == Exec && f.maxTracked == 0 ==> after == [])
      && (e.kind == Exit ==> forall x :: x in after <==> x in anc && x.key != e.tgid)
      && (e.kind != Exec && e.kind != Exit ==> after == anc)
  {
    hide Without, Trimmed;
    TrimmedSuffix(Put(anc, e.tgid, e.ppid), f.maxTracked);
    WithoutMeaning(anc, e.tgid);
  }

  lemma AgreesOn(f: Filter, anc: Ancestry, parents: map<int, int>, e: Event)
    requires Agrees(anc, parents)
    ensures Agrees(AncestryAfter(f, anc, e), ParentsAfter(parents, e))
  {
    hide Put, Without, Trimmed;
    PutKeyed(anc, e.tgid, e.ppid);
    TrimmedPart(Put(anc, e.tgid, e.ppid), f.maxTracked);
    WithoutMeaning(anc, e.tgid);
  }

  function FullAncestor(parents: map<int, int>, start: int, n: nat): int {
    if n == 0 then start
    else
      var c := FullAncestor(parents, start, n - 1);
      if c in parents then parents[c] else 0
  }

  lemma {:induction false} SameAncestors(anc: Ancestry, parents: map<int, int>, start: int, n: nat)
    requires Agrees(anc, parents) && Positive(anc, start, n)
    ensures Ancestor(anc, start, n) == FullAncestor(parents, start, n)
  {
    if n > 0 {
      SameAncestors(anc, parents, start, n - 1);
      var c := Ancestor(anc, start, n - 1);
      assert Ancestor(anc, start, n) > 0;
      GetMeaning(anc, c, Ancestor(anc, start, n));
    }
  }

  /** Pruning never makes the filter see a descent that the full parent map does not have. */
  lemma NoFalseDescent(anc: Ancestry, parents: map<int, int>, start: int, monitored: set<int>)
    requires Agrees(anc, parents) && Descends(anc, start, monitored)
    ensures exists n: nat :: FullAncestor(parents, start, n) in monitored &&
                        forall m: nat | m <= n :: FullAncestor(parents, start, m) > 0
  {
    var n: nat :| Positive(anc, start, n) && Ancestor(anc, start, n) in monitored;
    forall m: nat | m <= n ensures FullAncestor(parents, start, m) > 0 {
      SameAncestors(anc, parents, start, m);
      assert Ancestor(anc, start, m) > 0;
    }
    SameAncestors(anc, parents, start, n);
  }
}

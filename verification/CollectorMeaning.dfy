/** Which renames the collector suppresses, said of the events alone. */
module CollectorMeaning {
  import opened Common
  import opened OrderedMaps
  import opened Collector

  /** Two renames of one process, user and file name. */
  predicate SameRename(a: Event, b: Event) {
    a.kind == b.kind == Rename && a.tgid == b.tgid && a.uid == b.uid && a.identifier == b.identifier
  }

  function Stream(es: seq<Event>): seq<Seen> {
    seq(|es|, i requires 0 <= i < |es| => Seen(FingerprintOf(es[i]), es[i].timestamp))
  }

  /** The rename at position i is not suppressed after the renames before it. */
  predicate GoesOn(es: seq<Event>, i: nat)
    requires i < |es|
  {
    !Repeated(CacheAfter(RENAME_WINDOW, Stream(es[..i])), es[i])
  }

  predicate InTime(es: seq<Event>) {
    && (forall i | 0 <= i < |es| :: es[i].kind == Rename)
    && forall i, j | 0 <= i < j < |es| :: es[i].timestamp <= es[j].timestamp
  }

  /** What the full map remembers of a fingerprint is the time of a rename that went on. */
  lemma {:induction false} Remembers(window: nat, s: seq<Seen>, k: Fingerprint)
    requires k in MapAfter(window, s)
    ensures exists j | 0 <= j < |s| :: s[j].k == k && s[j].t == MapAfter(window, s)[k] && PassesFull(window, s, j)
  {
    if s != [] {
      var n := |s| - 1;
      if PassesFull(window, s, n) && s[n].k == k {
        assert MapAfter(window, s)[k] == s[n].t;
      } else {
        assert k in MapAfter(window, s[..n]) && MapAfter(window, s)[k] == MapAfter(window, s[..n])[k];
        Remembers(window, s[..n], k);
        var j :| 0 <= j < n && s[..n][j].k == k
                 && s[..n][j].t == MapAfter(window, s[..n])[k] && PassesFull(window, s[..n], j);
        assert s[..n][..j] == s[..j];
        assert PassesFull(window, s, j);
      }
    }
  }

  lemma PassesExactly(window: nat, s: seq<Seen>, n: nat)
    requires InOrder(s) && n < |s|
    ensures !Passes(window, s, n) <==>
            exists j | 0 <= j < n :: s[j].k == s[n].k && Passes(window, s, j) && s[n].t - s[j].t <= window
  {
    hide Cached, CacheAfter, MapAfter;
    SameAnswers(window, s, n);
    var last, k := MapAfter(window, s[..n]), s[n].k;
    if !Passes(window, s, n) {
      Remembers(window, s[..n], k);
      var j :| 0 <= j < n && s[..n][j].k == k && s[..n][j].t == last[k] && PassesFull(window, s[..n], j);
      assert s[..n][..j] == s[..j];
      SameAnswers(window, s, j);
      assert s[j].k == k && Passes(window, s, j) && s[n].t - s[j].t <= window;
    }
    forall j | 0 <= j < n && s[j].k == k && Passes(window, s, j) && s[n].t - s[j].t <= window
      ensures !Passes(window, s, n)
    {
      SameAnswers(window, s, j);
      assert s[..n][..j] == s[..j];
      LastPass(window, s[..n], j);
    }
  }

  lemma GoesOnIs(es: seq<Event>, i: nat)
    requires InTime(es) && i < |es|
    ensures GoesOn(es, i) <==> Passes(RENAME_WINDOW, Stream(es), i)
  {
    hide CacheAfter, Cached;
    assert Stream(es)[..i] == Stream(es[..i]);
  }

  lemma SameIs(a: Event, b: Event)
    requires a.kind == b.kind == Rename
    ensures SameRename(a, b) <==> FingerprintOf(a) == FingerprintOf(b)
  {
  }

  /**
   Of renames in time order, one is suppressed exactly when one of the same process,
   user and name went on at most ten milliseconds before it.
   */
  lemma SuppressedExactly(es: seq<Event>, n: nat)
    requires InTime(es) && n < |es|
    ensures !GoesOn(es, n) <==>
            exists j | 0 <= j < n ::
              SameRename(es[j], es[n]) && GoesOn(es, j) && es[n].timestamp - es[j].timestamp <= 10_000_000
  {
    hide GoesOn, Passes, FingerprintOf, SameRename;
    var s := Stream(es);
    GoesOnIs(es, n);
    PassesExactly(RENAME_WINDOW, s, n);
    forall j | 0 <= j < n
      ensures (s[j].k == s[n].k <==> SameRename(es[j], es[n])) && (Passes(RENAME_WINDOW, s, j) <==> GoesOn(es, j))
    {
      GoesOnIs(es, j);
      SameIs(es[j], es[n]);
    }
  }
}

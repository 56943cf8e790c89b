/**
 The six-digit segment name. What a rotation does at every index, that a run gets to
 the last one, and what becomes of the log from there on.
 */
module AuditOverflow {
  import opened Common
  import opened AuditText
  import opened AuditRecords
  import opened AuditTamper
  import opened AuditLogger
  import opened AuditRuns
  import opened AuditTraps

  // ------------------------------------------------------------ one rotation, at any index

  function NextIndex(d: Dir): nat {
    MaxIndex(d.rotated) + 1
  }

  /** The segments the listing could show after the rotation, before pruning. */
  function Shown(d: Dir): seq<Segment> {
    if NextIndex(d) < INDEX_LIMIT then d.rotated + [Segment(NextIndex(d), ActiveBytes(d))] else d.rotated
  }

  /** How many of them pruning removes. */
  function PrunedCount(cfg: Config, d: Dir): nat {
    |Shown(d)| - Min(cfg.backupCount, |Shown(d)|)
  }

  lemma SortedTight(r: seq<Segment>, top: nat)
    requires Sorted(r, top)
    ensures Sorted(r, MaxIndex(r))
  {
    TopIndex(r, top);
  }

  lemma {:induction false} VisibleBut(r: seq<Segment>, top: nat, hidden: Segment)
    requires Sorted(r, top) && top < INDEX_LIMIT <= hidden.index
    ensures Visible(r + [hidden]) == r
  {
    AllVisible(r, top);
    assert (r + [hidden])[..|r|] == r;
  }

  /** Pruning does not count a hidden segment, and keeps it. */
  lemma {:induction false} PruneBeside(r: seq<Segment>, keep: nat, top: nat, hidden: Segment)
    requires Sorted(r, top) && top < INDEX_LIMIT <= hidden.index
    ensures Prune(r + [hidden], keep) == (r + [hidden])[|r| - Min(keep, |r|)..]
    decreases |r|
  {
    hide MaxIndex, Visible, Prune;
    VisibleBut(r, top, hidden);
    if |r| > keep {
      assert (r + [hidden])[1..] == r[1..] + [hidden];
      SortedFrom(r, top, 1);
      PruneBeside(r[1..], keep, top, hidden);
      PruneDrops(r + [hidden], keep);
      DropDrop(r + [hidden], keep + 1);
    } else {
      PruneStays(r + [hidden], keep);
    }
  }

  /** The pruned segments and what the listing shows of them. */
  lemma PrunedAnywhere(cfg: Config, d: Dir, top: nat, s: Segment)
    requires Sorted(d.rotated, top) && top < INDEX_LIMIT && s == Segment(NextIndex(d), s.data) && s.data != []
    requires s.data == ActiveBytes(d)
    ensures Put(d.rotated, s) == d.rotated + [s]
    ensures Prune(d.rotated + [s], cfg.backupCount) == (d.rotated + [s])[PrunedCount(cfg, d)..]
    ensures Visible((d.rotated + [s])[PrunedCount(cfg, d)..]) == Shown(d)[PrunedCount(cfg, d)..]
  {
    hide MaxIndex, Prune, Visible, Put;
    SortedTight(d.rotated, top);
    SortedSnoc(d.rotated, MaxIndex(d.rotated), s);
    TopIndex(d.rotated, top);
    var k := PrunedCount(cfg, d);
    if NextIndex(d) < INDEX_LIMIT {
      PruneCount(d.rotated + [s], cfg.backupCount, NextIndex(d));
      SortedFrom(d.rotated + [s], NextIndex(d), k);
      AllVisible((d.rotated + [s])[k..], NextIndex(d));
    } else {
      PruneBeside(d.rotated, cfg.backupCount, top, s);
      assert (d.rotated + [s])[k..] == d.rotated[k..] + [s];
      SortedFrom(d.rotated, top, k);
      VisibleBut(d.rotated[k..], top, s);
    }
  }

  /** Rotation at any index and with any number of segments kept: what is on disk afterwards, and what is listed. */
  lemma RotateAnywhere(cfg: Config, d: Dir, top: nat)
    requires Sorted(d.rotated, top) && top < INDEX_LIMIT && ActiveBytes(d) != []
    ensures var all := d.rotated + [Segment(NextIndex(d), ActiveBytes(d))];
      RotateStep(cfg, d) == Dir(all[PrunedCount(cfg, d)..], None, d.corrupt)
    ensures Listed(RotateStep(cfg, d)) == Datas(Shown(d))[PrunedCount(cfg, d)..]
  {
    hide MaxIndex, Prune, Visible, Put, RotateStep, Sorted, Datas;
    var s := Segment(NextIndex(d), ActiveBytes(d));
    AllVisible(d.rotated, top);
    PrunedAnywhere(cfg, d, top, s);
    RotateIs(cfg, d, s, d.rotated + [s]);
    DatasFrom(Shown(d), PrunedCount(cfg, d));
  }

  /**
   The six-digit name, for every directory: below index 1000000 the listing keeps the
   active segment and loses only what pruning removes; at index 1000000 it loses the
   active segment as well, while pruning counts one segment too few.
   */
  lemma IndexOverflow(cfg: Config, d: Dir, top: nat)
    requires Sorted(d.rotated, top) && top < INDEX_LIMIT && ActiveBytes(d) != []
    ensures |Listed(d)| == |d.rotated| + 1
    ensures var n := |d.rotated|;
      Listed(RotateStep(cfg, d)) ==
      if NextIndex(d) < 1000000 then Listed(d)[n + 1 - Min(cfg.backupCount, n + 1)..]
      else Listed(d)[..n][n - Min(cfg.backupCount, n)..]
    ensures |RotateStep(cfg, d).rotated| ==
      if NextIndex(d) < 1000000 then Min(cfg.backupCount, |d.rotated| + 1)
      else Min(cfg.backupCount, |d.rotated|) + 1
  {
    hide MaxIndex, RotateStep, Datas, Visible;
    RotateAnywhere(cfg, d, top);
    ListedAll(d, top);
    DatasSnoc(d.rotated, Segment(NextIndex(d), ActiveBytes(d)));
    DatasSize(d.rotated);
    assert Listed(d)[..|d.rotated|] == Datas(d.rotated);
  }

  // ------------------------------------------------------------ a run gets there

  /** The history of one writer that records the same fields n times. */
  function Chain(env: Env, f: Fields, n: nat): seq<Record> {
    if n == 0 then [] else Chain(env, f, n - 1) + [NextEntry(env, Chain(env, f, n - 1), f)]
  }

  /** Each of these records fits the configured size. */
  ghost predicate ChainFits(env: Env, cfg: Config, f: Fields, n: nat) {
    forall k: nat | k < n :: |Line(env.dumps(NextEntry(env, Chain(env, f, k), f)))| <= cfg.maxRecordBytes
  }

  /** Open an empty directory, then n times record and rotate. */
  function Rounds(f: Fields, n: nat): seq<Step> {
    if n == 0 then [DoOpen(0, 0)] else Rounds(f, n - 1) + [DoRecord(0, f)] + [DoRotate(0)]
  }

  ghost predicate AtRound(env: Env, cfg: Config, f: Fields, w: World, n: nat) {
    && Inv(env, cfg, w) && 0 in w.mems && w.hist == Chain(env, f, n) && w.rotations == n
    && w.dir.active == None && |w.dir.rotated| == Min(n, cfg.backupCount) && MaxIndex(w.dir.rotated) == n
  }

  lemma RunNext(env: Env, cfg: Config, steps: seq<Step>, step: Step)
    ensures Run(env, cfg, steps + [step]) == Apply(env, cfg, Run(env, cfg, steps), step)
  {
    assert (steps + [step])[..|steps + [step]| - 1] == steps;
  }

  lemma StartsEmpty(env: Env, cfg: Config, f: Fields)
    ensures Run(env, cfg, []) == World(EMPTY, map[], [], 0, 0) && MaxIndex([]) == 0
    ensures Chain(env, f, 0) == [] && Rounds(f, 0) == [DoOpen(0, 0)]
  {
  }

  lemma FirstOpen(env: Env, cfg: Config, f: Fields, w: World)
    requires Sound(env) && cfg.backupCount >= 1 && w == World(EMPTY, map[], [], 0, 0)
    ensures AtRound(env, cfg, f, Apply(env, cfg, w, DoOpen(0, 0)), 0)
  {
    hide Inv, ReportOf, Listed, Repaired, ReportTells, MaxIndex, Sound, Run, Rounds, Chain, NextEntry;
    StartsOk(env, cfg);
    StartsEmpty(env, cfg, f);
    ReportOfInv(env, cfg, w);
    OpenKeeps(env, cfg, w, 0, 0);
  }

  lemma Opened(env: Env, cfg: Config, f: Fields)
    requires Sound(env) && cfg.backupCount >= 1
    ensures AtRound(env, cfg, f, Run(env, cfg, Rounds(f, 0)), 0)
  {
    hide *;
    StartsEmpty(env, cfg, f);
    assert [] + [DoOpen(0, 0)] == Rounds(f, 0);
    RunNext(env, cfg, [], DoOpen(0, 0));
    FirstOpen(env, cfg, f, Run(env, cfg, []));
  }

  /** A record into a directory without an active segment. */
  lemma RecordFirst(env: Env, cfg: Config, w: World, f: Fields)
    requires Sound(env) && Inv(env, cfg, w) && cfg.backupCount >= 1 && cfg.maxRecordBytes <= WINDOW
    requires 0 in w.mems && w.dir.active == None
    requires |Line(env.dumps(NextEntry(env, w.hist, f)))| <= cfg.maxRecordBytes
    ensures var e := NextEntry(env, w.hist, f);
      var v := Apply(env, cfg, w, DoRecord(0, f));
      && Inv(env, cfg, v) && 0 in v.mems && v.hist == w.hist + [e] && v.rotations == w.rotations
      && v.dir == w.dir.(active := Some(Line(env.dumps(e))))
  {
    hide Inv, Plan, NextEntry, Sound, Line, HistoryOk, DirOk;
    var e := NextEntry(env, w.hist, f);
    var line := Line(env.dumps(e));
    PlanFollows(env, cfg, w, w.mems[0], f);
    BelowLimit(env, cfg, w);
    assert [] + line[..|line|] == line;
    StepKeeps(env, cfg, w, DoRecord(0, f));
  }

  lemma BelowLimit(env: Env, cfg: Config, w: World)
    requires Inv(env, cfg, w)
    ensures w.rotations < INDEX_LIMIT
  {
  }

  /** A rotation of a non-empty active segment below the last index. */
  lemma RotateNext(env: Env, cfg: Config, w: World)
    requires Sound(env) && Inv(env, cfg, w) && cfg.backupCount >= 1 && cfg.maxRecordBytes <= WINDOW
    requires 0 in w.mems && ActiveBytes(w.dir) != [] && w.rotations + 1 < INDEX_LIMIT
    ensures var v := Apply(env, cfg, w, DoRotate(0));
      && Inv(env, cfg, v) && 0 in v.mems && v.hist == w.hist && v.rotations == w.rotations + 1 && v.dir.active == None
      && |v.dir.rotated| == Min(|w.dir.rotated| + 1, cfg.backupCount)
      && MaxIndex(v.dir.rotated) == MaxIndex(w.dir.rotated) + 1
  {
    hide HistoryOk, DatasOk, RotateStep, MaxIndex, Sorted;
    StepKeeps(env, cfg, w, DoRotate(0));
    RotateInFull(cfg, w.dir);
    var s := Segment(MaxIndex(w.dir.rotated) + 1, w.dir.active.value);
    RotateShape(cfg, w.dir, w.rotations, s);
    var all, k := w.dir.rotated + [s], Surplus(cfg, |w.dir.rotated|);
    SortedFrom(all, w.rotations + 1, k);
    LastIndex(all[k..], w.rotations + 1);
  }

  lemma LastIndex(r: seq<Segment>, top: nat)
    requires Sorted(r, top) && r != []
    ensures MaxIndex(r) == r[|r| - 1].index
  {
    TopIndex(r[..|r| - 1], top);
    TopIndex(r, top);
    if |r| > 1 {
      MaxIndexFound(r[..|r| - 1]);
    }
  }

  lemma {:induction false} MaxIndexFound(r: seq<Segment>)
    requires r != [] && forall i | 0 <= i < |r| :: r[i].index >= 1
    ensures exists i | 0 <= i < |r| :: r[i].index == MaxIndex(r)
  {
    var n := |r| - 1;
    if n > 0 && MaxIndex(r) != r[n].index {
      MaxIndexFound(r[..n]);
      var i :| 0 <= i < n && r[..n][i].index == MaxIndex(r[..n]);
      assert r[i].index == MaxIndex(r);
    } else {
      assert n == 0 ==> MaxIndex(r[..0]) == 0;
      assert r[n].index == MaxIndex(r);
    }
  }

  /** One round more. */
  lemma RoundNext(env: Env, cfg: Config, f: Fields, w: World, n: nat)
    requires Sound(env) && cfg.backupCount >= 1 && cfg.maxRecordBytes <= WINDOW
    requires n + 1 < INDEX_LIMIT && AtRound(env, cfg, f, w, n)
    requires |Line(env.dumps(NextEntry(env, Chain(env, f, n), f)))| <= cfg.maxRecordBytes
    ensures AtRound(env, cfg, f, Apply(env, cfg, Apply(env, cfg, w, DoRecord(0, f)), DoRotate(0)), n + 1)
  {
    hide Inv, Apply, MaxIndex, Sound, NextEntry;
    RecordFirst(env, cfg, w, f);
    RotateNext(env, cfg, Apply(env, cfg, w, DoRecord(0, f)));
  }

  lemma RoundsStep(env: Env, cfg: Config, f: Fields, n: nat)
    ensures Run(env, cfg, Rounds(f, n + 1)) ==
            Apply(env, cfg, Apply(env, cfg, Run(env, cfg, Rounds(f, n)), DoRecord(0, f)), DoRotate(0))
  {
    hide Run, Apply;
    RunNext(env, cfg, Rounds(f, n), DoRecord(0, f));
    RunNext(env, cfg, Rounds(f, n) + [DoRecord(0, f)], DoRotate(0));
  }

  lemma {:induction false} RoundsReach(env: Env, cfg: Config, f: Fields, n: nat)
    requires Sound(env) && cfg.backupCount >= 1 && cfg.maxRecordBytes <= WINDOW
    requires n < INDEX_LIMIT && ChainFits(env, cfg, f, n)
    ensures AtRound(env, cfg, f, Run(env, cfg, Rounds(f, n)), n)
  {
    hide AtRound, Run, Apply, Rounds, Chain, Sound, NextEntry;
    if n == 0 {
      Opened(env, cfg, f);
    } else {
      RoundsReach(env, cfg, f, n - 1);
      RoundsStep(env, cfg, f, n - 1);
      RoundNext(env, cfg, f, Run(env, cfg, Rounds(f, n - 1)), n - 1);
    }
  }

  /** A million records and rotations of one writer end just before the overflowing rotation. */
  lemma OverflowReached(env: Env, cfg: Config, f: Fields)
    requires Sound(env) && cfg.backupCount >= 1 && cfg.maxRecordBytes <= WINDOW && ChainFits(env, cfg, f, INDEX_LIMIT)
    ensures var w := Run(env, cfg, Rounds(f, INDEX_LIMIT - 1) + [DoRecord(0, f)]);
      && Inv(env, cfg, w) && NextIndex(w.dir) == INDEX_LIMIT && ActiveBytes(w.dir) != []
      && |w.dir.rotated| == Min(INDEX_LIMIT - 1, cfg.backupCount)
  {
    hide Inv, Run, Apply, MaxIndex, Sound, NextEntry, Rounds, Chain;
    RoundsReach(env, cfg, f, INDEX_LIMIT - 1);
    RunNext(env, cfg, Rounds(f, INDEX_LIMIT - 1), DoRecord(0, f));
    RecordFirst(env, cfg, Run(env, cfg, Rounds(f, INDEX_LIMIT - 1)), f);
  }

  // ------------------------------------------------------------ what becomes of the log

  /** The records in the active segment. */
  function ActiveLogged(env: Env, d: Dir): seq<Record> {
    Decode(env, ActiveBytes(d))
  }

  lemma HistoryPrefix(env: Env, cfg: Config, hist: seq<Record>, k: nat)
    requires HistoryOk(env, cfg, hist) && k <= |hist|
    ensures HistoryOk(env, cfg, hist[..k])
  {
    AcceptedPrefix(env, hist, k);
    forall i | 0 <= i < k ensures Numbered(env, cfg, hist[..k][i], i) {
      assert Numbered(env, cfg, hist[i], i);
    }
  }

  /** Dropping the last segment of a listing, when there is another one. */
  lemma DropLast(env: Env, bound: int, head: seq<Bytes>, last: Bytes, lost: seq<Record>, hist: seq<Record>)
    requires DatasOk(env, bound, head + [last], hist) && head != [] && head[|head| - 1] != []
    requires LogOf(env, head + [last]) == LogOf(env, head) + lost && lost != []
    ensures 0 < |lost| < |hist|
    ensures DatasOk(env, bound, head, hist[..|hist| - |lost|])
  {
    hide Decode, Canonical, LogOf;
    var all := head + [last];
    assert forall i | 0 <= i < |head| :: head[i] == all[i];
    assert Canonical(env, all[|head| - 1]);
    NonEmptyDecodes(env, head[|head| - 1]);
    LogNonEmpty(env, head, head[|head| - 1]);
    SuffixSplit(LogOf(env, head), lost, hist);
  }

  /** The listing without the active segment holds the end of the history without the active records. */
  lemma WithoutActive(env: Env, bound: int, d: Dir, top: nat, hist: seq<Record>)
    requires Sound(env) && Sorted(d.rotated, top) && top < INDEX_LIMIT && d.rotated != [] && ActiveBytes(d) != []
    requires DatasOk(env, bound, Listed(d), hist)
    ensures 0 < |ActiveLogged(env, d)| < |hist|
    ensures DatasOk(env, bound, Datas(d.rotated), hist[..|hist| - |ActiveLogged(env, d)|])
  {
    hide Decode, Canonical, Sound, MaxIndex, DatasOk, LogOf, Visible, Listed;
    var head, a := Datas(d.rotated), ActiveBytes(d);
    ListedAll(d, top);
    LogSnoc(env, head, a);
    ActiveIsCanonical(env, bound, head, a, hist);
    NonEmptyDecodes(env, a);
    assert head[|head| - 1] == d.rotated[|head| - 1].data;
    DropLast(env, bound, head, a, Decode(env, a), hist);
  }

  lemma LogSnoc(env: Env, head: seq<Bytes>, a: Bytes)
    ensures LogOf(env, head + [a]) == LogOf(env, head) + Decode(env, a)
  {
    hide LogOf, Decode;
    LogOfConcat(env, head, [a]);
    LogOfOne(env, a);
  }

  lemma ActiveIsCanonical(env: Env, bound: int, head: seq<Bytes>, a: Bytes, hist: seq<Record>)
    requires DatasOk(env, bound, head + [a], hist)
    ensures Canonical(env, a)
  {
    hide Canonical, LogOf;
    assert (head + [a])[|head|] == a;
  }

  lemma NonEmptyDecodes(env: Env, data: Bytes)
    ensures Canonical(env, data) && data != [] ==> Decode(env, data) != []
  {
  }

  lemma SuffixSplit<T>(a: seq<T>, b: seq<T>, c: seq<T>)
    requires IsSuffix(a + b, c)
    ensures |b| <= |c| && IsSuffix(a, c[..|c| - |b|])
  {
    var n := |c| - |a| - |b|;
    assert c[n..] == a + b;
    assert c[..|c| - |b|][n..] == a;
  }

  /**
   The overflowing rotation loses every record of the active segment without a trace:
   the verifier still accepts the log and describes the shorter history, and the
   next record of any instance takes a sequence number that was already used.
   */
  lemma OverflowIsSilent(env: Env, cfg: Config, w: World, m: Mem, f: Fields)
    requires Sound(env) && Inv(env, cfg, w) && cfg.maxRecordBytes <= WINDOW && cfg.backupCount >= 1
    requires NextIndex(w.dir) == INDEX_LIMIT && ActiveBytes(w.dir) != []
    ensures 0 < |ActiveLogged(env, w.dir)| < |w.hist|
    ensures var d := RotateStep(cfg, w.dir);
      var short := w.hist[..|w.hist| - |ActiveLogged(env, w.dir)|];
      && Listed(d) == Datas(w.dir.rotated)[PrunedCount(cfg, w.dir)..]
      && ReportOf(env, Listed(d)).valid
      && ReportTells(env, ReportOf(env, Listed(d)), Logged(env, Listed(d)), short)
      && Plan(env, cfg, d, m, f) == if |Line(env.dumps(NextEntry(env, short, f)))| > cfg.maxRecordBytes
                                    then Err(RecordTooLarge) else Ok((TailOf(short), NextEntry(env, short, f)))
  {
    hide HistoryOk, DatasOk, Sound, ReportOf, ReportTells, Plan, NextEntry, TailOf, RotateStep, ActiveLogged, MaxIndex;
    var k := |w.hist| - |ActiveLogged(env, w.dir)|;
    var d := RotateStep(cfg, w.dir);
    RotateAnywhere(cfg, w.dir, w.rotations);
    TopNotEmpty(w.dir);
    WithoutActive(env, SegmentBound(cfg), w.dir, w.rotations, w.hist);
    HistoryPrefix(env, cfg, w.hist, k);
    TopData(w.dir, w.rotations);
    DropManyKeep(env, SegmentBound(cfg), Datas(w.dir.rotated), w.hist[..k], PrunedCount(cfg, w.dir));
    ReportOfDatas(env, cfg, SegmentBound(cfg), Listed(d), w.hist[..k]);
    LastLogged(env, cfg, SegmentBound(cfg), Listed(d), w.hist[..k]);
    PlanFrom(env, cfg, SegmentBound(cfg), d, w.hist[..k], m, f);
  }

  lemma TopData(d: Dir, top: nat)
    requires Sorted(d.rotated, top) && d.rotated != []
    ensures |Datas(d.rotated)| == |d.rotated| && Datas(d.rotated)[|d.rotated| - 1] != []
  {
  }

  lemma TopNotEmpty(d: Dir)
    requires NextIndex(d) == INDEX_LIMIT
    ensures d.rotated != []
  {
  }

  /**
   Every later rotation picks index 1000000 again and replaces the hidden segment, so
   the records lost to the listing are then lost on disk.
   */
  lemma OverflowOverwrites(cfg: Config, shown: seq<Segment>, hidden: Segment, active: Bytes, corrupt: seq<Artifact>)
    requires Sorted(shown, INDEX_LIMIT - 1) && MaxIndex(shown) == INDEX_LIMIT - 1 && |shown| <= cfg.backupCount
    requires hidden.index == INDEX_LIMIT && active != []
    ensures var d := RotateStep(cfg, Dir(shown + [hidden], Some(active), corrupt));
      && d == Dir(shown + [Segment(INDEX_LIMIT, active)], None, corrupt)
      && Listed(d) == Datas(shown)
  {
    hide MaxIndex, Prune;
    var s := Segment(INDEX_LIMIT, active);
    VisibleBut(shown, INDEX_LIMIT - 1, hidden);
    assert (shown + [hidden])[..|shown|] == shown;
    assert Put(shown + [hidden], s) == shown + [s];
    PruneBeside(shown, cfg.backupCount, INDEX_LIMIT - 1, s);
    assert (shown + [s])[0..] == shown + [s];
    RotateIs(cfg, Dir(shown + [hidden], Some(active), corrupt), s, shown + [s]);
    VisibleBut(shown, INDEX_LIMIT - 1, s);
  }
}

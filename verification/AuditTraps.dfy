/**
 Where the audit log's promises stop: no backups, a torn append without a reopen, and
 a record longer than the window through which the tail is read.
 */
module AuditTraps {
  import opened Common
  import opened AuditText
  import opened AuditRecords
  import opened AuditTamper
  import opened AuditLogger
  import opened AuditRuns

  // ------------------------------------------------------------ backup_count == 0

  /**
   rotate() empties the listing exactly when no rotated segment may be kept; the
   next record then restarts the chain at genesis with sequence 1.
   */
  lemma RotateForgets(env: Env, cfg: Config, d: Dir, rotations: nat, memSequence: int)
    requires Sorted(d.rotated, rotations) && rotations + 1 < INDEX_LIMIT
    requires ActiveBytes(d) != []
    ensures Listed(RotateStep(cfg, d)) == [] <==> cfg.backupCount == 0
    ensures cfg.backupCount == 0 ==>
      TailFrom(env, Listed(RotateStep(cfg, d)), memSequence) == Ok(Mem(ZeroHash(), 0))
  {
    hide MaxIndex, Prune, Put, TailLine, Sorted, Visible, TailFrom;
    TailOfNothing(env, memSequence);
    AllVisible(d.rotated, rotations);
    var s := Segment(MaxIndex(d.rotated) + 1, d.active.value);
    SortedSnoc(d.rotated, rotations, s);
    var r := d.rotated + [s];
    PruneCount(r, cfg.backupCount, rotations + 1);
    var d' := RotateStep(cfg, d);
    RotateIs(cfg, d, s, r);
    ListedAll(d', rotations + 1);
  }

  // ------------------------------------------------------------ a failed append

  /** JSON objects are prefix-free, start with a visible byte, and two in a row are no JSON text. */
  ghost predicate PrefixFree(env: Env) {
    && (forall e, k {:trigger env.dumps(e)[..k]} | 0 < k < |env.dumps(e)| ::
      env.loads(env.dumps(e)[..k]) == BadJson && !Blank(env.dumps(e)[..k]))
    && (forall e, f {:trigger env.dumps(e) + env.dumps(f)} ::
      env.loads(env.dumps(e) + env.dumps(f)) == BadJson)
  }

  lemma SplitFragment(a: Bytes, frag: Bytes)
    requires Terminated(a) && Clean(frag) && frag != []
    ensures SplitLines(a + frag) == SplitLines(a) + [frag]
  {
    SplitConcat(a, frag);
  }

  lemma NotBlank(l: Bytes)
    requires !Blank(l)
    ensures l != []
  {
  }

  /** An unterminated last line is still the last line the tail read sees. */
  lemma TailLineFragment(a: Bytes, frag: Bytes, window: nat)
    requires Terminated(a) && Clean(frag) && !Blank(frag) && |frag| <= window
    ensures TailLine(a + frag, window) == Some(frag)
  {
    hide SplitLines, NonBlank, Blank;
    var data := a + frag;
    var head := a[Max(0, |data| - window)..];
    assert Window(data, window) == head + frag;
    NotBlank(frag);
    SplitFragment(head, frag);
    NonBlankSnoc(SplitLines(head), frag);
  }

  lemma FragmentClean(l: Bytes, done: nat)
    requires Clean(l) && 0 < done <= |l|
    ensures Line(l)[..done] == l[..done] && Clean(l[..done])
  {
    assert forall i | 0 <= i < done :: l[..done][i] == l[i];
  }

  /** What the writer finds after an append that stopped inside the line. */
  lemma TailAfterCut(env: Env, d: Dir, e: Record, done: nat, memSequence: int)
    requires Sound(env) && PrefixFree(env) && Terminated(ActiveBytes(d))
    requires 0 < done < |Line(env.dumps(e))| <= WINDOW
    ensures var found := TailFrom(env, Listed(AppendCut(d, Line(env.dumps(e)), done)), memSequence);
      if done < |env.dumps(e)| then found == Err(InvalidTail)
      else if HexField(e, RecordHash) then
        found == Ok(Mem(e[RecordHash].s, if SeqOf(e).Num? then SeqOf(e).n else memSequence))
      else found == Err(InvalidTailHash)
  {
    var l := env.dumps(e);
    var d' := AppendCut(d, Line(l), done);
    FragmentClean(l, done);
    if done == |l| {
      assert l[..done] == l;
    }
    TailLineFragment(ActiveBytes(d), l[..done], WINDOW);
    LastListed(d');
  }

  lemma TokensLast(env: Env, datas: seq<Bytes>)
    requires datas != []
    ensures var n := |datas| - 1; Tokens(env, datas) == Tokens(env, datas[..n]) + SegmentTokens(env, n, datas[n])
  {
    hide SegmentTokens;
  }

  lemma BadParts(a: seq<Token>, b: seq<Token>)
    ensures AllObjects(a + b) ==> AllObjects(a) && AllObjects(b)
  {
    assert forall k | 0 <= k < |a| :: a[k] == (a + b)[k];
    assert forall k | 0 <= k < |b| :: b[k] == (a + b)[|a| + k];
  }

  lemma {:induction false} BadSegment(env: Env, datas: seq<Bytes>, i: nat)
    requires i < |datas| && !AllObjects(SegmentTokens(env, i, datas[i]))
    ensures !AllObjects(Tokens(env, datas))
    decreases |datas|
  {
    hide Tokens, SegmentTokens, AllObjects;
    var n := |datas| - 1;
    var head, last := Tokens(env, datas[..n]), SegmentTokens(env, n, datas[n]);
    TokensLast(env, datas);
    if i < n {
      BadSegment(env, datas[..n], i);
    }
    BadParts(head, last);
  }

  lemma BadLastLine(env: Env, segment: nat, data: Bytes)
    requires Terminated(data) && SplitLines(data) != []
    requires var l := SplitLines(data)[|SplitLines(data)| - 1]; !Blank(l) && env.loads(l) == BadJson
    ensures !AllObjects(SegmentTokens(env, segment, data))
  {
    var ts := SegmentTokens(env, segment, data);
    assert ts[|ts| - 1].what == Text(BadJson);
  }

  /** Two records run together on one line. */
  lemma GluedSegment(env: Env, segment: nat, a: Bytes, e: Record, f: Record)
    requires Sound(env) && PrefixFree(env) && Terminated(a)
    ensures !AllObjects(SegmentTokens(env, segment, a + env.dumps(e) + Line(env.dumps(f))))
  {
    var l := env.dumps(e) + env.dumps(f);
    assert a + env.dumps(e) + Line(env.dumps(f)) == a + Line(l);
    assert Clean(l) by {
      assert Clean(env.dumps(e)) && Clean(env.dumps(f));
    }
    SplitLast(a, l);
    assert !Blank(l) by {
      assert !Blank(env.dumps(e));
      assert forall i | 0 <= i < |env.dumps(e)| :: l[i] == env.dumps(e)[i];
    }
    BadLastLine(env, segment, a + Line(l));
  }

  /**
   What a cut inside the line does to any instance that goes on without reopening:
   it refuses every record (the cut is inside the JSON text) or, when only the line
   break is missing, writes a log that no longer verifies.
   */
  lemma FailedAppendNeedsReopen(env: Env, cfg: Config, d: Dir, hist: seq<Record>, rotations: nat,
                                e: Record, done: nat, m: Mem, f: Fields)
    requires Sound(env) && PrefixFree(env) && DirOk(env, cfg, d, hist, rotations)
    requires rotations + 1 < INDEX_LIMIT && cfg.backupCount >= 1
    requires 0 < done < |Line(env.dumps(e))| <= WINDOW
    ensures var torn := AppendCut(d, Line(env.dumps(e)), done);
      var plan := Plan(env, cfg, torn, m, f);
      && (done < |env.dumps(e)| ==> plan == Err(InvalidTail))
      && (plan.Ok? ==>
        !ReportOf(env, Listed(Appended(env, cfg, torn, plan.value.1, |Line(env.dumps(plan.value.1))|))).valid)
  {
    TailAfterCut(env, d, e, done, m.lastSequence);
    var torn := AppendCut(d, Line(env.dumps(e)), done);
    var plan := Plan(env, cfg, torn, m, f);
    if plan.Ok? {
      ActiveTerminated(env, cfg, d, hist, rotations);
      FragmentClean(env.dumps(e), done);
      assert env.dumps(e)[..done] == env.dumps(e);
      ResumeBreaks(env, cfg, d, rotations, e, plan.value.1);
    }
  }

  /** An instance that remembers `m` can record `f` here, and the log still verifies afterwards. */
  ghost predicate CanGoOn(env: Env, cfg: Config, d: Dir, m: Mem, f: Fields) {
    var plan := Plan(env, cfg, d, m, f);
    && plan.Ok?
    && ReportOf(env, Listed(Appended(env, cfg, d, plan.value.1, |Line(env.dumps(plan.value.1))|))).valid
  }

  lemma SoundGoesOn(env: Env, cfg: Config, w: World, m: Mem, f: Fields)
    requires Sound(env) && Inv(env, cfg, w) && cfg.backupCount >= 1 && cfg.maxRecordBytes <= WINDOW
    requires w.rotations + 1 < INDEX_LIMIT && |Line(env.dumps(NextEntry(env, w.hist, f)))| <= cfg.maxRecordBytes
    ensures CanGoOn(env, cfg, w.dir, m, f)
  {
    hide DirOk, HistoryOk, Sound, Plan, NextEntry, Appended, Repaired, ReportOf, ReportTells;
    var e := NextEntry(env, w.hist, f);
    var n := |Line(env.dumps(e))|;
    PlanFollows(env, cfg, w, m, f);
    HistoryGrows(env, cfg, w.hist, f);
    AppendedKeeps(env, cfg, w.dir, w.hist, w.rotations, e, n, 0);
    var after := Appended(env, cfg, w.dir, e, n);
    var turns := w.rotations + Turns(cfg, w.dir, Line(env.dumps(e)));
    ReportOfInv(env, cfg, w.(dir := after, hist := w.hist + [e], rotations := turns));
  }

  /**
   After a failed append exactly two outcomes need no reopening: nothing was written,
   or the whole line was (and only the sync failed). `who` stands for any instance,
   the one that failed or another that shares the directory.
   */
  lemma FailedAppendExactly(env: Env, cfg: Config, w: World, f: Fields, done: nat, who: Mem, next: Fields)
    requires Sound(env) && PrefixFree(env) && Inv(env, cfg, w)
    requires cfg.backupCount >= 1 && cfg.maxRecordBytes <= WINDOW && w.rotations + 2 < INDEX_LIMIT
    requires done <= |Line(env.dumps(NextEntry(env, w.hist, f)))| <= cfg.maxRecordBytes
    requires |Line(env.dumps(NextEntry(env, w.hist, next)))| <= cfg.maxRecordBytes
    requires |Line(env.dumps(NextEntry(env, w.hist + [NextEntry(env, w.hist, f)], next)))| <= cfg.maxRecordBytes
    ensures var e := NextEntry(env, w.hist, f);
      CanGoOn(env, cfg, Appended(env, cfg, w.dir, e, done), who, next) <==>
      done == 0 || done == |Line(env.dumps(e))|
  {
    hide DirOk, HistoryOk, Sound, PrefixFree, Plan, NextEntry, Repaired, ReportOf, CanGoOn, Prepared, AppendCut;
    var e := NextEntry(env, w.hist, f);
    var line := Line(env.dumps(e));
    var turns := w.rotations + Turns(cfg, w.dir, line);
    var after := Appended(env, cfg, w.dir, e, done);
    AtMostOneTurn(cfg, w.dir, line);
    HistoryGrows(env, cfg, w.hist, f);
    AppendedKeeps(env, cfg, w.dir, w.hist, w.rotations, e, done, 0);
    if done == |line| {
      SoundGoesOn(env, cfg, w.(dir := after, hist := w.hist + [e], rotations := turns), who, next);
    } else if done == 0 {
      SoundGoesOn(env, cfg, w.(dir := after, rotations := turns), who, next);
    } else {
      PreparedKeeps(env, cfg, w.dir, w.hist, w.rotations, line);
      FailedAppendNeedsReopen(env, cfg, Prepared(cfg, w.dir, line), w.hist, turns, e, done, who, next);
      CannotGoOn(env, cfg, after, who, next);
    }
  }

  lemma AtMostOneTurn(cfg: Config, d: Dir, line: Bytes)
    ensures Turns(cfg, d, line) <= 1
  {
  }

  lemma CannotGoOn(env: Env, cfg: Config, d: Dir, m: Mem, f: Fields)
    requires var plan := Plan(env, cfg, d, m, f);
      plan.Ok? ==> !ReportOf(env, Listed(Appended(env, cfg, d, plan.value.1, |Line(env.dumps(plan.value.1))|))).valid
    ensures !CanGoOn(env, cfg, d, m, f)
  {
  }

  lemma BadDirectory(env: Env, datas: seq<Bytes>, i: nat)
    requires i < |datas| && !AllObjects(SegmentTokens(env, i, datas[i]))
    ensures !ReportOf(env, datas).valid
  {
    BadSegment(env, datas, i);
    ReportMeaning(env, datas);
  }

  /** The active segment always is the last one listed. */
  lemma ActiveIsLast(d: Dir, a: Bytes)
    requires d.active == Some(a)
    ensures var n := |Datas(Visible(d.rotated))|; |Listed(d)| == n + 1 && Listed(d)[n] == a
    ensures forall i | 0 <= i < |Datas(Visible(d.rotated))| :: Listed(d)[i] == Datas(Visible(d.rotated))[i]
  {
  }

  lemma TornSegment(env: Env, segment: nat, a: Bytes, e: Record)
    requires Sound(env)
    ensures a + env.dumps(e) != [] && !AllObjects(SegmentTokens(env, segment, a + env.dumps(e)))
  {
    var data := a + env.dumps(e);
    assert Clean(env.dumps(e)) && !Blank(env.dumps(e));
    assert data[|data| - 1] == env.dumps(e)[|env.dumps(e)| - 1];
    assert SegmentTokens(env, segment, data)[0].what == Torn;
  }

  lemma ResumeBreaks(env: Env, cfg: Config, d: Dir, rotations: nat, e: Record, next: Record)
    requires Sound(env) && PrefixFree(env) && Terminated(ActiveBytes(d))
    requires Sorted(d.rotated, rotations) && rotations + 1 < INDEX_LIMIT
    requires cfg.backupCount >= 1
    ensures var torn := d.(active := Some(ActiveBytes(d) + env.dumps(e)));
      !ReportOf(env, Listed(Appended(env, cfg, torn, next, |Line(env.dumps(next))|))).valid
  {
    var torn := d.(active := Some(ActiveBytes(d) + env.dumps(e)));
    AppendedWhole(env, cfg, torn, next);
    if Turns(cfg, torn, Line(env.dumps(next))) == 0 {
      GlueBreaks(env, Appended(env, cfg, torn, next, |Line(env.dumps(next))|), ActiveBytes(d), e, next);
    } else {
      RotateBreaks(env, cfg, torn, rotations, ActiveBytes(d), e, Line(env.dumps(next)));
    }
  }

  lemma AppendedWhole(env: Env, cfg: Config, d: Dir, e: Record)
    ensures var line := Line(env.dumps(e));
      Appended(env, cfg, d, e, |line|) ==
      if Turns(cfg, d, line) == 0 then d.(active := Some(ActiveBytes(d) + line))
      else RotateStep(cfg, d).(active := Some(line))
  {
    var line := Line(env.dumps(e));
    assert line[..|line|] == line;
    assert [] + line == line;
  }

  lemma GlueBreaks(env: Env, after: Dir, a: Bytes, e: Record, next: Record)
    requires Sound(env) && PrefixFree(env) && Terminated(a)
    requires after.active == Some(a + env.dumps(e) + Line(env.dumps(next)))
    ensures !ReportOf(env, Listed(after)).valid
  {
    ActiveIsLast(after, after.active.value);
    var n := |Listed(after)| - 1;
    GluedSegment(env, n, a, e, next);
    BadDirectory(env, Listed(after), n);
  }

  lemma RotateBreaks(env: Env, cfg: Config, torn: Dir, rotations: nat, a: Bytes, e: Record, line: Bytes)
    requires Sound(env) && torn.active == Some(a + env.dumps(e))
    requires Sorted(torn.rotated, rotations) && rotations + 1 < INDEX_LIMIT
    requires cfg.backupCount >= 1
    ensures !ReportOf(env, Listed(RotateStep(cfg, torn).(active := Some(line)))).valid
  {
    TornSegment(env, 0, a, e);
    RotateListing(cfg, torn, rotations);
    ActiveIsLast(torn, a + env.dumps(e));
    var moved := RotateStep(cfg, torn);
    var after := moved.(active := Some(line));
    ActiveIsLast(after, line);
    assert Listed(moved) == Datas(Visible(moved.rotated));
    var i := |Listed(moved)| - 1;
    assert Listed(after)[i] == a + env.dumps(e);
    TornSegment(env, i, a, e);
    BadDirectory(env, Listed(after), i);
  }

  // ------------------------------------------------------------ a record longer than the window

  lemma TailReadableIn(env: Env, cfg: Config, w: World, m: Mem, f: Fields)
    requires Sound(env) && SuffixFree(env) && Inv(env, cfg, w) && w.hist != []
    ensures ReportOf(env, Listed(w.dir)).valid
    ensures Plan(env, cfg, w.dir, m, f) == Err(InvalidTail) <==> |Line(env.dumps(w.hist[|w.hist| - 1]))| > 1048576
  {
    hide HistoryOk, Sound, SuffixFree, LogOf, ReportOf, ReportTells, NextEntry;
    ReportOfInv(env, cfg, w);
    LastLogged(env, cfg, SegmentBound(cfg), Listed(w.dir), w.hist);
    if |Line(env.dumps(w.hist[|w.hist| - 1]))| <= WINDOW {
      PlanFrom(env, cfg, SegmentBound(cfg), w.dir, w.hist, m, f);
    } else {
      LongTail(env, Listed(w.dir), m.lastSequence);
    }
  }

  /**
   In any directory a run can leave, with records of any size, record() can read the
   tail exactly when the last record fits the window; the log verifies either way.
   */
  lemma TailReadable(env: Env, cfg: Config, steps: seq<Step>, m: Mem, f: Fields)
    requires Sound(env) && SuffixFree(env) && cfg.backupCount >= 1
    requires Run(env, cfg, steps).rotations < INDEX_LIMIT && Run(env, cfg, steps).hist != []
    ensures var w := Run(env, cfg, steps);
      && ReportOf(env, Listed(w.dir)).valid
      && (Plan(env, cfg, w.dir, m, f) == Err(InvalidTail) <==> |Line(env.dumps(w.hist[|w.hist| - 1]))| > 1048576)
  {
    hide *;
    SuffixFreeDecides(env, cfg);
    RunKeeps(env, cfg, steps);
    TailReadableIn(env, cfg, Run(env, cfg, steps), m, f);
  }

  lemma SuffixFreeDecides(env: Env, cfg: Config)
    requires SuffixFree(env)
    ensures TailDecides(env, cfg)
  {
    hide SuffixFree;
  }

  /** Once the last record is longer than the window, no step of any instance adds a record any more. */
  lemma {:induction false} BlockedForever(env: Env, cfg: Config, steps: seq<Step>, more: seq<Step>)
    requires Sound(env) && SuffixFree(env) && cfg.backupCount >= 1
    requires Run(env, cfg, steps + more).rotations < INDEX_LIMIT
    requires LastTooLong(env, Run(env, cfg, steps).hist)
    ensures Run(env, cfg, steps + more).hist == Run(env, cfg, steps).hist
  {
    hide *;
    if more == [] {
      assert steps + more == steps;
    } else {
      var n := |more| - 1;
      assert (steps + more)[..|steps + more| - 1] == steps + more[..n];
      var w := Run(env, cfg, steps + more[..n]);
      RunLast(env, cfg, steps + more);
      RotationsRise(env, cfg, w, more[n]);
      BlockedForever(env, cfg, steps, more[..n]);
      SuffixFreeDecides(env, cfg);
      RunKeeps(env, cfg, steps + more[..n]);
      BlockedStep(env, cfg, w, more[n]);
    }
  }

  lemma RunLast(env: Env, cfg: Config, steps: seq<Step>)
    requires steps != []
    ensures var n := |steps| - 1; Run(env, cfg, steps) == Apply(env, cfg, Run(env, cfg, steps[..n]), steps[n])
  {
    hide Apply;
  }

  ghost predicate LastTooLong(env: Env, hist: seq<Record>) {
    hist != [] && |Line(env.dumps(hist[|hist| - 1]))| > WINDOW
  }

  lemma BlockedStep(env: Env, cfg: Config, w: World, s: Step)
    requires Sound(env) && SuffixFree(env) && Inv(env, cfg, w) && LastTooLong(env, w.hist)
    ensures Apply(env, cfg, w, s).hist == w.hist
  {
    hide Inv, Sound, SuffixFree, Plan, Appended, Repaired, ReportOf, CutRotation, Turns, Refused, BuildEntry;
    match s {
      case DoRecord(who, f) => NoPlan(env, cfg, w, who, f);
      case DoCrash(who, f, _, _) => NoPlan(env, cfg, w, who, f);
      case DoFail(who, f, _) => NoPlan(env, cfg, w, who, f);
      case _ =>
    }
  }

  lemma NoPlan(env: Env, cfg: Config, w: World, who: nat, f: Fields)
    requires Sound(env) && SuffixFree(env) && Inv(env, cfg, w) && LastTooLong(env, w.hist)
    ensures who in w.mems ==> Plan(env, cfg, w.dir, w.mems[who], f).Err?
  {
    hide Inv, Sound, SuffixFree, Plan;
    if who in w.mems {
      TailReadableIn(env, cfg, w, w.mems[who], f);
    }
  }

  /** A record longer than the window is accepted, and then blocks the log for everyone, rotated or not. */
  lemma LongRecordBlocks(env: Env, cfg: Config, w: World, who: Mem, f: Fields, m: Mem, next: Fields)
    requires Sound(env) && SuffixFree(env) && Inv(env, cfg, w) && cfg.backupCount >= 1
    requires w.rotations + 2 < INDEX_LIMIT
    requires w.hist != [] ==> |Line(env.dumps(w.hist[|w.hist| - 1]))| <= WINDOW
    requires WINDOW < |Line(env.dumps(NextEntry(env, w.hist, f)))| <= cfg.maxRecordBytes
    ensures var e := NextEntry(env, w.hist, f);
      var after := Appended(env, cfg, w.dir, e, |Line(env.dumps(e))|);
      && Plan(env, cfg, w.dir, who, f).Ok? && Plan(env, cfg, w.dir, who, f).value.1 == e
      && ReportOf(env, Listed(after)).valid
      && Plan(env, cfg, after, m, next) == Err(InvalidTail)
      && Plan(env, cfg, RotateStep(cfg, after), m, next) == Err(InvalidTail)
  {
    hide DirOk, DatasOk, HistoryOk, Sound, SuffixFree, Plan, NextEntry, Appended, Repaired, ReportOf, RotateStep;
    var e := NextEntry(env, w.hist, f);
    var line := Line(env.dumps(e));
    var turns := w.rotations + Turns(cfg, w.dir, line);
    var after := Appended(env, cfg, w.dir, e, |line|);
    AtMostOneTurn(cfg, w.dir, line);
    InvParts(env, cfg, w);
    PlanFrom(env, cfg, SegmentBound(cfg), w.dir, w.hist, who, f);
    HistoryGrows(env, cfg, w.hist, f);
    AppendedKeeps(env, cfg, w.dir, w.hist, w.rotations, e, |line|, 0);
    var full := w.(dir := after, hist := w.hist + [e], rotations := turns);
    TailReadableIn(env, cfg, full, m, next);
    RotateInKeeps(env, cfg, full, 0);
    RotateInFull(cfg, after);
    TailReadableIn(env, cfg, RotateIn(cfg, full, 0), m, next);
  }

  lemma InvParts(env: Env, cfg: Config, w: World)
    requires Inv(env, cfg, w)
    ensures HistoryOk(env, cfg, w.hist) && DatasOk(env, SegmentBound(cfg), Listed(w.dir), w.hist)
  {
  }

  // ------------------------------------------------------------ the quarantine policy

  function FirstWorld(env: Env, corrupt: seq<Artifact>, e: Record): World {
    World(Dir([], Some(Line(env.dumps(e))), corrupt), map[], [e], 0, 0)
  }

  lemma FirstRecord(env: Env, cfg: Config, corrupt: seq<Artifact>, f: Fields)
    requires Sound(env) && |Line(env.dumps(NextEntry(env, [], f)))| <= cfg.maxRecordBytes
    ensures Inv(env, cfg, FirstWorld(env, corrupt, NextEntry(env, [], f)))
  {
    var empty := Dir([], None, corrupt);
    var e := NextEntry(env, [], f);
    var line := Line(env.dumps(e));
    assert Listed(empty) == [];
    HistoryGrows(env, cfg, [], f);
    assert [] + [e] == [e];
    AppendKeeps(env, cfg, empty, [], 0, e);
    assert line[..|line|] == line && [] + line == line;
  }

  lemma PlanFirst(env: Env, cfg: Config, corrupt: seq<Artifact>, f: Fields)
    ensures var e := NextEntry(env, [], f);
      Plan(env, cfg, Dir([], None, corrupt), Mem(ZeroHash(), 0), f) ==
      if |Line(env.dumps(e))| > cfg.maxRecordBytes then Err(RecordTooLarge) else Ok((TailOf([]), e))
  {
    assert Listed(Dir([], None, corrupt)) == [];
  }

  /** After a corrupt chain is set aside, the fresh log verifies: one record, from genesis. */
  lemma RecoveryVerifies(env: Env, cfg: Config, corrupt: seq<Artifact>, f: Fields)
    requires Sound(env)
    requires Plan(env, cfg, Dir([], None, corrupt), Mem(ZeroHash(), 0), f).Ok?
    ensures var empty := Dir([], None, corrupt);
      var entry := Plan(env, cfg, empty, Mem(ZeroHash(), 0), f).value.1;
      var after := Appended(env, cfg, empty, entry, |Line(env.dumps(entry))|);
      && ReportOf(env, Listed(after)).valid
      && ReportTells(env, ReportOf(env, Listed(after)), Logged(env, Listed(after)), [entry])
  {
    PlanFirst(env, cfg, corrupt, f);
    FirstRecord(env, cfg, corrupt, f);
    var e := NextEntry(env, [], f);
    ReportOfInv(env, cfg, FirstWorld(env, corrupt, e));
    AppendedWhole(env, cfg, Dir([], None, corrupt), e);
    assert [] + Line(env.dumps(e)) == Line(env.dumps(e));
  }
}

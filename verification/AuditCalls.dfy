/**
 From the calls of record() to the records on disk: over whole runs, the log says what
 the callers said, in the order in which their calls completed.
 */
module AuditCalls {
  import opened Common
  import opened AuditText
  import opened AuditRecords
  import opened AuditTamper
  import opened AuditChain
  import opened AuditLogger
  import opened AuditRuns

  /** The call that this step completes, if any: its whole line reaches the disk. */
  function Completes(env: Env, cfg: Config, w: World, s: Step): seq<Fields> {
    match s
    case DoRecord(who, f) => if Planned(env, cfg, w, who, f) then [f] else []
    case DoFail(who, f, whole) => if Planned(env, cfg, w, who, f) && whole then [f] else []
    case DoCrash(who, f, cut, _) =>
      if Planned(env, cfg, w, who, f) && cut >= |LineOf(env, cfg, w, who, f)| then [f] else []
    case _ => []
  }

  predicate Planned(env: Env, cfg: Config, w: World, who: nat, f: Fields) {
    who in w.mems && Plan(env, cfg, w.dir, w.mems[who], f).Ok?
  }

  function LineOf(env: Env, cfg: Config, w: World, who: nat, f: Fields): Bytes
    requires Planned(env, cfg, w, who, f)
  {
    Line(env.dumps(Plan(env, cfg, w.dir, w.mems[who], f).value.1))
  }

  function Completed(env: Env, cfg: Config, steps: seq<Step>): seq<Fields> {
    if steps == [] then []
    else
      var n := |steps| - 1;
      Completed(env, cfg, steps[..n]) + Completes(env, cfg, Run(env, cfg, steps[..n]), steps[n])
  }

  predicate AllCarry(es: seq<Record>, fs: seq<Fields>) {
    |es| == |fs| && forall i | 0 <= i < |es| :: Carries(es[i], fs[i])
  }

  lemma PlanCarries(env: Env, cfg: Config, d: Dir, m: Mem, f: Fields)
    ensures var plan := Plan(env, cfg, d, m, f); plan.Ok? ==> Carries(plan.value.1, f)
  {
    hide Carries, TailFrom;
    match TailFrom(env, Listed(d), m.lastSequence) {
      case Ok(tail) => EntryFields(env, f, tail);
      case Err(_) =>
    }
  }

  lemma StepCarries(env: Env, cfg: Config, w: World, s: Step, calls: seq<Fields>)
    requires AllCarry(w.hist, calls)
    ensures AllCarry(Apply(env, cfg, w, s).hist, calls + Completes(env, cfg, w, s))
  {
    hide Plan, Carries, Appended, Repaired, ReportOf, CutRotation, Turns, Refused;
    match s {
      case DoRecord(who, f) => if who in w.mems { PlanCarries(env, cfg, w.dir, w.mems[who], f); }
      case DoFail(who, f, _) => if who in w.mems { PlanCarries(env, cfg, w.dir, w.mems[who], f); }
      case DoCrash(who, f, _, _) => if who in w.mems { PlanCarries(env, cfg, w.dir, w.mems[who], f); }
      case _ =>
    }
  }

  lemma StartCarries(env: Env, cfg: Config)
    ensures AllCarry(Run(env, cfg, []).hist, Completed(env, cfg, []))
  {
  }

  lemma {:induction false} RunCarries(env: Env, cfg: Config, steps: seq<Step>)
    ensures AllCarry(Run(env, cfg, steps).hist, Completed(env, cfg, steps))
  {
    hide AllCarry, Apply, Completes;
    if steps == [] {
      StartCarries(env, cfg);
    } else {
      var n := |steps| - 1;
      RunCarries(env, cfg, steps[..n]);
      StepCarries(env, cfg, Run(env, cfg, steps[..n]), steps[n], Completed(env, cfg, steps[..n]));
    }
  }

  /** The records carry, one for one, the last of these calls, and are numbered by their place among all of them. */
  predicate LastOf(kept: seq<Record>, calls: seq<Fields>) {
    && |kept| <= |calls| && (calls != [] ==> kept != [])
    && var k := |calls| - |kept|;
       forall i | 0 <= i < |kept| :: At(kept[i], calls[k + i], k + i + 1)
  }

  /** This record carries this call, as number n. */
  predicate At(e: Record, f: Fields, n: int) {
    Carries(e, f) && e[Sequence] == Int(n)
  }

  /**
   After any run the records on disk carry, in order, the fields of the last completed
   calls; while nothing was pruned, of all of them.
   */
  lemma LogSaysWhatWasSaid(env: Env, cfg: Config, steps: seq<Step>)
    requires Sound(env) && cfg.backupCount >= 1 && TailDecides(env, cfg)
    requires Run(env, cfg, steps).rotations < INDEX_LIMIT
    ensures var kept, calls := RecordsOnDisk(env, Listed(Run(env, cfg, steps).dir)), Completed(env, cfg, steps);
      LastOf(kept, calls)
  {
    hide *;
    var w := Run(env, cfg, steps);
    RunKeeps(env, cfg, steps);
    SharedLog(env, cfg, steps);
    LoggedIsOnDisk(env, Listed(w.dir));
    RunCarries(env, cfg, steps);
    KeptNotEmpty(env, cfg, w);
    SuffixCarries(Logged(env, Listed(w.dir)), w.hist, Completed(env, cfg, steps), ReportOf(env, Listed(w.dir)), env);
  }

  lemma KeptNotEmpty(env: Env, cfg: Config, w: World)
    requires Sound(env) && Inv(env, cfg, w)
    ensures w.hist != [] ==> Logged(env, Listed(w.dir)) != []
  {
    hide Sound, HistoryOk, LogOf, AllCanonical;
    AllCanonicalIn(env, SegmentBound(cfg), Listed(w.dir), w.hist);
    CanonicalTokens(env, Listed(w.dir));
  }

  lemma NumberOf(e: Record, f: Fields)
    requires Carries(e, f) && SeqOf(e).Num?
    ensures At(e, f, SeqOf(e).n)
  {
  }

  lemma SameCount(env: Env, r: Report, kept: seq<Record>, hist: seq<Record>, calls: seq<Fields>)
    requires ReportTells(env, r, kept, hist) && AllCarry(hist, calls)
    ensures |kept| <= |hist| == |calls|
  {
    hide Carries, WellFormed, HashOf, SeqOf;
  }

  lemma KeptAt(env: Env, r: Report, kept: seq<Record>, hist: seq<Record>, i: nat)
    requires ReportTells(env, r, kept, hist) && i < |kept|
    ensures |kept| <= |hist| && kept[i] == hist[|hist| - |kept| + i]
    ensures SeqOf(kept[i]) == Num(|hist| - |kept| + i + 1)
  {
    hide WellFormed, HashOf, SeqOf;
  }

  lemma CarryAt(hist: seq<Record>, calls: seq<Fields>, i: nat)
    requires AllCarry(hist, calls) && i < |hist|
    ensures |hist| == |calls| && Carries(hist[i], calls[i])
  {
    hide Carries;
  }

  lemma AllAt(kept: seq<Record>, calls: seq<Fields>)
    requires |kept| <= |calls| && (calls != [] ==> kept != [])
    requires var k := |calls| - |kept|; forall i | 0 <= i < |kept| :: At(kept[i], calls[k + i], k + i + 1)
    ensures LastOf(kept, calls)
  {
    hide At;
  }

  lemma SuffixCarries(kept: seq<Record>, hist: seq<Record>, calls: seq<Fields>, r: Report, env: Env)
    requires ReportTells(env, r, kept, hist) && AllCarry(hist, calls) && (hist != [] ==> kept != [])
    ensures LastOf(kept, calls)
  {
    hide *;
    var k := |hist| - |kept|;
    SameCount(env, r, kept, hist, calls);
    forall i | 0 <= i < |kept| ensures At(kept[i], calls[k + i], k + i + 1) {
      KeptAt(env, r, kept, hist, i);
      CarryAt(hist, calls, k + i);
      NumberOf(kept[i], calls[k + i]);
    }
    AllAt(kept, calls);
  }

  /** Right after a step that completes a call, the last record on disk is that of the call. */
  lemma JustRecorded(env: Env, cfg: Config, steps: seq<Step>, s: Step, f: Fields)
    requires Sound(env) && cfg.backupCount >= 1 && TailDecides(env, cfg)
    requires Run(env, cfg, steps + [s]).rotations < INDEX_LIMIT
    requires Completes(env, cfg, Run(env, cfg, steps), s) == [f]
    ensures var kept := RecordsOnDisk(env, Listed(Run(env, cfg, steps + [s]).dir));
      kept != [] && Carries(kept[|kept| - 1], f)
  {
    hide *;
    LogSaysWhatWasSaid(env, cfg, steps + [s]);
    CompletedSnoc(env, cfg, steps, s);
    LastCarries(RecordsOnDisk(env, Listed(Run(env, cfg, steps + [s]).dir)), Completed(env, cfg, steps), f);
  }

  lemma CompletedSnoc(env: Env, cfg: Config, steps: seq<Step>, s: Step)
    ensures Completed(env, cfg, steps + [s]) ==
            Completed(env, cfg, steps) + Completes(env, cfg, Run(env, cfg, steps), s)
  {
    hide Completes, Run;
    assert (steps + [s])[..|steps + [s]| - 1] == steps;
  }

  lemma LastCarries(kept: seq<Record>, calls: seq<Fields>, f: Fields)
    requires LastOf(kept, calls + [f])
    ensures kept != [] && Carries(kept[|kept| - 1], f)
  {
    hide Carries;
    assert calls + [f] != [];
  }
}

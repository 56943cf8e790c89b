/**
 What the engine's steps mean field by field and in the policy's own numbers, without
 the functions that compute them.
 */
module CorrelationMeaning {
  import opened Common
  import opened Correlation
  import opened CorrelationEngine
  import opened CorrelationRuns

  // ------------------------------------------------------------ the ladder

  /** Weights times counts over the five rules, at most 100; with the score before execution, at most 100 again. */
  predicate Scored(p: Policy, s: State) {
    var sum := p.fileWrite.weight * Times(s, FileWrite) + p.fileRename.weight * Times(s, FileRename) +
               p.connection.weight * Times(s, Connection) + p.childExec.weight * Times(s, ChildExec) +
               p.mismatch.weight * Times(s, Mismatch);
    && s.runtimeScore == (if sum < 100 then sum else 100)
    && s.combined == (if s.preScore + s.runtimeScore < 100 then s.preScore + s.runtimeScore else 100)
  }

  /** How often a rule has fired. */
  function Times(s: State, r: Rule): int {
    if r in s.occurrences then s.occurrences[r] else 0
  }

  lemma OkMeans(p: Policy, s: State)
    requires p.Validates() && StateOk(p, s)
    ensures Scored(p, s) && Calls(p, s.combined, s.action == Deny, s.action)
  {
  }

  /**
   The ladder over whole runs, in the policy's numbers: a live state recommends denial
   exactly when its generation was denied in the run, and otherwise quarantine,
   termination, an alert or nothing exactly as its score lies among the thresholds.
   */
  lemma RunRecommends(p: Policy, norm: string -> string, ops: seq<Op>, i: nat)
    requires p.Validates() && i < |Run(p, norm, ops).states|
    ensures var s := Run(p, norm, ops).states[i];
      Scored(p, s) && Calls(p, s.combined, EverDenied(p, norm, ops, s.correlationId), s.action)
  {
    hide Run, EverDenied, Policy.Validates, ScoresOk, CountsOk, LadderOk;
    var t := Run(p, norm, ops);
    RunKeeps(p, norm, ops);
    RunDeny(p, norm, ops);
    assert LiveOk(p, t, t.states[i]);
    OkMeans(p, t.states[i]);
  }

  // ------------------------------------------------------------ one event

  /** Nothing but what an event may change. */
  predicate SameGeneration(s: State, t: State) {
    && t.correlationId == s.correlationId && t.generation == s.generation && t.pid == s.pid
    && t.source == s.source && t.path == s.path && t.preScore == s.preScore && t.parent == s.parent
    && t.created == s.created && t.execution == s.execution && t.result == s.result
  }

  /** The name under which a rename counts. */
  function NameOf(o: Option<string>): string {
    if o == None || o == Some("") then "UNKNOWN_IDENTIFIER" else o.value
  }

  predicate Known(o: Option<string>) {
    o.Some? && |o.value| > 0
  }

  /** The rules that this event sets off on a state. */
  predicate Fires(norm: string -> string, s: State, e: Event, r: Rule) {
    match r
    case FileWrite => e.kind == Write && e.fileKey.Some? && e.fileKey.value !in s.files
    case FileRename => e.kind == Rename && NameOf(e.identifier) !in s.renames
    case Connection => e.kind == Connect && e.endpoint !in s.connections
    case ChildExec => false
    case Mismatch =>
      e.kind == Exec && Known(s.path) && Known(e.identifier) && norm(s.path.value) != norm(e.identifier.value)
  }

  predicate Seen(norm: string -> string, s: State, e: Event, now: real, t: State) {
    && t.lastSeen == now
    && t.ppid == (if e.ppid == 0 then s.ppid else e.ppid)
    && t.uid == (if e.uid == 0 then s.uid else e.uid)
    && t.status == (if e.kind == Exec then Active else if e.kind == Exit then Exited else s.status)
    && t.execTs == (if e.kind == Exec && e.timestamp != 0 then Some(e.timestamp) else s.execTs)
    && t.identifier == (if e.kind != Exec then s.identifier else if Known(e.identifier) then e.identifier else None)
    && t.exitTs == (if e.kind != Exit then s.exitTs else if e.timestamp == 0 then None else Some(e.timestamp))
    && t.exitedAt == (if e.kind == Exit then Some(now) else s.exitedAt)
  }

  predicate Collects(s: State, e: Event, t: State) {
    && t.files == (if e.kind == Write && e.fileKey.Some? then s.files + {e.fileKey.value} else s.files)
    && t.renames == (if e.kind == Rename then s.renames + {NameOf(e.identifier)} else s.renames)
    && t.connections == (if e.kind == Connect then s.connections + {e.endpoint} else s.connections)
  }

  /** Each rule that fires below its cap counts once more, and no other. */
  predicate CountsOn(p: Policy, norm: string -> string, s: State, e: Event, t: State) {
    forall r: Rule ::
      Times(t, r) == Times(s, r) + if Fires(norm, s, e, r) && Times(s, r) < p.Spec(r).cap then 1 else 0
  }

  /** What one event makes of a live generation. */
  predicate EventEffect(p: Policy, norm: string -> string, s: State, e: Event, now: real, t: State) {
    && SameGeneration(s, t) && Seen(norm, s, e, now, t) && Collects(s, e, t) && CountsOn(p, norm, s, e, t)
    && Scored(p, t) && Calls(p, t.combined, s.action == Deny, t.action)
  }

  lemma RecalculatedEffect(p: Policy, norm: string -> string, s: State, e: Event, now: real, u: State)
    ensures var t := Recalculated(p, u);
      && (SameGeneration(s, u) ==> SameGeneration(s, t)) && (Seen(norm, s, e, now, u) ==> Seen(norm, s, e, now, t))
      && (Collects(s, e, u) ==> Collects(s, e, t)) && (CountsOn(p, norm, s, e, u) ==> CountsOn(p, norm, s, e, t))
  {
    hide TotalWeight, ActionFor, Min, Fires;
  }

  /** A rule that may fire on u, a state that differs from s in what it has collected and seen. */
  lemma RuleCounts(p: Policy, norm: string -> string, s: State, e: Event, u: State, rule: Rule)
    requires u.occurrences == s.occurrences && Fires(norm, s, e, rule)
    requires forall r: Rule :: r != rule ==> !Fires(norm, s, e, r)
    ensures CountsOn(p, norm, s, e, WithRule(p, u, rule))
  {
    hide TotalWeight, ActionFor, Min, Fires;
  }

  lemma RuleSame(p: Policy, norm: string -> string, s: State, e: Event, now: real, u: State, rule: Rule)
    ensures var t := WithRule(p, u, rule);
      && (SameGeneration(s, u) ==> SameGeneration(s, t)) && (Seen(norm, s, e, now, u) ==> Seen(norm, s, e, now, t))
      && (Collects(s, e, u) ==> Collects(s, e, t))
  {
    hide TotalWeight, ActionFor, Min, Fires;
  }

  lemma NoRule(p: Policy, norm: string -> string, s: State, e: Event, u: State)
    requires u.occurrences == s.occurrences && forall r: Rule :: !Fires(norm, s, e, r)
    ensures CountsOn(p, norm, s, e, u)
  {
    hide Fires;
  }

  lemma OneRule(norm: string -> string, s: State, e: Event, r: Rule)
    ensures Fires(norm, s, e, r) ==>
      r == match e.kind case Write => FileWrite case Rename => FileRename case Connect => Connection case _ => Mismatch
  {
  }

  /** The same, before the last re-scoring. */
  predicate Effect(p: Policy, norm: string -> string, s: State, e: Event, now: real, t: State) {
    SameGeneration(s, t) && Seen(norm, s, e, now, t) && Collects(s, e, t) && CountsOn(p, norm, s, e, t)
  }

  lemma FiredEffect(p: Policy, norm: string -> string, s: State, e: Event, now: real, u: State, rule: Rule)
    requires SameGeneration(s, u) && Seen(norm, s, e, now, u) && Collects(s, e, u)
    requires u.occurrences == s.occurrences && Fires(norm, s, e, rule)
    ensures Effect(p, norm, s, e, now, WithRule(p, u, rule))
  {
    hide SameGeneration, Seen, Collects, CountsOn, Fires, WithRule;
    forall r: Rule | r != rule ensures !Fires(norm, s, e, r) {
      OneRule(norm, s, e, r);
      OneRule(norm, s, e, rule);
    }
    RuleCounts(p, norm, s, e, u, rule);
    RuleSame(p, norm, s, e, now, u, rule);
  }

  lemma QuietEffect(p: Policy, norm: string -> string, s: State, e: Event, now: real, u: State)
    requires SameGeneration(s, u) && Seen(norm, s, e, now, u) && Collects(s, e, u)
    requires u.occurrences == s.occurrences && forall r: Rule :: !Fires(norm, s, e, r)
    ensures Effect(p, norm, s, e, now, u)
  {
    hide SameGeneration, Seen, Collects, CountsOn, Fires;
    NoRule(p, norm, s, e, u);
  }

  lemma SilentRules(norm: string -> string, s: State, e: Event, rule: Rule)
    requires !Fires(norm, s, e, rule)
    requires rule ==
             match e.kind
             case Write => FileWrite
             case Rename => FileRename
             case Connect => Connection
             case _ => Mismatch
    ensures forall r: Rule :: !Fires(norm, s, e, r)
  {
    hide Fires;
    forall r: Rule ensures !Fires(norm, s, e, r) {
      OneRule(norm, s, e, r);
    }
  }

  lemma SeenTouched(norm: string -> string, s: State, e: Event, now: real)
    ensures SameGeneration(s, Touched(s, e, now)) && Touched(s, e, now).occurrences == s.occurrences
    ensures e.kind != Exec && e.kind != Exit ==> Seen(norm, s, e, now, Touched(s, e, now))
  {
  }

  lemma KeyIs(e: Event)
    ensures RenameKey(e) == NameOf(e.identifier)
    ensures NonEmpty(e.identifier) == if Known(e.identifier) then e.identifier else None
  {
  }

  lemma CountedEffect(p: Policy, norm: string -> string, s: State, e: Event, now: real)
    requires e.kind != Exec && e.kind != Exit
    ensures Effect(p, norm, s, e, now, Counted(p, Touched(s, e, now), e))
  {
    hide WithRule, SameGeneration, Seen, CountsOn, Effect;
    var u := Touched(s, e, now);
    SeenTouched(norm, s, e, now);
    KeyIs(e);
    match e.kind {
      case Write =>
        if Fires(norm, s, e, FileWrite) {
          CollectedKeeps(norm, s, e, now, u, u.(files := u.files + {e.fileKey.value}));
          FiredEffect(p, norm, s, e, now, u.(files := u.files + {e.fileKey.value}), FileWrite);
        } else {
          assert e.fileKey.Some? ==> s.files + {e.fileKey.value} == s.files;
          SilentRules(norm, s, e, FileWrite);
          QuietEffect(p, norm, s, e, now, u);
        }
      case Rename =>
        if Fires(norm, s, e, FileRename) {
          CollectedKeeps(norm, s, e, now, u, u.(renames := u.renames + {NameOf(e.identifier)}));
          FiredEffect(p, norm, s, e, now, u.(renames := u.renames + {NameOf(e.identifier)}), FileRename);
        } else {
          assert s.renames + {NameOf(e.identifier)} == s.renames;
          SilentRules(norm, s, e, FileRename);
          QuietEffect(p, norm, s, e, now, u);
        }
      case Connect =>
        if Fires(norm, s, e, Connection) {
          CollectedKeeps(norm, s, e, now, u, u.(connections := u.connections + {e.endpoint}));
          FiredEffect(p, norm, s, e, now, u.(connections := u.connections + {e.endpoint}), Connection);
        } else {
          assert s.connections + {e.endpoint} == s.connections;
          SilentRules(norm, s, e, Connection);
          QuietEffect(p, norm, s, e, now, u);
        }
      case _ =>
        SilentRules(norm, s, e, Mismatch);
        QuietEffect(p, norm, s, e, now, u);
    }
  }

  lemma CollectedKeeps(norm: string -> string, s: State, e: Event, now: real, u: State, v: State)
    requires SameGeneration(s, u) && Seen(norm, s, e, now, u)
    requires v == u.(files := v.files, renames := v.renames, connections := v.connections)
    ensures SameGeneration(s, v) && Seen(norm, s, e, now, v)
  {
  }

  lemma ExecutedEffect(p: Policy, norm: string -> string, s: State, e: Event, now: real)
    requires e.kind == Exec
    ensures Effect(p, norm, s, e, now, Executed(p, norm, Touched(s, e, now), e))
  {
    hide WithRule, CountsOn, Effect;
    KeyIs(e);
    var t := Touched(s, e, now);
    var u := t.(status := Active,
                execTs := if e.timestamp != 0 then Some(e.timestamp) else t.execTs,
                identifier := NonEmpty(e.identifier));
    assert SameGeneration(s, u) && Seen(norm, s, e, now, u) && Collects(s, e, u);
    if Fires(norm, s, e, Mismatch) {
      FiredEffect(p, norm, s, e, now, u, Mismatch);
    } else {
      SilentRules(norm, s, e, Mismatch);
      QuietEffect(p, norm, s, e, now, u);
    }
  }

  lemma ExitEffect(p: Policy, norm: string -> string, s: State, e: Event, now: real)
    requires e.kind == Exit
    ensures Effect(p, norm, s, e, now,
                   Touched(s, e, now).(status := Exited, exitedAt := Some(now),
                                       exitTs := if e.timestamp != 0 then Some(e.timestamp) else None))
  {
    hide CountsOn, Effect;
    SilentRules(norm, s, e, Mismatch);
    QuietEffect(p, norm, s, e, now,
                Touched(s, e, now).(status := Exited, exitedAt := Some(now),
                                    exitTs := if e.timestamp != 0 then Some(e.timestamp) else None));
  }

  /**
   What one event makes of a sound live generation, field by field: which rule fires
   and counts, what is collected, and the score and action that follow.
   */
  lemma EventMeaning(p: Policy, norm: string -> string, s: State, e: Event, now: real)
    requires p.Validates() && StateOk(p, s)
    ensures EventEffect(p, norm, s, e, now, Delivered(p, norm, s, e, now))
  {
    hide Counted, Executed, Recalculated, StateOk, Policy.Validates;
    hide Scored, Calls, SameGeneration, Seen, Collects, CountsOn;
    var t := Touched(s, e, now);
    var u := match e.kind
      case Exec => Executed(p, norm, t, e)
      case Exit => t.(status := Exited, exitTs := if e.timestamp != 0 then Some(e.timestamp) else None,
                      exitedAt := Some(now))
      case _ => Counted(p, t, e);
    match e.kind {
      case Exec => ExecutedEffect(p, norm, s, e, now);
      case Exit => ExitEffect(p, norm, s, e, now);
      case _ => CountedEffect(p, norm, s, e, now);
    }
    RecalculatedEffect(p, norm, s, e, now, u);
    DeliveredKeeps(p, norm, s, e, now);
    OkMeans(p, Delivered(p, norm, s, e, now));
  }

  // ------------------------------------------------------------ the log of transitions

  /** A re-scoring that changes the action, or is the first, enters both actions and the score; no other is entered. */
  predicate Enters(s: State, t: State) {
    t.transitions == if t.action != s.action || s.transitions == []
                     then s.transitions + [Transition(s.action, t.action, t.combined)] else s.transitions
  }

  lemma RescoredEnters(p: Policy, s: State)
    ensures Enters(s, Recalculated(p, s))
  {
    hide TotalWeight, ActionFor, Min;
  }

  lemma RescoredTwice(p: Policy, s: State)
    ensures var t := Recalculated(p, s);
      Recalculated(p, t).action == t.action && Recalculated(p, t).combined == t.combined
  {
    hide TotalWeight, Min;
  }

  predicate SameLadder(s: State, u: State) {
    u.transitions == s.transitions && u.action == s.action
  }

  predicate RescoredFrom(p: Policy, s: State, b: State, u: State) {
    SameLadder(s, b) && u == Recalculated(p, b)
  }

  /** A state whose ladder is that of s, or has just been re-scored from it. */
  ghost predicate NearLadder(p: Policy, s: State, u: State) {
    SameLadder(s, u) || exists b: State :: RescoredFrom(p, s, b, u)
  }

  lemma RuleNear(p: Policy, s: State, v: State, rule: Rule)
    requires SameLadder(s, v)
    ensures NearLadder(p, s, WithRule(p, v, rule))
  {
    hide Recalculated;
    assert RescoredFrom(p, s, Bumped(p, v, rule), Recalculated(p, Bumped(p, v, rule)));
  }

  lemma CountedNear(p: Policy, s: State, v: State, e: Event)
    requires SameLadder(s, v)
    ensures NearLadder(p, s, Counted(p, v, e))
  {
    hide WithRule, NearLadder;
    SelfNear(p, s, v);
    match e.kind {
      case Write => if e.fileKey.Some? { RuleNear(p, s, v.(files := v.files + {e.fileKey.value}), FileWrite); }
      case Rename => RuleNear(p, s, v.(renames := v.renames + {RenameKey(e)}), FileRename);
      case Connect => RuleNear(p, s, v.(connections := v.connections + {e.endpoint}), Connection);
      case _ =>
    }
  }

  lemma ExecutedNear(p: Policy, norm: string -> string, s: State, v: State, e: Event)
    requires SameLadder(s, v)
    ensures NearLadder(p, s, Executed(p, norm, v, e))
  {
    hide WithRule, NearLadder, LexicallySame;
    var t := v.(status := Active, execTs := if e.timestamp != 0 then Some(e.timestamp) else v.execTs,
                identifier := NonEmpty(e.identifier));
    SelfNear(p, s, t);
    RuleNear(p, s, t, Mismatch);
  }

  lemma SelfNear(p: Policy, s: State, u: State)
    requires SameLadder(s, u)
    ensures NearLadder(p, s, u)
  {
  }

  lemma NearEnters(p: Policy, s: State, u: State)
    requires s.transitions != [] && NearLadder(p, s, u)
    ensures Enters(s, Recalculated(p, u))
  {
    hide Recalculated;
    RescoredEnters(p, u);
    if !SameLadder(s, u) {
      var b: State :| RescoredFrom(p, s, b, u);
      RescoredEnters(p, b);
      RescoredTwice(p, b);
    }
  }

  /** Over a whole event: at most one transition is entered, from the action before it to the one after it. */
  lemma TransitionMeaning(p: Policy, norm: string -> string, s: State, e: Event, now: real)
    requires s.transitions != []
    ensures Enters(s, Delivered(p, norm, s, e, now))
  {
    hide Recalculated, Counted, Executed, NearLadder, Enters;
    var t := Touched(s, e, now);
    CountedNear(p, s, t, e);
    ExecutedNear(p, norm, s, t, e);
    var exited := t.(status := Exited, exitTs := if e.timestamp != 0 then Some(e.timestamp) else None,
                     exitedAt := Some(now));
    SelfNear(p, s, exited);
    NearEnters(p, s, match e.kind case Exec => Executed(p, norm, t, e) case Exit => exited case _ => Counted(p, t, e));
  }
}

/**
 One generation of one process: its evolving score, its action ladder, and what
 the configuration check does and does not guarantee about it.
 */
module Correlation {
  import opened Common

  datatype Rule = FileWrite | FileRename | Connection | ChildExec | Mismatch

  datatype RuleSpec = RuleSpec(weight: int, cap: int)

  datatype Policy = Policy(
    scoreMinimum: int, scoreMaximum: int,
    stateTtl: real, exitedTtl: real, lateWindow: real, inheritWindow: real, maxStates: int,
    alertMin: int, terminateMin: int, quarantineMin: int,
    fileWrite: RuleSpec, fileRename: RuleSpec, connection: RuleSpec, childExec: RuleSpec, mismatch: RuleSpec)
  {
    function Spec(r: Rule): RuleSpec {
      match r
      case FileWrite => fileWrite
      case FileRename => fileRename
      case Connection => connection
      case ChildExec => childExec
      case Mismatch => mismatch
    }

    function Maximum(r: Rule): int {
      Spec(r).weight * Spec(r).cap
    }

    /** CorrelationPolicy.validate, apart from its labels. */
    predicate Validates() {
      && scoreMinimum == 0 && scoreMaximum == 100
      && stateTtl > 0.0 && exitedTtl > 0.0 && lateWindow > 0.0 && inheritWindow > 0.0
      && maxStates > 0
      && 0 < alertMin < terminateMin < quarantineMin <= scoreMaximum
      && (forall r: Rule :: Spec(r).weight > 0 && Spec(r).cap > 0)
      && Maximum(FileWrite) + Maximum(FileRename) + Maximum(Connection) + Maximum(ChildExec) + Maximum(Mismatch)
         >= quarantineMin
    }
  }

  datatype Action = Continue | Alert | Terminate | Quarantine | Deny

  function Rank(a: Action): nat {
    match a case Continue => 0 case Alert => 1 case Terminate => 2 case Quarantine => 3 case Deny => 4
  }

  datatype Source = RuntimeOnly | Fanotify | LateBound

  datatype Status = Active | PendingExec | Denied | Exited

  datatype Indicator = Indicator(rule: Rule, weight: int, occurrence: int)

  /** The result of a response: its status ("" where it has none that counts) and whatever else it says. */
  datatype ActionResult = ActionResult(status: string, details: map<string, string>)

  datatype Transition = Transition(from: Action, to: Action, combined: int)

  datatype State = State(
    correlationId: nat, generation: nat, pid: int, ppid: int, uid: int,
    source: Source, status: Status, path: Option<string>, identifier: Option<string>,
    preScore: int, runtimeScore: int, combined: int, action: Action, parent: Option<nat>,
    created: real, lastSeen: real, execTs: Option<int>, exitTs: Option<int>, exitedAt: Option<real>,
    indicators: seq<Indicator>, occurrences: map<Rule, int>,
    files: set<string>, renames: set<string>, connections: set<string>, transitions: seq<Transition>,
    execution: string, result: Option<ActionResult>)

  // ------------------------------------------------------------ scoring

  function Occurrences(s: State, r: Rule): int {
    if r in s.occurrences then s.occurrences[r] else 0
  }

  function TotalWeight(items: seq<Indicator>): int {
    if items == [] then 0 else TotalWeight(items[..|items| - 1]) + items[|items| - 1].weight
  }

  /** The action that a combined score alone calls for. */
  function Threshold(p: Policy, combined: int): Action {
    if combined >= p.quarantineMin then Quarantine
    else if combined >= p.terminateMin then Terminate
    else if combined >= p.alertMin then Alert
    else Continue
  }

  /** The recommended action, by the numbers of the policy. */
  predicate Calls(p: Policy, combined: int, denied: bool, a: Action) {
    && (a == Deny <==> denied)
    && (!denied ==>
      && (a == Quarantine <==> p.quarantineMin <= combined)
      && (a == Terminate <==> p.terminateMin <= combined < p.quarantineMin)
      && (a == Alert <==> p.alertMin <= combined < p.terminateMin)
      && (a == Continue <==> combined < p.alertMin))
  }

  lemma ThresholdCalls(p: Policy, combined: int)
    requires p.Validates()
    ensures Calls(p, combined, false, Threshold(p, combined))
  {
  }

  function ActionFor(p: Policy, s: State): Action {
    if s.status == Denied then Deny else Threshold(p, s.combined)
  }

  function Recalculated(p: Policy, s: State): State {
    var runtime := Min(p.scoreMaximum, TotalWeight(s.indicators));
    var combined := Min(p.scoreMaximum, s.preScore + runtime);
    var scored := s.(runtimeScore := runtime, combined := combined);
    var wanted := ActionFor(p, scored);
    var action := if Rank(wanted) < Rank(s.action) then s.action else wanted;
    scored.(action := action,
            transitions := if action != s.action || s.transitions == []
                           then s.transitions + [Transition(s.action, action, combined)] else s.transitions)
  }

  function WithRule(p: Policy, s: State, r: Rule): State {
    if Occurrences(s, r) >= p.Spec(r).cap then s else Recalculated(p, Bumped(p, s, r))
  }

  function Bumped(p: Policy, s: State, r: Rule): State {
    var n := Occurrences(s, r) + 1;
    s.(occurrences := s.occurrences[r := n], indicators := s.indicators + [Indicator(r, p.Spec(r).weight, n)])
  }

  // ------------------------------------------------------------ events

  datatype Kind = Exec | Write | Rename | Connect | Exit | OtherKind

  /** Zero stands for an absent ppid, uid or timestamp, as the decoder leaves it. */
  datatype Event = Event(
    kind: Kind, pid: int, ppid: int, uid: int, timestamp: int,
    identifier: Option<string>, fileKey: Option<string>, endpoint: string)

  const UNKNOWN_IDENTIFIER: string := "UNKNOWN_IDENTIFIER"

  function NonEmpty(o: Option<string>): Option<string> {
    if o.Some? && o.value != "" then o else None
  }

  function RenameKey(e: Event): string {
    match NonEmpty(e.identifier) case Some(i) => i case None => UNKNOWN_IDENTIFIER
  }

  /** Two paths are compared only when both are known. */
  predicate LexicallySame(norm: string -> string, a: Option<string>, b: Option<string>) {
    NonEmpty(a).None? || NonEmpty(b).None? || norm(a.value) == norm(b.value)
  }

  function Touched(s: State, e: Event, now: real): State {
    s.(lastSeen := now,
       ppid := if e.ppid != 0 then e.ppid else s.ppid,
       uid := if e.uid != 0 then e.uid else s.uid)
  }

  function Executed(p: Policy, norm: string -> string, s: State, e: Event): State {
    var t := s.(status := Active,
                execTs := if e.timestamp != 0 then Some(e.timestamp) else s.execTs,
                identifier := NonEmpty(e.identifier));
    if LexicallySame(norm, t.path, t.identifier) then t else WithRule(p, t, Mismatch)
  }

  function Counted(p: Policy, s: State, e: Event): State {
    match e.kind
    case Write =>
      if e.fileKey.None? || e.fileKey.value in s.files then s
      else WithRule(p, s.(files := s.files + {e.fileKey.value}), FileWrite)
    case Rename =>
      if RenameKey(e) in s.renames then s
      else WithRule(p, s.(renames := s.renames + {RenameKey(e)}), FileRename)
    case Connect =>
      if e.endpoint in s.connections then s
      else WithRule(p, s.(connections := s.connections + {e.endpoint}), Connection)
    case _ => s
  }

  /** One runtime event delivered to a live generation that it does not replace. */
  function Delivered(p: Policy, norm: string -> string, s: State, e: Event, now: real): State {
    var t := Touched(s, e, now);
    var u := match e.kind
      case Exec => Executed(p, norm, t, e)
      case Exit => t.(status := Exited, exitTs := if e.timestamp != 0 then Some(e.timestamp) else None,
                      exitedAt := Some(now))
      case _ => Counted(p, t, e);
    Recalculated(p, u)
  }

  /** A fanotify record joined to a state that eBPF created first. */
  function LateJoined(p: Policy, s: State, path: Option<string>, score: int, denied: bool, now: real): State {
    Recalculated(p, s.(source := LateBound, path := if NonEmpty(path).Some? then path else s.path,
                       preScore := score, lastSeen := now, status := if denied then Denied else s.status))
  }

  function Fresh(p: Policy, id: nat, generation: nat, pid: int, ppid: int, uid: int, source: Source, status: Status,
                 path: Option<string>, preScore: int, parent: Option<nat>, now: real): State {
    Recalculated(p, State(id, generation, pid, ppid, uid, source, status, path, None, preScore, 0, preScore,
                          Continue, parent, now, now, None, None, None, [], map[], {}, {}, {}, [],
                          "NOT_EXECUTED_STAGE11", None))
  }

  // ------------------------------------------------------------ the state invariant

  /** Weight times occurrences, summed over the five rules. */
  function Score(p: Policy, writes: int, renames: int, connects: int, children: int, mismatches: int): int {
    p.fileWrite.weight * writes + p.fileRename.weight * renames + p.connection.weight * connects +
    p.childExec.weight * children + p.mismatch.weight * mismatches
  }

  function Weighted(p: Policy, s: State): int {
    Score(p, Occurrences(s, FileWrite), Occurrences(s, FileRename), Occurrences(s, Connection),
          Occurrences(s, ChildExec), Occurrences(s, Mismatch))
  }

  /** Counts follow the distinct sets, capped. */
  predicate CountsOk(p: Policy, s: State) {
    && Occurrences(s, FileWrite) == Min(|s.files|, p.fileWrite.cap)
    && Occurrences(s, FileRename) == Min(|s.renames|, p.fileRename.cap)
    && Occurrences(s, Connection) == Min(|s.connections|, p.connection.cap)
    && 0 <= Occurrences(s, ChildExec) <= p.childExec.cap
    && 0 <= Occurrences(s, Mismatch) <= p.mismatch.cap
    && TotalWeight(s.indicators) == Weighted(p, s)
  }

  predicate ScoresOk(p: Policy, s: State) {
    && 0 <= s.preScore <= 100
    && (s.source == RuntimeOnly ==> s.preScore == 0)
    && s.runtimeScore == Min(100, Weighted(p, s))
    && s.combined == Min(100, s.preScore + s.runtimeScore)
  }

  /** A linked chain from "continue" whose ranks strictly increase after the first entry. */
  predicate ChainOk(ts: seq<Transition>) {
    && (ts != [] ==> ts[0].from == Continue)
    && (forall i | 0 < i < |ts| :: ts[i].from == ts[i - 1].to && Rank(ts[i].from) < Rank(ts[i].to))
  }

  predicate LadderOk(p: Policy, s: State) {
    && (s.action == Deny || s.action == Threshold(p, s.combined))
    && (s.status == Denied ==> s.action == Deny)
    && ChainOk(s.transitions)
    && (s.transitions == [] ==> s.action == Continue)
    && (s.transitions != [] ==> s.transitions[|s.transitions| - 1].to == s.action)
    && |s.transitions| <= 1 + Rank(s.action)
  }

  predicate StateOk(p: Policy, s: State) {
    CountsOk(p, s) && ScoresOk(p, s) && LadderOk(p, s) && s.transitions != []
  }

  // ------------------------------------------------------------ every step keeps it

  lemma TotalSnoc(items: seq<Indicator>, i: Indicator)
    ensures TotalWeight(items + [i]) == TotalWeight(items) + i.weight
  {
    assert (items + [i])[..|items + [i]| - 1] == items;
  }

  /** Re-scoring needs only sound counts and a combined score that has not dropped. */
  lemma RecalculatedOk(p: Policy, s: State)
    requires p.Validates() && CountsOk(p, s)
    requires 0 <= s.preScore <= 100 && (s.source == RuntimeOnly ==> s.preScore == 0)
    requires s.combined <= Min(100, s.preScore + Min(100, Weighted(p, s)))
    requires ChainOk(s.transitions) && |s.transitions| <= if s.transitions == [] then 0 else 1 + Rank(s.action)
    requires s.transitions == [] ==> s.action == Continue
    requires s.transitions != [] ==> s.transitions[|s.transitions| - 1].to == s.action
    requires s.action == Deny || Rank(s.action) <= Rank(Threshold(p, s.combined))
    ensures StateOk(p, Recalculated(p, s))
    ensures var t := Recalculated(p, s); s.combined <= t.combined && Rank(s.action) <= Rank(t.action)
    ensures Recalculated(p, s).action == Deny <==> s.status == Denied || s.action == Deny
  {
    hide CountsOk, Score, TotalWeight;
    RecalculatedCounts(p, s);
  }

  lemma RecalculatedCounts(p: Policy, s: State)
    requires CountsOk(p, s)
    ensures CountsOk(p, Recalculated(p, s)) && Weighted(p, Recalculated(p, s)) == Weighted(p, s)
    ensures TotalWeight(s.indicators) == Weighted(p, s)
  {
    hide TotalWeight, Score, ActionFor;
  }

  lemma RecalculatedKeeps(p: Policy, s: State, s0: State)
    requires p.Validates() && StateOk(p, s0) && CountsOk(p, s)
    requires s.preScore == s0.preScore && s.source == s0.source && s.combined == s0.combined
    requires s.action == s0.action && s.transitions == s0.transitions
    requires Weighted(p, s) >= Weighted(p, s0)
    ensures StateOk(p, Recalculated(p, s))
    ensures s0.combined <= Recalculated(p, s).combined && Rank(s0.action) <= Rank(Recalculated(p, s).action)
    ensures Recalculated(p, s).action == Deny <==> s.status == Denied || s0.action == Deny
  {
    RecalculatedOk(p, s);
  }

  /** The parts of a state that scoring reads but an event does not reset. */
  predicate SameScore(s: State, t: State) {
    && s.preScore == t.preScore && s.source == t.source && s.combined == t.combined
    && s.runtimeScore == t.runtimeScore && s.action == t.action && s.transitions == t.transitions
    && s.occurrences == t.occurrences && s.indicators == t.indicators
  }

  predicate SameSets(s: State, t: State) {
    s.files == t.files && s.renames == t.renames && s.connections == t.connections && s.status == t.status
  }

  /** A sound successor whose score and action have not gone down and whose denial is the same. */
  predicate Improves(p: Policy, s: State, t: State) {
    && StateOk(p, t) && s.combined <= t.combined && Rank(s.action) <= Rank(t.action)
    && (t.action == Deny <==> s.action == Deny)
  }

  function One(r: Rule, r': Rule): int {
    if r == r' then 1 else 0
  }

  lemma Distribute(w: int, n: int)
    ensures w * (n + 1) == w * n + w
  {
  }

  lemma ScorePlus(p: Policy, r: Rule, f: int, n: int, c: int, h: int, m: int)
    ensures Score(p, f + One(r, FileWrite), n + One(r, FileRename), c + One(r, Connection),
                  h + One(r, ChildExec), m + One(r, Mismatch)) == Score(p, f, n, c, h, m) + p.Spec(r).weight
  {
    match r {
      case FileWrite => Distribute(p.fileWrite.weight, f);
      case FileRename => Distribute(p.fileRename.weight, n);
      case Connection => Distribute(p.connection.weight, c);
      case ChildExec => Distribute(p.childExec.weight, h);
      case Mismatch => Distribute(p.mismatch.weight, m);
    }
  }

  lemma BumpedWeights(p: Policy, s: State, r: Rule)
    ensures var t := Bumped(p, s, r);
      TotalWeight(t.indicators) == TotalWeight(s.indicators) + p.Spec(r).weight &&
      Weighted(p, t) == Weighted(p, s) + p.Spec(r).weight
  {
    hide Score, TotalWeight, Policy.Spec;
    TotalSnoc(s.indicators, Indicator(r, p.Spec(r).weight, Occurrences(s, r) + 1));
    ScorePlus(p, r, Occurrences(s, FileWrite), Occurrences(s, FileRename), Occurrences(s, Connection),
              Occurrences(s, ChildExec), Occurrences(s, Mismatch));
  }

  /** Applying a rule to a state whose counts it completes. */
  lemma WithRuleKeeps(p: Policy, s0: State, s: State, r: Rule)
    requires p.Validates() && StateOk(p, s0) && SameScore(s0, s)
    requires s.status == Denied ==> s0.action == Deny
    requires if Occurrences(s, r) >= p.Spec(r).cap then CountsOk(p, s) else CountsOk(p, Bumped(p, s, r))
    ensures Improves(p, s0, Recalculated(p, WithRule(p, s, r)))
  {
    if Occurrences(s, r) >= p.Spec(r).cap {
      RecalculatedKeeps(p, s, s0);
    } else {
      BumpedWeights(p, s, r);
      RecalculatedKeeps(p, Bumped(p, s, r), s0);
      var t := Recalculated(p, Bumped(p, s, r));
      RecalculatedKeeps(p, t, t);
    }
  }

  lemma WriteKeeps(p: Policy, s0: State, s: State, k: string)
    requires p.Validates() && StateOk(p, s0) && SameScore(s0, s) && SameSets(s0, s) && k !in s.files
    ensures Improves(p, s0, Recalculated(p, WithRule(p, s.(files := s.files + {k}), FileWrite)))
  {
    var t := s.(files := s.files + {k});
    BumpedWeights(p, t, FileWrite);
    WithRuleKeeps(p, s0, t, FileWrite);
  }

  lemma RenameKeeps(p: Policy, s0: State, s: State, k: string)
    requires p.Validates() && StateOk(p, s0) && SameScore(s0, s) && SameSets(s0, s) && k !in s.renames
    ensures Improves(p, s0, Recalculated(p, WithRule(p, s.(renames := s.renames + {k}), FileRename)))
  {
    var t := s.(renames := s.renames + {k});
    BumpedWeights(p, t, FileRename);
    WithRuleKeeps(p, s0, t, FileRename);
  }

  lemma ConnectKeeps(p: Policy, s0: State, s: State, k: string)
    requires p.Validates() && StateOk(p, s0) && SameScore(s0, s) && SameSets(s0, s) && k !in s.connections
    ensures Improves(p, s0, Recalculated(p, WithRule(p, s.(connections := s.connections + {k}), Connection)))
  {
    var t := s.(connections := s.connections + {k});
    BumpedWeights(p, t, Connection);
    WithRuleKeeps(p, s0, t, Connection);
  }

  lemma CountedKeeps(p: Policy, s0: State, s: State, e: Event)
    requires p.Validates() && StateOk(p, s0) && SameScore(s0, s) && SameSets(s0, s)
    ensures Improves(p, s0, Recalculated(p, Counted(p, s, e)))
  {
    if Counted(p, s, e) == s {
      RecalculatedKeeps(p, s, s0);
    } else {
      match e.kind {
        case Write => WriteKeeps(p, s0, s, e.fileKey.value);
        case Rename => RenameKeeps(p, s0, s, RenameKey(e));
        case Connect => ConnectKeeps(p, s0, s, e.endpoint);
        case _ =>
      }
    }
  }

  lemma ExecutedKeeps(p: Policy, norm: string -> string, s0: State, s: State, e: Event)
    requires p.Validates() && StateOk(p, s0) && SameScore(s0, s) && SameSets(s0, s)
    ensures Improves(p, s0, Recalculated(p, Executed(p, norm, s, e)))
  {
    var t := s.(status := Active,
                execTs := if e.timestamp != 0 then Some(e.timestamp) else s.execTs,
                identifier := NonEmpty(e.identifier));
    if LexicallySame(norm, t.path, t.identifier) {
      RecalculatedKeeps(p, t, s0);
    } else {
      BumpedWeights(p, t, Mismatch);
      WithRuleKeeps(p, s0, t, Mismatch);
    }
  }

  /** One event: the invariant is kept, score and action never go down, and denial neither appears nor fades. */
  lemma DeliveredKeeps(p: Policy, norm: string -> string, s: State, e: Event, now: real)
    requires p.Validates() && StateOk(p, s)
    ensures Improves(p, s, Delivered(p, norm, s, e, now))
  {
    var t := Touched(s, e, now);
    match e.kind {
      case Exec => ExecutedKeeps(p, norm, s, t, e);
      case Exit =>
        var u := t.(status := Exited, exitTs := if e.timestamp != 0 then Some(e.timestamp) else None,
                    exitedAt := Some(now));
        RecalculatedKeeps(p, u, s);
      case _ => CountedKeeps(p, s, t, e);
    }
  }

  predicate LateBindable(s: State) {
    s.source == RuntimeOnly && (s.status == Active || s.status == PendingExec)
  }

  lemma LateJoinedKeeps(p: Policy, s: State, path: Option<string>, score: int, denied: bool, now: real)
    requires p.Validates() && StateOk(p, s) && LateBindable(s) && 0 <= score <= 100
    ensures var t := LateJoined(p, s, path, score, denied, now);
      && StateOk(p, t) && s.combined <= t.combined && Rank(s.action) <= Rank(t.action)
      && (t.action == Deny <==> denied || s.action == Deny) && !LateBindable(t)
  {
    RecalculatedOk(p, s.(source := LateBound, path := if NonEmpty(path).Some? then path else s.path,
                         preScore := score, lastSeen := now, status := if denied then Denied else s.status));
  }

  lemma FreshOk(p: Policy, id: nat, generation: nat, pid: int, ppid: int, uid: int, source: Source, status: Status,
                path: Option<string>, preScore: int, parent: Option<nat>, now: real)
    requires p.Validates() && 0 <= preScore <= 100 && (source == RuntimeOnly ==> preScore == 0)
    ensures var s := Fresh(p, id, generation, pid, ppid, uid, source, status, path, preScore, parent, now);
      StateOk(p, s) && (s.action == Deny <==> status == Denied)
  {
  }

  // ------------------------------------------------------------ one generation

  datatype Input =
    | Runtime(e: Event, at: real)
    | Late(path: Option<string>, score: int, denied: bool, at: real)

  function Take(p: Policy, norm: string -> string, s: State, i: Input): State {
    match i
    case Runtime(e, now) => Delivered(p, norm, s, e, now)
    case Late(path, score, denied, now) =>
      if LateBindable(s) then LateJoined(p, s, path, Max(0, Min(100, score)), denied, now) else s
  }

  /** The state of a generation after its first inputs. */
  function After(p: Policy, norm: string -> string, s: State, inputs: seq<Input>): State {
    if inputs == [] then s else Take(p, norm, After(p, norm, s, inputs[..|inputs| - 1]), inputs[|inputs| - 1])
  }

  lemma {:induction false} AfterOk(p: Policy, norm: string -> string, s: State, inputs: seq<Input>)
    requires p.Validates() && StateOk(p, s)
    ensures StateOk(p, After(p, norm, s, inputs))
  {
    if inputs != [] {
      AfterOk(p, norm, s, inputs[..|inputs| - 1]);
      TakeKeeps(p, norm, After(p, norm, s, inputs[..|inputs| - 1]), inputs[|inputs| - 1]);
    }
  }

  lemma TakeKeeps(p: Policy, norm: string -> string, s: State, i: Input)
    requires p.Validates() && StateOk(p, s)
    ensures var t := Take(p, norm, s, i);
      StateOk(p, t) && s.combined <= t.combined && Rank(s.action) <= Rank(t.action)
    ensures Take(p, norm, s, i).action == Deny <==> s.action == Deny || Take(p, norm, s, i).status == Denied
  {
    match i {
      case Runtime(e, now) => DeliveredKeeps(p, norm, s, e, now);
      case Late(path, score, denied, now) =>
        if LateBindable(s) {
          LateJoinedKeeps(p, s, path, Max(0, Min(100, score)), denied, now);
        }
    }
  }

  /**
   The action ladder over a whole generation: the combined score never decreases,
   the action is "deny" exactly when the generation was denied at some point and
   otherwise the one whose thresholds the score lies between, and the transition list is a
   linked chain of at most five entries with strictly rising ranks.
   */
  lemma {:induction false} Ladder(p: Policy, norm: string -> string, s: State, inputs: seq<Input>, k: nat)
    requires p.Validates() && StateOk(p, s) && (s.action == Deny <==> s.status == Denied) && k <= |inputs|
    ensures After(p, norm, s, inputs[..k]).combined <= After(p, norm, s, inputs).combined
    ensures var t := After(p, norm, s, inputs);
      && StateOk(p, t) && |t.transitions| <= 5
      && Calls(p, t.combined, DeniedBy(p, norm, s, inputs), t.action)
    decreases |inputs|
  {
    AfterOk(p, norm, s, inputs);
    DenyRemembered(p, norm, s, inputs);
    ThresholdCalls(p, After(p, norm, s, inputs).combined);
    if k == |inputs| {
      assert inputs[..k] == inputs;
    } else {
      var init := inputs[..|inputs| - 1];
      assert init[..k] == inputs[..k];
      Ladder(p, norm, s, init, k);
      TakeKeeps(p, norm, After(p, norm, s, init), inputs[|inputs| - 1]);
    }
  }

  /** The generation was in the denied status at some point. */
  predicate DeniedBy(p: Policy, norm: string -> string, s: State, inputs: seq<Input>) {
    exists k | 0 <= k <= |inputs| :: After(p, norm, s, inputs[..k]).status == Denied
  }

  lemma DeniedBySnoc(p: Policy, norm: string -> string, s: State, inputs: seq<Input>)
    requires inputs != []
    ensures DeniedBy(p, norm, s, inputs) <==>
            DeniedBy(p, norm, s, inputs[..|inputs| - 1]) || After(p, norm, s, inputs).status == Denied
  {
    hide After;
    var n := |inputs|;
    var init := inputs[..n - 1];
    assert inputs[..n] == inputs;
    assert forall k | 0 <= k < n :: init[..k] == inputs[..k];
    if DeniedBy(p, norm, s, init) {
      var k :| 0 <= k <= |init| && After(p, norm, s, init[..k]).status == Denied;
      assert After(p, norm, s, inputs[..k]).status == Denied;
    }
    if DeniedBy(p, norm, s, inputs) {
      var k :| 0 <= k <= n && After(p, norm, s, inputs[..k]).status == Denied;
      if k < n {
        assert After(p, norm, s, init[..k]).status == Denied;
      }
    }
  }

  lemma AfterSnoc(p: Policy, norm: string -> string, s: State, inputs: seq<Input>)
    requires inputs != []
    ensures After(p, norm, s, inputs) == Take(p, norm, After(p, norm, s, inputs[..|inputs| - 1]), inputs[|inputs| - 1])
  {
  }

  lemma DeniedByNothing(p: Policy, norm: string -> string, s: State)
    ensures After(p, norm, s, []) == s && (DeniedBy(p, norm, s, []) <==> s.status == Denied)
  {
    var none: seq<Input> := [];
    assert none[..0] == none;
  }

  lemma {:induction false} DenyRemembered(p: Policy, norm: string -> string, s: State, inputs: seq<Input>)
    requires p.Validates() && StateOk(p, s) && (s.action == Deny <==> s.status == Denied)
    ensures After(p, norm, s, inputs).action == Deny <==> DeniedBy(p, norm, s, inputs)
  {
    hide *;
    if inputs == [] {
      DeniedByNothing(p, norm, s);
    } else {
      var init := inputs[..|inputs| - 1];
      DenyRemembered(p, norm, s, init);
      AfterOk(p, norm, s, init);
      AfterSnoc(p, norm, s, inputs);
      TakeKeeps(p, norm, After(p, norm, s, init), inputs[|inputs| - 1]);
      DeniedBySnoc(p, norm, s, inputs);
    }
  }
}

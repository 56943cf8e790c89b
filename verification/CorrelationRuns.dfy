/**
 The correlation engine over whole runs: what its table always satisfies, and what
 happens to one process generation from its creation until it leaves the table.
 */
module CorrelationRuns {
  import opened Common
  import opened Correlation
  import opened CorrelationTheorems
  import opened CorrelationEngine

  // ------------------------------------------------------------ the table invariant

  /**
   The child rule fires at most once; what only eBPF has seen has no path, so it
   never mismatches and is never denied.
   */
  predicate SourceOk(s: State) {
    && Occurrences(s, ChildExec) <= 1
    && (s.source == RuntimeOnly ==> s.status != Denied && OnlyObserved(s))
  }

  predicate LiveOk(p: Policy, t: Table, s: State) {
    && StateOk(p, s) && s.pid > 0 && s.correlationId < t.nextId
    && s.pid in t.generations && t.generations[s.pid] == s.generation
    && SourceOk(s)
  }

  /** Identifiers grow along the table, and no process has two states. */
  predicate Ordered(states: seq<State>) {
    forall i, j | 0 <= i < j < |states| ::
      states[i].correlationId < states[j].correlationId && states[i].pid != states[j].pid
  }

  /** An archived generation is older than the process's current one, and its identifier is never used again. */
  predicate Past(p: Policy, t: Table, a: State) {
    && StateOk(p, a) && a.correlationId < t.nextId
    && a.pid in t.generations && a.generation <= t.generations[a.pid]
    && forall i | 0 <= i < |t.states| ::
      t.states[i].correlationId != a.correlationId &&
      (t.states[i].pid == a.pid ==> a.generation < t.states[i].generation)
  }

  predicate Inv(p: Policy, t: Table) {
    && |t.states| <= p.maxStates && |t.archived| <= ARCHIVE_LIMIT
    && (forall i | 0 <= i < |t.states| :: LiveOk(p, t, t.states[i]))
    && Ordered(t.states)
    && (forall i | 0 <= i < |t.archived| :: Past(p, t, t.archived[i]))
  }

  // ------------------------------------------------------------ one generation from step to step

  predicate Grows(s: State, t: State) {
    && t.pid == s.pid && t.generation == s.generation && t.parent == s.parent
    && s.combined <= t.combined && Rank(s.action) <= Rank(t.action)
    && (s.action == Deny ==> t.action == Deny)
    && (t.action == Deny ==> s.action == Deny || t.status == Denied)
    && (s.source != RuntimeOnly ==> t.source == s.source && t.preScore == s.preScore)
    && Occurrences(t, ChildExec) == Occurrences(s, ChildExec)
  }

  /** Where a live state comes from: an older state of the same identifier, or this very step. */
  predicate ComesFrom(t: Table, s': State) {
    if s'.correlationId < t.nextId then exists i | 0 <= i < |t.states| ::
      t.states[i].correlationId == s'.correlationId && Grows(t.states[i], s')
    else s'.action == Deny ==> s'.status == Denied
  }

  predicate Follows(t: Table, t': Table) {
    && t.nextId <= t'.nextId
    && (forall i | 0 <= i < |t'.states| :: ComesFrom(t, t'.states[i]))
    && (forall pid | pid in t.generations :: pid in t'.generations && t.generations[pid] <= t'.generations[pid])
  }

  /** Nothing live has changed; states may have gone, and eBPF-only ones may have come. */
  predicate Thins(t: Table, t': Table) {
    && t.nextId <= t'.nextId
    && (forall i | 0 <= i < |t'.states| :: Untouched(t, t'.states[i]))
    && (forall pid | pid in t.generations :: pid in t'.generations && t.generations[pid] <= t'.generations[pid])
  }

  predicate Untouched(t: Table, s': State) {
    if s'.correlationId < t.nextId then s' in t.states else s'.action != Deny
  }

  lemma ThinsTwice(t: Table, u: Table, v: Table)
    requires Thins(t, u) && Thins(u, v)
    ensures Thins(t, v)
  {
    forall i | 0 <= i < |v.states| ensures Untouched(t, v.states[i]) {
      var s' := v.states[i];
      assert Untouched(u, s');
      if s'.correlationId < u.nextId {
        var j :| 0 <= j < |u.states| && u.states[j] == s';
        assert Untouched(t, u.states[j]);
      }
    }
  }

  lemma ThinsThenFollows(t: Table, u: Table, v: Table)
    requires Thins(t, u) && Follows(u, v)
    ensures Follows(t, v)
  {
    forall i | 0 <= i < |v.states| ensures ComesFrom(t, v.states[i]) {
      var s' := v.states[i];
      assert ComesFrom(u, s');
      if s'.correlationId < u.nextId {
        var j :| 0 <= j < |u.states| && u.states[j].correlationId == s'.correlationId && Grows(u.states[j], s');
        assert Untouched(t, u.states[j]);
        if s'.correlationId < t.nextId {
          var k :| 0 <= k < |t.states| && t.states[k] == u.states[j];
          assert Grows(t.states[k], s');
        }
      }
    }
  }

  // ------------------------------------------------------------ removing

  lemma RemoveAtIndex<T>(s: seq<T>, i: nat, k: nat)
    requires i < |s| && k < |s| - 1
    ensures |RemoveAt(s, i)| == |s| - 1 && RemoveAt(s, i)[k] == s[if k < i then k else k + 1]
  {
  }

  lemma RemoveOrdered(states: seq<State>, i: nat)
    requires i < |states| && Ordered(states)
    ensures Ordered(RemoveAt(states, i))
    ensures forall k | 0 <= k < |states| - 1 ::
      var s := RemoveAt(states, i)[k];
      s in states && s.correlationId != states[i].correlationId && s.pid != states[i].pid
  {
    var r := RemoveAt(states, i);
    forall k | 0 <= k < |r| ensures r[k] == states[if k < i then k else k + 1] {
      RemoveAtIndex(states, i, k);
    }
  }

  lemma ArchivedKeeps(p: Policy, t: Table, i: nat)
    requires Inv(p, t) && i < |t.states|
    ensures Inv(p, Archived(t, i)) && Thins(t, Archived(t, i)) && |Archived(t, i).states| == |t.states| - 1
  {
    hide StateOk, RemoveAt;
    var u := Archived(t, i);
    RemoveOrdered(t.states, i);
    RemovedLength(t.states, i);
    assert LiveOk(p, t, t.states[i]);
    forall k | 0 <= k < |u.states| ensures LiveOk(p, u, u.states[k]) && Untouched(t, u.states[k]) {
      var j :| 0 <= j < |t.states| && t.states[j] == u.states[k];
      assert LiveOk(p, t, t.states[j]);
    }
    forall k | 0 <= k < |u.archived| ensures Past(p, u, u.archived[k]) {
      var all := t.archived + [t.states[i]];
      var k' := k + |all| - |u.archived|;
      assert u.archived[k] == all[k'];
      if k' < |t.archived| {
        PastStays(p, t, u, t.archived[k']);
      } else {
        PastNow(p, t, u, i);
      }
    }
  }

  lemma RemovedLength<T>(s: seq<T>, i: nat)
    requires i < |s|
    ensures |RemoveAt(s, i)| == |s| - 1
  {
  }

  lemma PastStays(p: Policy, t: Table, u: Table, a: State)
    requires Past(p, t, a) && u.generations == t.generations && u.nextId == t.nextId
    requires forall k | 0 <= k < |u.states| :: u.states[k] in t.states
    ensures Past(p, u, a)
  {
    hide StateOk;
  }

  lemma PastNow(p: Policy, t: Table, u: Table, i: nat)
    requires i < |t.states| && LiveOk(p, t, t.states[i]) && u.generations == t.generations && u.nextId == t.nextId
    requires forall k | 0 <= k < |u.states| ::
      u.states[k].correlationId != t.states[i].correlationId && u.states[k].pid != t.states[i].pid
    ensures Past(p, u, t.states[i])
  {
    hide StateOk;
  }

  lemma ThinsSelf(t: Table)
    ensures forall i | 0 <= i < |t.states| && t.states[i].correlationId < t.nextId :: Untouched(t, t.states[i])
    ensures (forall i | 0 <= i < |t.states| :: t.states[i].correlationId < t.nextId) ==> Thins(t, t)
  {
  }

  lemma IdsBelow(p: Policy, t: Table)
    requires Inv(p, t)
    ensures Thins(t, t)
  {
    hide StateOk;
    assert forall i | 0 <= i < |t.states| :: LiveOk(p, t, t.states[i]);
    ThinsSelf(t);
  }

  lemma ArchivedPidKeeps(p: Policy, t: Table, pid: int)
    requires Inv(p, t)
    ensures Inv(p, ArchivedPid(t, pid)) && Thins(t, ArchivedPid(t, pid))
    ensures IndexOf(ArchivedPid(t, pid).states, pid) == |ArchivedPid(t, pid).states|
  {
    hide StateOk, Archived, RemoveAt, Past, LiveOk;
    var i := IndexOf(t.states, pid);
    IdsBelow(p, t);
    if i < |t.states| {
      ArchivedKeeps(p, t, i);
      ArchivedStates(t, i);
      RemoveOrdered(t.states, i);
    }
  }

  lemma ArchivedStates(t: Table, i: nat)
    requires i < |t.states|
    ensures Archived(t, i).states == RemoveAt(t.states, i)
  {
  }

  lemma {:induction false} ArchivedAllKeeps(p: Policy, t: Table, pids: seq<int>)
    requires Inv(p, t)
    ensures Inv(p, ArchivedAll(t, pids)) && Thins(t, ArchivedAll(t, pids))
  {
    hide Inv, Thins, ArchivedPid;
    if pids == [] {
      IdsBelow(p, t);
    } else {
      var n := |pids| - 1;
      var u := ArchivedAll(t, pids[..n]);
      ArchivedAllKeeps(p, t, pids[..n]);
      ArchivedPidKeeps(p, u, pids[n]);
      ThinsTwice(t, u, ArchivedPid(u, pids[n]));
    }
  }

  lemma ExpiredKeeps(p: Policy, t: Table, now: real)
    requires Inv(p, t)
    ensures Inv(p, Expired(p, t, now)) && Thins(t, Expired(p, t, now))
  {
    hide Inv, Thins, ArchivedAll, StalePids;
    ArchivedAllKeeps(p, t, StalePids(p, t.states, now));
  }

  lemma EvictedKeeps(p: Policy, t: Table, pid: int)
    requires Inv(p, t) && p.maxStates > 0 && IndexOf(t.states, pid) == |t.states|
    ensures var u := Evicted(p, t);
      && Inv(p, u) && Thins(t, u) && u.nextId == t.nextId
      && |u.states| < p.maxStates && IndexOf(u.states, pid) == |u.states|
  {
    hide StateOk, Past, LiveOk, RemoveAt;
    IdsBelow(p, t);
    if t.states != [] && |t.states| >= p.maxStates {
      ArchivedKeeps(p, t, Oldest(t.states));
      RemoveOrdered(t.states, Oldest(t.states));
    }
  }

  // ------------------------------------------------------------ adding and updating

  function Appended(t: Table, s: State): Table {
    t.(states := t.states + [s], generations := t.generations[s.pid := s.generation], nextId := t.nextId + 1)
  }

  lemma AppendedInv(p: Policy, t: Table, s: State)
    requires Inv(p, t) && |t.states| < p.maxStates && IndexOf(t.states, s.pid) == |t.states|
    requires StateOk(p, s) && s.pid > 0 && s.correlationId == t.nextId && s.generation == NextGeneration(t, s.pid)
    requires SourceOk(s)
    ensures Inv(p, Appended(t, s))
  {
    hide StateOk, SourceOk;
    var u := Appended(t, s);
    forall k | 0 <= k < |u.states| ensures LiveOk(p, u, u.states[k]) {
      if k < |t.states| {
        assert LiveOk(p, t, t.states[k]);
      }
    }
    forall k | 0 <= k < |t.archived| ensures Past(p, u, t.archived[k]) {
      PastAppended(p, t, s, t.archived[k]);
    }
    AppendedOrdered(p, t, s);
  }

  lemma AppendedOrdered(p: Policy, t: Table, s: State)
    requires Ordered(t.states) && IndexOf(t.states, s.pid) == |t.states| && s.correlationId == t.nextId
    requires forall k | 0 <= k < |t.states| :: LiveOk(p, t, t.states[k])
    ensures Ordered(t.states + [s])
  {
    hide StateOk, SourceOk;
  }

  lemma PastAppended(p: Policy, t: Table, s: State, a: State)
    requires Past(p, t, a) && s.correlationId == t.nextId && s.generation == NextGeneration(t, s.pid)
    ensures Past(p, Appended(t, s), a)
  {
    hide StateOk;
  }

  lemma AppendedKeeps(p: Policy, t: Table, s: State)
    requires Inv(p, t) && |t.states| < p.maxStates && IndexOf(t.states, s.pid) == |t.states|
    requires StateOk(p, s) && s.pid > 0 && s.correlationId == t.nextId && s.generation == NextGeneration(t, s.pid)
    requires SourceOk(s)
    ensures Inv(p, Appended(t, s))
    ensures s.action != Deny ==> Thins(t, Appended(t, s))
    ensures (s.action == Deny ==> s.status == Denied) ==> Follows(t, Appended(t, s))
  {
    hide *;
    AppendedInv(p, t, s);
    LiveIds(p, t);
    if s.action != Deny {
      AppendedThins(t, s);
    }
    if s.action == Deny ==> s.status == Denied {
      AppendedFollows(t, s);
    }
  }

  lemma AppendedThins(t: Table, s: State)
    requires s.action != Deny && s.generation == NextGeneration(t, s.pid) && s.correlationId == t.nextId
    requires forall k | 0 <= k < |t.states| :: t.states[k].correlationId < t.nextId
    ensures Thins(t, Appended(t, s))
  {
  }

  lemma AppendedFollows(t: Table, s: State)
    requires s.action == Deny ==> s.status == Denied
    requires s.generation == NextGeneration(t, s.pid) && s.correlationId == t.nextId
    requires forall k | 0 <= k < |t.states| :: t.states[k].correlationId < t.nextId
    ensures Follows(t, Appended(t, s))
  {
    hide Occurrences;
    forall k | 0 <= k < |t.states| ensures ComesFrom(t, t.states[k]) {
      assert Grows(t.states[k], t.states[k]);
    }
  }

  lemma UpdatedKeeps(p: Policy, t: Table, i: nat, s': State)
    requires Inv(p, t) && i < |t.states| && StateOk(p, s') && Grows(t.states[i], s')
    requires s'.correlationId == t.states[i].correlationId
    requires SourceOk(s')
    ensures Inv(p, t.(states := t.states[i := s'])) && Follows(t, t.(states := t.states[i := s']))
  {
    hide StateOk;
    var u := t.(states := t.states[i := s']);
    forall k | 0 <= k < |u.states| ensures LiveOk(p, u, u.states[k]) && ComesFrom(t, u.states[k]) {
      assert LiveOk(p, t, t.states[k]);
      assert Grows(t.states[k], t.states[k]);
    }
    forall k | 0 <= k < |t.archived| ensures Past(p, u, t.archived[k]) {
      PastUpdated(p, t, i, s', t.archived[k]);
    }
  }

  lemma PastUpdated(p: Policy, t: Table, i: nat, s': State, a: State)
    requires Past(p, t, a) && i < |t.states|
    requires s'.pid == t.states[i].pid && s'.generation == t.states[i].generation
    requires s'.correlationId == t.states[i].correlationId
    ensures Past(p, t.(states := t.states[i := s']), a)
  {
    hide StateOk;
  }

  /** What an event that is not an execution, and every re-scoring, leaves alone. */
  predicate SameIdentity(s: State, t: State) {
    && t.pid == s.pid && t.generation == s.generation && t.parent == s.parent && t.correlationId == s.correlationId
    && t.source == s.source && t.preScore == s.preScore && Occurrences(t, ChildExec) == Occurrences(s, ChildExec)
  }

  lemma RecalculatedIdentity(p: Policy, s: State)
    ensures SameIdentity(s, Recalculated(p, s)) && Recalculated(p, s).status == s.status
  {
    hide TotalWeight, ActionFor, Min;
  }

  lemma WithRuleIdentity(p: Policy, s: State, r: Rule)
    requires r != ChildExec
    ensures SameIdentity(s, WithRule(p, s, r)) && WithRule(p, s, r).status == s.status
  {
    hide Recalculated;
    RecalculatedIdentity(p, Bumped(p, s, r));
  }

  lemma CountedIdentity(p: Policy, s: State, e: Event)
    ensures SameIdentity(s, Counted(p, s, e)) && Counted(p, s, e).status == s.status
  {
    hide WithRule;
    match e.kind {
      case Write =>
        if e.fileKey.Some? {
          WithRuleIdentity(p, s.(files := s.files + {e.fileKey.value}), FileWrite);
        }
      case Rename => WithRuleIdentity(p, s.(renames := s.renames + {RenameKey(e)}), FileRename);
      case Connect => WithRuleIdentity(p, s.(connections := s.connections + {e.endpoint}), Connection);
      case _ =>
    }
  }

  lemma ExecutedIdentity(p: Policy, norm: string -> string, s: State, e: Event)
    ensures SameIdentity(s, Executed(p, norm, s, e)) && Executed(p, norm, s, e).status == Active
  {
    hide WithRule, LexicallySame;
    WithRuleIdentity(p, s.(status := Active,
                           execTs := if e.timestamp != 0 then Some(e.timestamp) else s.execTs,
                           identifier := NonEmpty(e.identifier)), Mismatch);
  }

  lemma DeliveredIdentity(p: Policy, norm: string -> string, s: State, e: Event, now: real)
    ensures var t := Delivered(p, norm, s, e, now);
      SameIdentity(s, t) && (t.status == Denied ==> s.status == Denied)
  {
    hide Recalculated, Counted, Executed;
    var t := Touched(s, e, now);
    CountedIdentity(p, t, e);
    ExecutedIdentity(p, norm, t, e);
    var u := match e.kind
      case Exec => Executed(p, norm, t, e)
      case Exit => t.(status := Exited, exitTs := if e.timestamp != 0 then Some(e.timestamp) else None,
                      exitedAt := Some(now))
      case _ => Counted(p, t, e);
    RecalculatedIdentity(p, u);
  }

  lemma DeliveredGrows(p: Policy, norm: string -> string, t: Table, i: nat, e: Event, now: real)
    requires p.Validates() && Inv(p, t) && i < |t.states|
    ensures var s' := Delivered(p, norm, t.states[i], e, now);
      && StateOk(p, s') && Grows(t.states[i], s') && s'.correlationId == t.states[i].correlationId
      && SourceOk(s')
  {
    hide StateOk, Delivered, Policy.Validates, OnlyObserved;
    assert LiveOk(p, t, t.states[i]);
    DeliveredKeeps(p, norm, t.states[i], e, now);
    DeliveredIdentity(p, norm, t.states[i], e, now);
    if t.states[i].source == RuntimeOnly {
      ObservedOnce(p, norm, t.states[i], e, now);
    }
  }

  lemma ObservedOnce(p: Policy, norm: string -> string, s: State, e: Event, now: real)
    requires p.Validates() && StateOk(p, s) && OnlyObserved(s)
    ensures OnlyObserved(Delivered(p, norm, s, e, now))
  {
    hide StateOk, Delivered, Policy.Validates, OnlyObserved;
    var one := [Timed(e, now)];
    assert one[..0] == [];
    assert DeliveredAll(p, norm, s, []) == s;
    assert DeliveredAll(p, norm, s, one) == Delivered(p, norm, s, e, now);
    ObservedStays(p, norm, s, one);
  }

  lemma LateJoinedGrows(p: Policy, t: Table, i: nat, r: Record, now: real)
    requires p.Validates() && Inv(p, t) && i < |t.states| && LateBindable(t.states[i])
    ensures var s' := LateJoined(p, t.states[i], r.path, Clamp(r.score), r.denied, now);
      && StateOk(p, s') && Grows(t.states[i], s') && s'.correlationId == t.states[i].correlationId
      && SourceOk(s')
  {
    hide StateOk, Policy.Validates;
    assert LiveOk(p, t, t.states[i]);
    LateJoinedKeeps(p, t.states[i], r.path, Clamp(r.score), r.denied, now);
  }

  lemma FreshIdentity(p: Policy, id: nat, generation: nat, pid: int, ppid: int, uid: int, source: Source,
                      status: Status,
                      path: Option<string>, preScore: int, parent: Option<nat>, now: real)
    ensures var s := Fresh(p, id, generation, pid, ppid, uid, source, status, path, preScore, parent, now);
      && s.correlationId == id && s.generation == generation && s.pid == pid && s.source == source && s.status == status
      && s.path == path && Occurrences(s, ChildExec) == 0 && Occurrences(s, Mismatch) == 0 && SameScore(s, s)
  {
  }

  lemma ChildIdentity(p: Policy, s: State)
    requires Occurrences(s, ChildExec) == 0
    ensures var t := WithRule(p, s, ChildExec);
      && t.correlationId == s.correlationId && t.generation == s.generation && t.pid == s.pid && t.source == s.source
      && t.status == s.status && t.path == s.path
      && Occurrences(t, ChildExec) <= 1 && Occurrences(t, Mismatch) == Occurrences(s, Mismatch)
  {
  }

  lemma BumpedChild(p: Policy, s: State)
    requires CountsOk(p, s) && Occurrences(s, ChildExec) < p.childExec.cap
    ensures CountsOk(p, Bumped(p, s, ChildExec))
  {
    hide Score, Weighted;
    BumpedWeights(p, s, ChildExec);
  }

  lemma ChildOk(p: Policy, s: State)
    requires p.Validates() && StateOk(p, s) && s.status != Denied && s.action != Deny && Occurrences(s, ChildExec) == 0
    ensures StateOk(p, WithRule(p, s, ChildExec)) && WithRule(p, s, ChildExec).action != Deny
  {
    hide CountsOk, Score, Weighted, LadderOk, Recalculated, Policy.Maximum;
    if Occurrences(s, ChildExec) < p.childExec.cap {
      assert p.Spec(ChildExec).weight > 0;
      BumpedChild(p, s);
      BumpedWeights(p, s, ChildExec);
      RecalculatedKeeps(p, Bumped(p, s, ChildExec), s);
    }
  }

  function NewRuntime(p: Policy, t: Table, e: Event, parent: Option<nat>, now: real): State {
    var g := NextGeneration(t, e.pid);
    var s := Fresh(p, t.nextId, g, e.pid, e.ppid, e.uid, RuntimeOnly, Active, None, 0, parent, now);
    if parent.Some? && e.kind == Exec then WithRule(p, s, ChildExec) else s
  }

  lemma NewRuntimeOk(p: Policy, t: Table, e: Event, parent: Option<nat>, now: real)
    requires p.Validates()
    ensures var s := NewRuntime(p, t, e, parent, now);
      && StateOk(p, s) && SourceOk(s) && s.source == RuntimeOnly && s.pid == e.pid && s.correlationId == t.nextId
      && s.generation == NextGeneration(t, e.pid)
  {
    hide StateOk, Fresh, WithRule, Policy.Validates;
    var g := NextGeneration(t, e.pid);
    var s := Fresh(p, t.nextId, g, e.pid, e.ppid, e.uid, RuntimeOnly, Active, None, 0, parent, now);
    FreshIdentity(p, t.nextId, g, e.pid, e.ppid, e.uid, RuntimeOnly, Active, None, 0, parent, now);
    FreshOk(p, t.nextId, NextGeneration(t, e.pid), e.pid, e.ppid, e.uid, RuntimeOnly, Active, None, 0, parent, now);
    ChildIdentity(p, s);
    ChildOk(p, s);
  }

  lemma CreatedIs(p: Policy, t: Table, e: Event, now: real)
    ensures var u := Evicted(p, t);
      var s := NewRuntime(p, u, e, ParentOf(p, t, e.ppid, now), now);
      s.pid == e.pid && s.generation == NextGeneration(u, e.pid) ==> Created(p, t, e, now) == Appended(u, s)
  {
    hide Fresh, WithRule, Evicted, ParentOf;
    var u := Evicted(p, t);
    var s := Fresh(p, u.nextId, NextGeneration(u, e.pid), e.pid, e.ppid, e.uid, RuntimeOnly, Active, None, 0,
                   ParentOf(p, t, e.ppid, now), now);
    assert (u.states + [s])[|u.states| := WithRule(p, s, ChildExec)] == u.states + [WithRule(p, s, ChildExec)];
  }

  lemma CreatedKeeps(p: Policy, t: Table, e: Event, now: real)
    requires p.Validates() && Inv(p, t) && e.pid > 0 && IndexOf(t.states, e.pid) == |t.states|
    ensures var u := Created(p, t, e, now);
      && Inv(p, u) && Thins(t, u) && |u.states| > 0 && u.states[|u.states| - 1].pid == e.pid
  {
    hide Inv, Thins, Evicted, NewRuntime, Created, ParentOf, StateOk, SourceOk;
    StatesPositive(p);
    var u := Evicted(p, t);
    var parent := ParentOf(p, t, e.ppid, now);
    var s := NewRuntime(p, u, e, parent, now);
    EvictedKeeps(p, t, e.pid);
    NewRuntimeOk(p, u, e, parent, now);
    NotDenied(s);
    AppendedKeeps(p, u, s);
    CreatedIs(p, t, e, now);
    ThinsTwice(t, u, Appended(u, s));
  }

  lemma StatesPositive(p: Policy)
    requires p.Validates()
    ensures p.maxStates > 0
  {
  }

  lemma NotDenied(s: State)
    requires SourceOk(s) && s.source == RuntimeOnly
    ensures s.action != Deny && s.status != Denied
  {
  }

  lemma WithStateKeeps(p: Policy, t: Table, e: Event, now: real)
    requires p.Validates() && Inv(p, t) && e.pid > 0
    ensures var u := WithState(p, t, e, now); Inv(p, u) && Thins(t, u) && IndexOf(u.states, e.pid) < |u.states|
  {
    hide Inv, Thins, Created;
    if IndexOf(t.states, e.pid) < |t.states| {
      IdsBelow(p, t);
    } else {
      CreatedKeeps(p, t, e, now);
    }
  }

  lemma GivenKeeps(p: Policy, norm: string -> string, t: Table, e: Event, now: real)
    requires p.Validates() && Inv(p, t) && IndexOf(t.states, e.pid) < |t.states|
    ensures Inv(p, Given(p, norm, t, e, now)) && Follows(t, Given(p, norm, t, e, now))
  {
    hide Inv, Follows, Delivered, Grows, SourceOk, StateOk;
    var i := IndexOf(t.states, e.pid);
    DeliveredGrows(p, norm, t, i, e, now);
    UpdatedKeeps(p, t, i, Delivered(p, norm, t.states[i], e, now));
  }

  lemma TouchedGrows(p: Policy, t: Table, i: nat, e: Event, now: real)
    requires Inv(p, t) && i < |t.states|
    ensures var s' := Touched(t.states[i], e, now);
      && StateOk(p, s') && Grows(t.states[i], s') && SourceOk(s')
      && s'.correlationId == t.states[i].correlationId && s'.pid == t.states[i].pid
  {
    assert LiveOk(p, t, t.states[i]);
  }

  lemma TouchedThenRemoved(t: Table, i: nat, s': State)
    requires i < |t.states| && forall k | 0 <= k < |t.states| :: t.states[k].correlationId < t.nextId
    ensures Thins(t, Archived(t.(states := t.states[i := s']), i))
  {
    var r := RemoveAt(t.states[i := s'], i);
    forall k | 0 <= k < |r| ensures r[k] in t.states {
      assert r[k] == t.states[if k < i then k else k + 1];
    }
  }

  lemma ReplacedKeeps(p: Policy, t: Table, i: nat, e: Event, now: real)
    requires p.Validates() && Inv(p, t) && e.pid > 0 && i < |t.states| && t.states[i].pid == e.pid
    ensures var u := Replaced(p, t, i, e, now); Inv(p, u) && Thins(t, u) && IndexOf(u.states, e.pid) < |u.states|
  {
    hide Inv, Thins, Touched, WithState, Archived, StateOk, SourceOk, Grows;
    var s' := Touched(t.states[i], e, now);
    var v := t.(states := t.states[i := s']);
    TouchedGrows(p, t, i, e, now);
    UpdatedKeeps(p, t, i, s');
    ArchivedKeeps(p, v, i);
    LiveIds(p, t);
    TouchedThenRemoved(t, i, s');
    WithStateKeeps(p, Archived(v, i), e, now);
    ThinsTwice(t, Archived(v, i), Replaced(p, t, i, e, now));
  }

  lemma LiveIds(p: Policy, t: Table)
    requires Inv(p, t)
    ensures forall k | 0 <= k < |t.states| :: t.states[k].correlationId < t.nextId
  {
    forall k | 0 <= k < |t.states| ensures t.states[k].correlationId < t.nextId {
      assert LiveOk(p, t, t.states[k]);
    }
  }

  lemma HandledKeeps(p: Policy, norm: string -> string, t: Table, e: Event, now: real)
    requires p.Validates() && Inv(p, t) && e.pid > 0 && IndexOf(t.states, e.pid) < |t.states|
    ensures Inv(p, Handled(p, norm, t, e, now)) && Follows(t, Handled(p, norm, t, e, now))
  {
    hide Inv, Follows, Thins, Replaced, Given, Replaces;
    var i := IndexOf(t.states, e.pid);
    if Replaces(t.states[i], e) {
      var u := Replaced(p, t, i, e, now);
      ReplacedKeeps(p, t, i, e, now);
      GivenKeeps(p, norm, u, e, now);
      ThinsThenFollows(t, u, Given(p, norm, u, e, now));
    } else {
      GivenKeeps(p, norm, t, e, now);
    }
  }

  lemma ThinsFollows(p: Policy, t: Table, u: Table)
    requires Inv(p, t) && Thins(t, u)
    ensures Follows(t, u)
  {
    hide StateOk;
    forall i | 0 <= i < |u.states| ensures ComesFrom(t, u.states[i]) {
      assert Untouched(t, u.states[i]);
      if u.states[i].correlationId < t.nextId {
        var k :| 0 <= k < |t.states| && t.states[k] == u.states[i];
        assert Grows(t.states[k], u.states[i]);
      }
    }
  }

  lemma IngestedKeeps(p: Policy, norm: string -> string, t: Table, e: Event, now: real)
    requires p.Validates() && Inv(p, t)
    ensures Inv(p, Ingested(p, norm, t, e, now)) && Follows(t, Ingested(p, norm, t, e, now))
  {
    hide Inv, Follows, Thins, Expired, WithState, Handled;
    var u := Expired(p, t, now);
    ExpiredKeeps(p, t, now);
    if e.pid <= 0 {
      ThinsFollows(p, t, u);
    } else {
      var v := WithState(p, u, e, now);
      WithStateKeeps(p, u, e, now);
      HandledKeeps(p, norm, v, e, now);
      ThinsTwice(t, u, v);
      ThinsThenFollows(t, v, Handled(p, norm, v, e, now));
    }
  }

  function NewRegistered(p: Policy, t: Table, r: Record, now: real): State {
    Fresh(p, t.nextId, NextGeneration(t, r.pid), r.pid, 0, 0, Source.Fanotify, if r.denied then Denied else PendingExec,
          NonEmpty(r.path), Clamp(r.score), None, now)
  }

  lemma NewRegisteredOk(p: Policy, t: Table, r: Record, now: real)
    requires p.Validates()
    ensures var s := NewRegistered(p, t, r, now);
      && StateOk(p, s) && SourceOk(s) && s.pid == r.pid && s.correlationId == t.nextId
      && s.generation == NextGeneration(t, r.pid) && (s.action == Deny ==> s.status == Denied)
  {
    hide StateOk, Fresh, Policy.Validates;
    var status := if r.denied then Denied else PendingExec;
    FreshIdentity(p, t.nextId, NextGeneration(t, r.pid), r.pid, 0, 0, Source.Fanotify, status, NonEmpty(r.path),
                  Clamp(r.score), None, now);
    FreshOk(p, t.nextId, NextGeneration(t, r.pid), r.pid, 0, 0, Source.Fanotify, status, NonEmpty(r.path),
            Clamp(r.score), None, now);
  }

  lemma AddRegisteredKeeps(p: Policy, t: Table, r: Record, now: real)
    requires p.Validates() && Inv(p, t) && r.pid > 0 && IndexOf(t.states, r.pid) == |t.states|
    ensures var u := Added(p, Evicted(p, t), r.pid, 0, 0, Source.Fanotify, if r.denied then Denied else PendingExec,
                           NonEmpty(r.path), Clamp(r.score), None, now);
      Inv(p, u) && Follows(t, u)
  {
    hide Inv, Follows, Thins, Evicted, StateOk, SourceOk, Fresh;
    StatesPositive(p);
    var v := Evicted(p, t);
    var s := NewRegistered(p, v, r, now);
    EvictedKeeps(p, t, r.pid);
    NewRegisteredOk(p, v, r, now);
    AppendedKeeps(p, v, s);
    ThinsThenFollows(t, v, Appended(v, s));
  }

  lemma BindKeeps(p: Policy, t: Table, i: nat, r: Record, now: real)
    requires p.Validates() && Inv(p, t) && i < |t.states| && LateBindable(t.states[i])
    ensures var u := t.(states := t.states[i := LateJoined(p, t.states[i], r.path, Clamp(r.score), r.denied, now)]);
      Inv(p, u) && Follows(t, u)
  {
    hide Inv, Follows, LateJoined, StateOk, SourceOk, Grows, LateBindable;
    LateJoinedGrows(p, t, i, r, now);
    UpdatedKeeps(p, t, i, LateJoined(p, t.states[i], r.path, Clamp(r.score), r.denied, now));
  }

  lemma RegisteredKeeps(p: Policy, t: Table, r: Record, now: real)
    requires p.Validates() && Inv(p, t)
    ensures Inv(p, Registered(p, t, r, now)) && Follows(t, Registered(p, t, r, now))
  {
    hide Inv, Follows, Thins, Expired, Evicted, Added, ArchivedPid, LateJoined, LateBindable, NonEmpty, Clamp;
    var u := Expired(p, t, now);
    ExpiredKeeps(p, t, now);
    if r.pid <= 0 {
      ThinsFollows(p, t, u);
    } else {
      var i := IndexOf(u.states, r.pid);
      if i < |u.states| && Binds(p, u.states[i], now) {
        BindKeeps(p, u, i, r, now);
      } else {
        var v := ArchivedPid(u, r.pid);
        ArchivedPidKeeps(p, u, r.pid);
        AddRegisteredKeeps(p, v, r, now);
        ThinsThenFollows(u, v, Registered(p, t, r, now));
      }
      ThinsThenFollows(t, u, Registered(p, t, r, now));
    }
  }

  lemma ActedKeeps(p: Policy, t: Table, pid: int, id: nat, result: ActionResult, now: real)
    requires Inv(p, t)
    ensures Inv(p, Acted(t, pid, id, result, now)) && Follows(t, Acted(t, pid, id, result, now))
  {
    hide Inv, Follows, StateOk;
    var i := IndexOf(t.states, pid);
    if OwnedBy(t, pid, id) {
      ActedGrows(p, t, i, result, now);
      UpdatedKeeps(p, t, i, WithResult(t.states[i], result, now));
    } else {
      IdsBelow(p, t);
      ThinsFollows(p, t, t);
    }
  }

  /**
   A result reaches exactly the state of that process and that generation; a result
   that comes after the generation was replaced or archived changes nothing.
   */
  lemma ResultMeaning(p: Policy, t: Table, pid: int, id: nat, result: ActionResult, now: real)
    requires Inv(p, t)
    ensures var u := Acted(t, pid, id, result, now);
      && u == t.(states := u.states) && |u.states| == |t.states|
      && (forall k | 0 <= k < |t.states| ::
        var s := t.states[k];
        u.states[k] == if s.pid == pid && s.correlationId == id then WithResult(s, result, now) else s)
      && ((forall k | 0 <= k < |t.states| :: t.states[k].correlationId != id) ==> u == t)
  {
  }

  lemma ActedGrows(p: Policy, t: Table, i: nat, result: ActionResult, now: real)
    requires Inv(p, t) && i < |t.states|
    ensures var s' := WithResult(t.states[i], result, now); StateOk(p, s') && Grows(t.states[i], s') && SourceOk(s')
  {
    assert LiveOk(p, t, t.states[i]);
  }

  lemma ExpireKeeps(p: Policy, t: Table, now: real)
    requires Inv(p, t)
    ensures Inv(p, Expired(p, t, now)) && Follows(t, Expired(p, t, now))
  {
    hide Inv, Thins, Expired, Follows;
    ExpiredKeeps(p, t, now);
    ThinsFollows(p, t, Expired(p, t, now));
  }

  // ------------------------------------------------------------ runs

  datatype Op =
    | Register(r: Record, at: real)
    | Ingest(e: Event, at: real)
    | Result(pid: int, id: nat, result: ActionResult, at: real)
    | Expire(at: real)

  function Apply(p: Policy, norm: string -> string, t: Table, op: Op): Table {
    match op
    case Register(r, at) => Registered(p, t, r, at)
    case Ingest(e, at) => Ingested(p, norm, t, e, at)
    case Result(pid, id, result, at) => Acted(t, pid, id, result, at)
    case Expire(at) => Expired(p, t, at)
  }

  function Run(p: Policy, norm: string -> string, ops: seq<Op>): Table {
    if ops == [] then EMPTY else Apply(p, norm, Run(p, norm, ops[..|ops| - 1]), ops[|ops| - 1])
  }

  lemma ApplyKeeps(p: Policy, norm: string -> string, t: Table, op: Op)
    requires p.Validates() && Inv(p, t)
    ensures Inv(p, Apply(p, norm, t, op)) && Follows(t, Apply(p, norm, t, op))
  {
    hide Inv, Follows, Registered, Ingested, Acted, Policy.Validates;
    match op {
      case Register(r, at) => RegisteredKeeps(p, t, r, at);
      case Ingest(e, at) => IngestedKeeps(p, norm, t, e, at);
      case Result(pid, id, result, at) => ActedKeeps(p, t, pid, id, result, at);
      case Expire(at) => ExpireKeeps(p, t, at);
    }
  }

  /**
   After any operations in any order: every live state is sound, the table and the
   archive are bounded, no process has two states, no identifier is used twice, and
   every archived generation of a process is older than its live one.
   */
  lemma {:induction false} RunKeeps(p: Policy, norm: string -> string, ops: seq<Op>)
    requires p.Validates()
    ensures Inv(p, Run(p, norm, ops))
  {
    if ops == [] {
      assert p.maxStates > 0;
    } else {
      hide Inv, Apply, Policy.Validates;
      var n := |ops| - 1;
      RunKeeps(p, norm, ops[..n]);
      ApplyKeeps(p, norm, Run(p, norm, ops[..n]), ops[n]);
    }
  }

  /** The generation with this identifier was live and in the denied status after some prefix of the run. */
  predicate EverDenied(p: Policy, norm: string -> string, ops: seq<Op>, id: nat) {
    exists k | 0 <= k <= |ops| :: DeniedIn(Run(p, norm, ops[..k]), id)
  }

  predicate DeniedIn(t: Table, id: nat) {
    exists i | 0 <= i < |t.states| :: t.states[i].correlationId == id && t.states[i].status == Denied
  }

  lemma DeniedSnoc(p: Policy, norm: string -> string, ops: seq<Op>, id: nat)
    requires ops != []
    ensures EverDenied(p, norm, ops, id) <==>
            EverDenied(p, norm, ops[..|ops| - 1], id) || DeniedIn(Run(p, norm, ops), id)
  {
    hide Run, DeniedIn;
    var n := |ops|;
    var init := ops[..n - 1];
    assert ops[..n] == ops;
    assert forall k | 0 <= k < n :: init[..k] == ops[..k];
    if EverDenied(p, norm, init, id) {
      var k :| 0 <= k <= |init| && DeniedIn(Run(p, norm, init[..k]), id);
      assert DeniedIn(Run(p, norm, ops[..k]), id);
    }
    if EverDenied(p, norm, ops, id) {
      var k :| 0 <= k <= n && DeniedIn(Run(p, norm, ops[..k]), id);
      if k < n {
        assert DeniedIn(Run(p, norm, init[..k]), id);
      }
    }
  }

  lemma RunSnoc(p: Policy, norm: string -> string, ops: seq<Op>)
    requires ops != []
    ensures Run(p, norm, ops) == Apply(p, norm, Run(p, norm, ops[..|ops| - 1]), ops[|ops| - 1])
  {
  }

  /** In every table of a run, "deny" is recommended exactly for the generations that have been denied. */
  ghost predicate DenyExact(p: Policy, norm: string -> string, ops: seq<Op>, t: Table) {
    forall i | 0 <= i < |t.states| ::
      t.states[i].action == Deny <==> EverDenied(p, norm, ops, t.states[i].correlationId)
  }

  /** An identifier not handed out yet has not been denied. */
  ghost predicate FutureClean(p: Policy, norm: string -> string, ops: seq<Op>, t: Table) {
    forall id | id >= t.nextId :: !EverDenied(p, norm, ops, id)
  }

  lemma DeniedIsLive(p: Policy, t: Table, id: nat)
    requires Inv(p, t) && DeniedIn(t, id)
    ensures id < t.nextId
    ensures exists i | 0 <= i < |t.states| :: t.states[i].correlationId == id && t.states[i].action == Deny
  {
    var i :| 0 <= i < |t.states| && t.states[i].correlationId == id && t.states[i].status == Denied;
    assert LiveOk(p, t, t.states[i]);
  }

  /** One more operation keeps "deny exactly when denied", for one live state. */
  lemma DenyStep(p: Policy, norm: string -> string, ops: seq<Op>, t: Table, u: Table, i: nat)
    requires ops != [] && Inv(p, u) && Follows(t, u) && u == Run(p, norm, ops) && i < |u.states|
    requires DenyExact(p, norm, ops[..|ops| - 1], t) && FutureClean(p, norm, ops[..|ops| - 1], t)
    ensures u.states[i].action == Deny <==> EverDenied(p, norm, ops, u.states[i].correlationId)
  {
    hide Run, EverDenied, StateOk;
    var s := u.states[i];
    var init := ops[..|ops| - 1];
    DeniedSnoc(p, norm, ops, s.correlationId);
    assert ComesFrom(t, s) && LiveOk(p, u, s);
    if s.correlationId < t.nextId {
      var j :| 0 <= j < |t.states| && t.states[j].correlationId == s.correlationId && Grows(t.states[j], s);
      assert t.states[j].action == Deny <==> EverDenied(p, norm, init, s.correlationId);
    }
    if DeniedIn(u, s.correlationId) {
      DeniedIsLive(p, u, s.correlationId);
      var j :| 0 <= j < |u.states| && u.states[j].correlationId == s.correlationId && u.states[j].action == Deny;
      assert j == i;
    }
  }

  lemma {:induction false} RunDeny(p: Policy, norm: string -> string, ops: seq<Op>)
    requires p.Validates()
    ensures DenyExact(p, norm, ops, Run(p, norm, ops)) && FutureClean(p, norm, ops, Run(p, norm, ops))
  {
    hide Apply, Policy.Validates, Inv, EverDenied, Follows;
    var u := Run(p, norm, ops);
    RunKeeps(p, norm, ops);
    if ops == [] {
      NothingDenied(p, norm);
    } else {
      var n := |ops| - 1;
      var t := Run(p, norm, ops[..n]);
      RunKeeps(p, norm, ops[..n]);
      RunDeny(p, norm, ops[..n]);
      ApplyKeeps(p, norm, t, ops[n]);
      forall i | 0 <= i < |u.states|
        ensures u.states[i].action == Deny <==> EverDenied(p, norm, ops, u.states[i].correlationId)
      {
        DenyStep(p, norm, ops, t, u, i);
      }
      forall id | id >= u.nextId ensures !EverDenied(p, norm, ops, id) {
        FutureStep(p, norm, ops, t, u, id);
      }
    }
  }

  lemma FutureStep(p: Policy, norm: string -> string, ops: seq<Op>, t: Table, u: Table, id: nat)
    requires ops != [] && Inv(p, u) && Follows(t, u) && u == Run(p, norm, ops) && id >= u.nextId
    requires FutureClean(p, norm, ops[..|ops| - 1], t)
    ensures !EverDenied(p, norm, ops, id)
  {
    hide Run, EverDenied, Inv, DeniedIn;
    DeniedSnoc(p, norm, ops, id);
    if DeniedIn(u, id) {
      DeniedIsLive(p, u, id);
    }
  }

  lemma NothingDenied(p: Policy, norm: string -> string)
    ensures forall id: nat :: !EverDenied(p, norm, [], id)
  {
    var none: seq<Op> := [];
    assert none[..0] == none;
    assert Run(p, norm, none) == EMPTY;
  }

  /**
   The action ladder over a whole run of the engine: for every live state the
   recommended action is "deny" exactly when its generation was denied at some point
   of the run, and otherwise the one whose thresholds its score lies between.
   */
  lemma RunLadder(p: Policy, norm: string -> string, ops: seq<Op>, i: nat)
    requires p.Validates() && i < |Run(p, norm, ops).states|
    ensures var s := Run(p, norm, ops).states[i];
      && Calls(p, s.combined, EverDenied(p, norm, ops, s.correlationId), s.action)
      && ChainOk(s.transitions) && |s.transitions| <= 5
  {
    hide Run, EverDenied, Policy.Validates, ScoresOk, CountsOk;
    var t := Run(p, norm, ops);
    RunKeeps(p, norm, ops);
    RunDeny(p, norm, ops);
    assert LiveOk(p, t, t.states[i]);
    ThresholdCalls(p, t.states[i].combined);
  }

  // ------------------------------------------------------------ one identifier through time

  predicate Later(s: State, t: State) {
    && t.pid == s.pid && t.generation == s.generation && t.parent == s.parent
    && s.combined <= t.combined && Rank(s.action) <= Rank(t.action)
    && (s.source != RuntimeOnly ==> t.source == s.source && t.preScore == s.preScore)
    && Occurrences(t, ChildExec) == Occurrences(s, ChildExec)
  }

  ghost predicate Came(t: Table, s': State) {
    exists i | 0 <= i < |t.states| :: t.states[i].correlationId == s'.correlationId && Later(t.states[i], s')
  }

  /**
   An identifier once handed out and gone never returns; while it stays, it names
   the same generation of the same process, its score and action only rise, and a
   pre-execution score, once bound, is never bound again.
   */
  lemma {:induction false} NeverReturns(p: Policy, norm: string -> string, ops: seq<Op>, k: nat, s': State)
    requires p.Validates() && k <= |ops| && s' in Run(p, norm, ops).states
    requires s'.correlationId < Run(p, norm, ops[..k]).nextId
    ensures Came(Run(p, norm, ops[..k]), s')
    decreases |ops|
  {
    if k == |ops| {
      assert ops[..k] == ops;
      CameSelf(Run(p, norm, ops), s');
    } else {
      hide *;
      var init := ops[..|ops| - 1];
      assert init[..k] == ops[..k];
      RunKeeps(p, norm, init);
      RunSnoc(p, norm, ops);
      ApplyKeeps(p, norm, Run(p, norm, init), ops[|ops| - 1]);
      IdsGrow(p, norm, init, k);
      var m := Before(Run(p, norm, init), Run(p, norm, ops), s');
      NeverReturns(p, norm, init, k, m);
      LaterStep(Run(p, norm, ops[..k]), m, s');
    }
  }

  lemma CameSelf(t: Table, s': State)
    requires s' in t.states
    ensures Came(t, s')
  {
    assert Later(s', s');
  }

  lemma Before(t: Table, u: Table, s': State) returns (m: State)
    requires Follows(t, u) && s' in u.states && s'.correlationId < t.nextId
    ensures m in t.states && m.correlationId == s'.correlationId && Grows(m, s')
  {
    hide Grows;
    var i :| 0 <= i < |u.states| && u.states[i] == s';
    assert ComesFrom(t, s');
    var j :| 0 <= j < |t.states| && t.states[j].correlationId == s'.correlationId && Grows(t.states[j], s');
    m := t.states[j];
  }

  lemma LaterStep(t: Table, m: State, s': State)
    requires Came(t, m) && Grows(m, s') && m.correlationId == s'.correlationId
    ensures Came(t, s')
  {
    var i :| 0 <= i < |t.states| && t.states[i].correlationId == m.correlationId && Later(t.states[i], m);
    assert Later(t.states[i], s');
  }

  lemma {:induction false} IdsGrow(p: Policy, norm: string -> string, ops: seq<Op>, k: nat)
    requires p.Validates() && k <= |ops|
    ensures Run(p, norm, ops[..k]).nextId <= Run(p, norm, ops).nextId
    decreases |ops|
  {
    if k == |ops| {
      assert ops[..k] == ops;
    } else {
      hide Run, Policy.Validates, Inv, Apply;
      var init := ops[..|ops| - 1];
      assert init[..k] == ops[..k];
      IdsGrow(p, norm, init, k);
      RunKeeps(p, norm, init);
      RunSnoc(p, norm, ops);
      ApplyKeeps(p, norm, Run(p, norm, init), ops[|ops| - 1]);
    }
  }

  /**
   The gap in the configuration check, at the engine: when the maxima of file writes,
   renames, connections and one child execution fall short of the quarantine
   threshold, no process known only from eBPF is ever recommended for quarantine.
   */
  lemma ShortMaximaNeverQuarantine(p: Policy, norm: string -> string, ops: seq<Op>, i: nat)
    requires p.Validates() && i < |Run(p, norm, ops).states|
    requires ObservableMaximum(p) + p.childExec.weight < p.quarantineMin
    ensures var s := Run(p, norm, ops).states[i]; s.source == RuntimeOnly ==> s.action != Quarantine
  {
    hide Run, ObservableMaximum;
    var t := Run(p, norm, ops);
    var s := t.states[i];
    RunKeeps(p, norm, ops);
    assert LiveOk(p, t, s);
    if s.source == RuntimeOnly && s.action == Quarantine {
      QuarantineNeeds(p, s);
      assert p.Spec(ChildExec).weight > 0;
      Scale(p.childExec.weight, Occurrences(s, ChildExec), 1);
      assert false;
    }
  }

  // ------------------------------------------------------------ expiry

  lemma {:induction false} StaleOnes(p: Policy, states: seq<State>, now: real, k: nat)
    requires k < |states|
    ensures Stale(p, states[k], now) ==> states[k].pid in StalePids(p, states, now)
  {
    var n := |states| - 1;
    if k < n {
      StaleOnes(p, states[..n], now, k);
    }
  }

  lemma {:induction false} OnlyStale(p: Policy, states: seq<State>, now: real, pid: int)
    requires pid in StalePids(p, states, now)
    ensures exists k | 0 <= k < |states| :: states[k].pid == pid && Stale(p, states[k], now)
  {
    var n := |states| - 1;
    if pid in StalePids(p, states[..n], now) {
      OnlyStale(p, states[..n], now, pid);
      var k :| 0 <= k < n && states[..n][k].pid == pid && Stale(p, states[..n][k], now);
      assert states[k].pid == pid;
    } else {
      assert states[n].pid == pid;
    }
  }

  lemma OneLess(p: Policy, t: Table, pid: int, s: State)
    requires Inv(p, t)
    ensures s in ArchivedPid(t, pid).states <==> s in t.states && s.pid != pid
  {
    hide StateOk, LiveOk, Past;
    var i := IndexOf(t.states, pid);
    if i < |t.states| {
      RemoveOrdered(t.states, i);
      if s in t.states && s.pid != pid {
        var j :| 0 <= j < |t.states| && t.states[j] == s;
        RemoveAtIndex(t.states, i, if j < i then j else j - 1);
      }
    }
  }

  lemma {:induction false} AllLess(p: Policy, t: Table, pids: seq<int>, s: State)
    requires Inv(p, t)
    ensures s in ArchivedAll(t, pids).states <==> s in t.states && s.pid !in pids
  {
    hide *;
    if pids == [] {
      AllOfNone(t);
    } else {
      var n := |pids| - 1;
      var init, last := pids[..n], pids[n];
      AllLess(p, t, init, s);
      ArchivedAllKeeps(p, t, init);
      OneLess(p, ArchivedAll(t, init), last, s);
      AllStep(t, pids);
      InSnoc(init, last, s.pid);
      assert pids == init + [last];
    }
  }

  lemma AllOfNone(t: Table)
    ensures ArchivedAll(t, []) == t
  {
  }

  lemma AllStep(t: Table, pids: seq<int>)
    requires pids != []
    ensures ArchivedAll(t, pids) == ArchivedPid(ArchivedAll(t, pids[..|pids| - 1]), pids[|pids| - 1])
  {
  }

  lemma InSnoc(init: seq<int>, last: int, x: int)
    ensures x in init + [last] <==> x in init || x == last
  {
  }

  /** Expiry removes exactly the stale states. */
  lemma ExpiredMeaning(p: Policy, t: Table, now: real, s: State)
    requires Inv(p, t)
    ensures s in Expired(p, t, now).states <==> s in t.states && !Stale(p, s, now)
  {
    hide StateOk, LiveOk, Past, StalePids, ArchivedAll, Stale;
    AllLess(p, t, StalePids(p, t.states, now), s);
    if s in t.states {
      var k :| 0 <= k < |t.states| && t.states[k] == s;
      StaleOnes(p, t.states, now, k);
      if s.pid in StalePids(p, t.states, now) {
        OnlyStale(p, t.states, now, s.pid);
        var j :| 0 <= j < |t.states| && t.states[j].pid == s.pid && Stale(p, t.states[j], now);
        assert j == k;
      }
    }
  }

  // ------------------------------------------------------------ which generation an event reaches

  /** The identifier under which a process is live. */
  function LiveId(t: Table, pid: int): Option<nat> {
    var i := IndexOf(t.states, pid);
    if i < |t.states| then Some(t.states[i].correlationId) else None
  }

  lemma UpdatedId(t: Table, i: nat, s': State, pid: int)
    requires i < |t.states| && s'.pid == t.states[i].pid && s'.correlationId == t.states[i].correlationId
    ensures LiveId(t.(states := t.states[i := s']), pid) == LiveId(t, pid)
  {
    var u := t.states[i := s'];
    var j, k := IndexOf(t.states, pid), IndexOf(u, pid);
    if j < |u| {
      assert u[j].pid == pid;
    }
    if k < |u| {
      assert t.states[k].pid == pid;
    }
  }

  lemma AppendedId(t: Table, s: State)
    requires LiveId(t, s.pid) == None
    ensures LiveId(Appended(t, s), s.pid) == Some(s.correlationId)
  {
    var u := Appended(t, s);
    assert u.states[|t.states|] == s;
    assert forall k | 0 <= k < |t.states| :: u.states[k] == t.states[k];
  }

  lemma CreatedId(p: Policy, t: Table, e: Event, now: real)
    requires p.Validates() && Inv(p, t) && e.pid > 0 && LiveId(t, e.pid) == None
    ensures LiveId(Created(p, t, e, now), e.pid) == Some(t.nextId)
  {
    hide Inv, Evicted, NewRuntime, Created, ParentOf, StateOk, SourceOk, Appended;
    StatesPositive(p);
    var u := Evicted(p, t);
    var parent := ParentOf(p, t, e.ppid, now);
    EvictedKeeps(p, t, e.pid);
    NewRuntimeOk(p, u, e, parent, now);
    CreatedIs(p, t, e, now);
    AppendedId(u, NewRuntime(p, u, e, parent, now));
  }

  lemma GivenId(p: Policy, norm: string -> string, t: Table, e: Event, now: real)
    ensures LiveId(Given(p, norm, t, e, now), e.pid) == LiveId(t, e.pid)
  {
    hide Delivered;
    var i := IndexOf(t.states, e.pid);
    if i < |t.states| {
      DeliveredIdentity(p, norm, t.states[i], e, now);
      UpdatedId(t, i, Delivered(p, norm, t.states[i], e, now), e.pid);
    }
  }

  lemma ReplacedId(p: Policy, t: Table, i: nat, e: Event, now: real)
    requires p.Validates() && Inv(p, t) && e.pid > 0 && i < |t.states| && t.states[i].pid == e.pid
    ensures LiveId(Replaced(p, t, i, e, now), e.pid) == Some(t.nextId)
  {
    hide Inv, Touched, Created, Archived, StateOk, SourceOk, Grows;
    var s' := Touched(t.states[i], e, now);
    var v := t.(states := t.states[i := s']);
    TouchedGrows(p, t, i, e, now);
    UpdatedKeeps(p, t, i, s');
    ArchivedKeeps(p, v, i);
    GoneAfter(p, v, i);
    CreatedId(p, Archived(v, i), e, now);
  }

  lemma GoneAfter(p: Policy, t: Table, i: nat)
    requires Inv(p, t) && i < |t.states|
    ensures LiveId(Archived(t, i), t.states[i].pid) == None && Archived(t, i).nextId == t.nextId
  {
    hide StateOk, LiveOk, Past, RemoveAt;
    RemoveOrdered(t.states, i);
    RemovedLength(t.states, i);
  }

  /**
   Which generation an event reaches: a process with no live state gets a new
   identifier; a live one keeps its identifier unless the event is an execution
   later than the one recorded, which starts a new generation.
   */
  lemma IngestMeaning(p: Policy, norm: string -> string, t: Table, e: Event, now: real)
    requires p.Validates() && Inv(p, t) && e.pid > 0
    ensures var u := Expired(p, t, now);
      var i := IndexOf(u.states, e.pid);
      LiveId(Ingested(p, norm, t, e, now), e.pid) ==
      if i == |u.states| || Replaces(u.states[i], e) then Some(u.nextId) else LiveId(u, e.pid)
  {
    hide Inv, Expired, Created, Replaced, Given, Archived, StateOk, Thins;
    var u := Expired(p, t, now);
    ExpiredKeeps(p, t, now);
    var i := IndexOf(u.states, e.pid);
    var w := WithState(p, u, e, now);
    var k := IndexOf(w.states, e.pid);
    GivenId(p, norm, w, e, now);
    if i == |u.states| {
      CreatedId(p, u, e, now);
      CreatedUnexecuted(p, u, e, now);
    } else if Replaces(u.states[i], e) {
      ReplacedId(p, u, i, e, now);
      GivenId(p, norm, Replaced(p, u, i, e, now), e, now);
    }
  }

  /** A state just created has no recorded execution, so its own event cannot replace it. */
  lemma CreatedUnexecuted(p: Policy, t: Table, e: Event, now: real)
    requires p.Validates() && Inv(p, t) && e.pid > 0 && LiveId(t, e.pid) == None
    ensures var u := Created(p, t, e, now);
      var k := IndexOf(u.states, e.pid);
      k < |u.states| && !Replaces(u.states[k], e)
  {
    hide Inv, Evicted, NewRuntime, Created, ParentOf, StateOk, SourceOk;
    StatesPositive(p);
    var u := Evicted(p, t);
    var parent := ParentOf(p, t, e.ppid, now);
    var s := NewRuntime(p, u, e, parent, now);
    EvictedKeeps(p, t, e.pid);
    NewRuntimeOk(p, u, e, parent, now);
    NewUnexecuted(p, u, e, parent, now);
    CreatedIs(p, t, e, now);
    LastFound(u.states, s);
  }

  lemma LastFound(states: seq<State>, s: State)
    requires IndexOf(states, s.pid) == |states|
    ensures IndexOf(states + [s], s.pid) == |states|
  {
    assert (states + [s])[|states|] == s;
    assert forall k | 0 <= k < |states| :: (states + [s])[k] == states[k];
  }

  lemma NewUnexecuted(p: Policy, t: Table, e: Event, parent: Option<nat>, now: real)
    ensures NewRuntime(p, t, e, parent, now).execTs == None
  {
    hide TotalWeight, Threshold;
  }

  /**
   Which generation a pre-execution record reaches: it joins a runtime-only state
   inside the late-binding window, and otherwise starts a generation of its own.
   */
  lemma RegisterMeaning(p: Policy, t: Table, r: Record, now: real)
    requires p.Validates() && Inv(p, t) && r.pid > 0
    ensures var u := Expired(p, t, now);
      var i := IndexOf(u.states, r.pid);
      LiveId(Registered(p, t, r, now), r.pid) ==
      if i < |u.states| && Binds(p, u.states[i], now) then LiveId(u, r.pid) else Some(u.nextId)
  {
    hide Inv, Expired, LateJoined, Evicted, StateOk, SourceOk, Thins, Appended, Fresh, LateBindable;
    var u := Expired(p, t, now);
    ExpiredKeeps(p, t, now);
    var i := IndexOf(u.states, r.pid);
    if i < |u.states| && Binds(p, u.states[i], now) {
      LateJoinedId(p, u.states[i], r, now);
      UpdatedId(u, i, LateJoined(p, u.states[i], r.path, Clamp(r.score), r.denied, now), r.pid);
    } else {
      var v := ArchivedPid(u, r.pid);
      StatesPositive(p);
      ArchivedPidKeeps(p, u, r.pid);
      EvictedKeeps(p, v, r.pid);
      NewRegisteredOk(p, Evicted(p, v), r, now);
      AppendedId(Evicted(p, v), NewRegistered(p, Evicted(p, v), r, now));
      RegisteredIs(p, v, r, now);
    }
  }

  lemma LateJoinedId(p: Policy, s: State, r: Record, now: real)
    ensures var s' := LateJoined(p, s, r.path, Clamp(r.score), r.denied, now);
      s'.pid == s.pid && s'.correlationId == s.correlationId
  {
  }

  lemma RegisteredIs(p: Policy, v: Table, r: Record, now: real)
    ensures var s := NewRegistered(p, Evicted(p, v), r, now);
      s.pid == r.pid && s.generation == NextGeneration(Evicted(p, v), r.pid) ==>
      Added(p, Evicted(p, v), r.pid, 0, 0, Source.Fanotify, if r.denied then Denied else PendingExec,
            NonEmpty(r.path), Clamp(r.score), None, now) == Appended(Evicted(p, v), s)
  {
    hide Evicted, Fresh;
  }
}

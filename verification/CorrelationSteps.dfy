/**
 What one call of the engine does to the table: which state an event or a record
 reaches, how a new one begins, which parent it inherits and which states expire.
 */
module CorrelationSteps {
  import opened Common
  import opened Correlation
  import opened CorrelationEngine
  import opened CorrelationRuns
  import opened CorrelationMeaning

  /** The live state of a process. */
  function Live(t: Table, pid: int): Option<State> {
    var i := IndexOf(t.states, pid);
    if i < |t.states| then Some(t.states[i]) else None
  }

  /** The generation after the last one of this process. */
  function After(t: Table, pid: int): nat {
    if pid in t.generations then t.generations[pid] + 1 else 1
  }

  /** The identifier of a live process ppid, other than pid, that was seen inside the inheritance window. */
  predicate Inherits(p: Policy, t: Table, pid: int, ppid: int, now: real, parent: Option<nat>) {
    match parent
    case Some(id) =>
      ppid != pid && exists i | 0 <= i < |t.states| ::
        t.states[i].pid == ppid && t.states[i].correlationId == id && now - t.states[i].lastSeen <= p.inheritWindow
    case None =>
      ppid == pid || forall i | 0 <= i < |t.states| ::
        t.states[i].pid == ppid ==> now - t.states[i].lastSeen > p.inheritWindow
  }

  // ------------------------------------------------------------ beginnings

  predicate NothingYet(s: State, now: real) {
    && s.created == now && s.lastSeen == now && s.identifier == None
    && s.execTs == None && s.exitTs == None && s.exitedAt == None
    && s.files == {} && s.renames == {} && s.connections == {}
    && s.execution == "NOT_EXECUTED_STAGE11" && s.result == None
  }

  /** A generation that begins with a runtime event. */
  predicate BeganByEvent(p: Policy, s: State, id: nat, g: nat, e: Event, parent: Option<nat>, now: real) {
    && s.correlationId == id && s.generation == g && s.pid == e.pid && s.ppid == e.ppid && s.uid == e.uid
    && s.source == RuntimeOnly && s.status == Active && s.path == None && s.preScore == 0 && s.parent == parent
    && NothingYet(s, now)
    && (forall r: Rule :: Times(s, r) == if r == ChildExec && parent.Some? && e.kind == Exec then 1 else 0)
    && Scored(p, s) && Calls(p, s.combined, false, s.action)
  }

  function InRange(score: int): int {
    if score < 0 then 0 else if score > 100 then 100 else score
  }

  /** A generation that begins with a pre-execution record. */
  predicate BeganByRecord(p: Policy, s: State, id: nat, g: nat, r: Record, now: real) {
    && s.correlationId == id && s.generation == g && s.pid == r.pid && s.ppid == 0 && s.uid == 0
    && s.source == Source.Fanotify && s.status == (if r.denied then Denied else PendingExec)
    && s.path == (if Known(r.path) then r.path else None) && s.preScore == InRange(r.score) && s.parent == None
    && NothingYet(s, now) && (forall q: Rule :: Times(s, q) == 0)
    && Scored(p, s) && Calls(p, s.combined, r.denied, s.action)
  }

  /** A record joined to the state that eBPF began: path, score and denial are new, everything collected stays. */
  predicate JoinedByRecord(p: Policy, s: State, r: Record, now: real, t: State) {
    && t == s.(source := LateBound, path := if Known(r.path) then r.path else s.path, preScore := InRange(r.score),
               lastSeen := now, status := if r.denied then Denied else s.status,
               runtimeScore := t.runtimeScore, combined := t.combined, action := t.action,
               transitions := t.transitions)
    && Scored(p, t) && Calls(p, t.combined, r.denied || s.action == Deny, t.action)
  }

  lemma FreshMeans(p: Policy, id: nat, g: nat, pid: int, ppid: int, uid: int, source: Source, status: Status,
                   path: Option<string>, preScore: int, parent: Option<nat>, now: real)
    requires p.Validates() && 0 <= preScore <= 100 && (source == RuntimeOnly ==> preScore == 0)
    ensures var s := Fresh(p, id, g, pid, ppid, uid, source, status, path, preScore, parent, now);
      && s.correlationId == id && s.generation == g && s.pid == pid && s.ppid == ppid && s.uid == uid
      && s.source == source && s.status == status && s.path == path && s.preScore == preScore && s.parent == parent
      && NothingYet(s, now) && (forall r: Rule :: Times(s, r) == 0)
      && StateOk(p, s) && Scored(p, s) && Calls(p, s.combined, status == Denied, s.action)
  {
    hide StateOk, Policy.Validates, ActionFor, TotalWeight, Scored, Calls;
    FreshOk(p, id, g, pid, ppid, uid, source, status, path, preScore, parent, now);
    OkMeans(p, Fresh(p, id, g, pid, ppid, uid, source, status, path, preScore, parent, now));
  }

  lemma RescoredMeans(p: Policy, u: State)
    ensures var t := Recalculated(p, u);
      t == u.(runtimeScore := t.runtimeScore, combined := t.combined, action := t.action, transitions := t.transitions)
  {
    hide ActionFor, TotalWeight, Min;
  }

  lemma ChildMeans(p: Policy, s: State, now: real)
    requires p.Validates() && StateOk(p, s) && NothingYet(s, now) && (forall r: Rule :: Times(s, r) == 0)
    ensures var t := WithRule(p, s, ChildExec);
      && t == s.(occurrences := t.occurrences, indicators := t.indicators, runtimeScore := t.runtimeScore,
                 combined := t.combined, action := t.action, transitions := t.transitions)
      && (forall r: Rule :: Times(t, r) == if r == ChildExec then 1 else 0)
  {
    hide StateOk, Recalculated;
    assert Times(s, ChildExec) == 0 && Occurrences(s, ChildExec) == 0 && p.Spec(ChildExec).cap > 0;
    var u := Bumped(p, s, ChildExec);
    RescoredMeans(p, u);
    var t := WithRule(p, s, ChildExec);
    assert t.occurrences == s.occurrences[ChildExec := 1];
    forall r: Rule ensures Times(t, r) == if r == ChildExec then 1 else 0 {
      assert Times(s, r) == 0;
    }
  }

  lemma BeganMeans(p: Policy, t: Table, e: Event, parent: Option<nat>, now: real)
    requires p.Validates()
    ensures BeganByEvent(p, NewRuntime(p, t, e, parent, now), t.nextId, After(t, e.pid), e, parent, now)
    ensures StateOk(p, NewRuntime(p, t, e, parent, now))
  {
    hide StateOk, Fresh, WithRule, Policy.Validates, Scored, Calls;
    var g := NextGeneration(t, e.pid);
    var s := Fresh(p, t.nextId, g, e.pid, e.ppid, e.uid, RuntimeOnly, Active, None, 0, parent, now);
    FreshMeans(p, t.nextId, g, e.pid, e.ppid, e.uid, RuntimeOnly, Active, None, 0, parent, now);
    ChildMeans(p, s, now);
    NewRuntimeOk(p, t, e, parent, now);
    var x := NewRuntime(p, t, e, parent, now);
    OkMeans(p, x);
    NotDenied(x);
  }

  lemma RecordMeans(p: Policy, t: Table, r: Record, now: real)
    requires p.Validates()
    ensures BeganByRecord(p, NewRegistered(p, t, r, now), t.nextId, After(t, r.pid), r, now)
  {
    hide StateOk, Fresh, Policy.Validates, Scored, Calls;
    FreshMeans(p, t.nextId, NextGeneration(t, r.pid), r.pid, 0, 0, Source.Fanotify,
               if r.denied then Denied else PendingExec, NonEmpty(r.path), Clamp(r.score), None, now);
  }

  lemma JoinMeans(p: Policy, s: State, r: Record, now: real)
    requires p.Validates() && StateOk(p, s) && LateBindable(s)
    ensures JoinedByRecord(p, s, r, now, LateJoined(p, s, r.path, Clamp(r.score), r.denied, now))
  {
    hide StateOk, Policy.Validates, ActionFor, TotalWeight, Scored, Calls;
    LateJoinedKeeps(p, s, r.path, Clamp(r.score), r.denied, now);
    OkMeans(p, LateJoined(p, s, r.path, Clamp(r.score), r.denied, now));
  }

  // ------------------------------------------------------------ the table

  lemma LiveAppended(t: Table, s: State)
    requires Live(t, s.pid) == None
    ensures Live(Appended(t, s), s.pid) == Some(s)
  {
    LastFound(t.states, s);
  }

  lemma LiveUpdated(t: Table, pid: int, s': State)
    requires Live(t, pid).Some? && s'.pid == pid
    ensures Live(t.(states := t.states[IndexOf(t.states, pid) := s']), pid) == Some(s')
  {
    var i := IndexOf(t.states, pid);
    var u := t.states[i := s'];
    assert u[i].pid == pid;
    assert forall k | 0 <= k < i :: u[k] == t.states[k];
  }

  lemma ParentMeans(p: Policy, t: Table, pid: int, ppid: int, now: real)
    requires Ordered(t.states) && Live(t, pid) == None
    ensures Inherits(p, t, pid, ppid, now, ParentOf(p, t, ppid, now))
  {
    var i := IndexOf(t.states, ppid);
    if i < |t.states| {
      assert ppid != pid;
      assert forall k | 0 <= k < |t.states| && t.states[k].pid == ppid :: k == i;
    }
  }

  lemma CreatedLive(p: Policy, t: Table, e: Event, now: real)
    requires p.Validates() && Inv(p, t) && e.pid > 0 && Live(t, e.pid) == None
    ensures var s, parent := Live(Created(p, t, e, now), e.pid), ParentOf(p, t, e.ppid, now);
      && s.Some? && StateOk(p, s.value)
      && BeganByEvent(p, s.value, t.nextId, After(t, e.pid), e, parent, now)
      && Inherits(p, t, e.pid, e.ppid, now, parent)
  {
    hide Inv, Evicted, NewRuntime, Created, ParentOf;
    hide StateOk, SourceOk, Appended, BeganByEvent, Inherits, Policy.Validates;
    StatesPositive(p);
    var u := Evicted(p, t);
    var parent := ParentOf(p, t, e.ppid, now);
    EvictedKeeps(p, t, e.pid);
    EvictedGenerations(p, t);
    NewRuntimeOk(p, u, e, parent, now);
    BeganMeans(p, u, e, parent, now);
    CreatedIs(p, t, e, now);
    LiveAppended(u, NewRuntime(p, u, e, parent, now));
    InvOrdered(p, t);
    ParentMeans(p, t, e.pid, e.ppid, now);
  }

  lemma InvOrdered(p: Policy, t: Table)
    requires Inv(p, t)
    ensures Ordered(t.states) && forall i | 0 <= i < |t.states| :: StateOk(p, t.states[i])
  {
    hide StateOk, Past;
    assert forall i | 0 <= i < |t.states| :: LiveOk(p, t, t.states[i]);
  }

  lemma EvictedGenerations(p: Policy, t: Table)
    ensures Evicted(p, t).generations == t.generations
  {
  }

  lemma GivenLive(p: Policy, norm: string -> string, t: Table, e: Event, now: real)
    requires Live(t, e.pid).Some?
    ensures Live(Given(p, norm, t, e, now), e.pid) == Some(Delivered(p, norm, Live(t, e.pid).value, e, now))
  {
    hide Delivered;
    var s := Live(t, e.pid).value;
    DeliveredIdentity(p, norm, s, e, now);
    LiveUpdated(t, e.pid, Delivered(p, norm, s, e, now));
  }

  lemma ReplacedLive(p: Policy, t: Table, i: nat, e: Event, now: real)
    requires p.Validates() && Inv(p, t) && e.pid > 0 && i < |t.states| && t.states[i].pid == e.pid
    ensures var s := Live(Replaced(p, t, i, e, now), e.pid);
      && s.Some? && StateOk(p, s.value)
      && exists parent ::
        && BeganByEvent(p, s.value, t.nextId, After(t, e.pid), e, parent, now)
        && Inherits(p, t, e.pid, e.ppid, now, parent)
  {
    hide Inv, Touched, Created, Archived, StateOk, SourceOk, Grows, BeganByEvent, Inherits, Policy.Validates, ParentOf;
    var s' := Touched(t.states[i], e, now);
    var v := t.(states := t.states[i := s']);
    TouchedGrows(p, t, i, e, now);
    UpdatedKeeps(p, t, i, s');
    ArchivedKeeps(p, v, i);
    GoneAfter(p, v, i);
    var w := Archived(v, i);
    CreatedLive(p, w, e, now);
    ArchivedSame(v, i);
    InvOrdered(p, t);
    OthersInherit(p, t, i, s', e.ppid, now, ParentOf(p, w, e.ppid, now));
  }

  lemma ArchivedSame(t: Table, i: nat)
    requires i < |t.states|
    ensures Archived(t, i).generations == t.generations && Archived(t, i).nextId == t.nextId
  {
  }

  lemma WithoutOwn(t: Table, i: nat, s': State)
    requires i < |t.states|
    ensures Archived(t.(states := t.states[i := s']), i).states == t.states[..i] + t.states[i + 1..]
  {
    var v := t.states[i := s'];
    assert v[..i] == t.states[..i] && v[i + 1..] == t.states[i + 1..];
  }

  /** Touching and removing the process's own state leaves the parents of others alone. */
  lemma OthersInherit(p: Policy, t: Table, i: nat, s': State, ppid: int, now: real, parent: Option<nat>)
    requires i < |t.states| && s'.pid == t.states[i].pid && Ordered(t.states)
    requires var v := t.(states := t.states[i := s']); Inherits(p, Archived(v, i), s'.pid, ppid, now, parent)
    ensures Inherits(p, t, s'.pid, ppid, now, parent)
  {
    hide Archived, Ordered;
    WithoutOwn(t, i, s');
    var w := t.states[..i] + t.states[i + 1..];
    if parent.Some? {
      var k :| 0 <= k < |w| && w[k].pid == ppid && w[k].correlationId == parent.value
               && now - w[k].lastSeen <= p.inheritWindow;
      assert w[k] == t.states[if k < i then k else k + 1];
    } else if ppid != s'.pid {
      forall j | 0 <= j < |t.states| && t.states[j].pid == ppid ensures now - t.states[j].lastSeen > p.inheritWindow {
        assert t.states[j] == w[if j < i then j else j - 1];
      }
    }
  }

  // ------------------------------------------------------------ one call

  /** An execution later than the one recorded. */
  predicate LaterExecution(s: State, e: Event) {
    e.kind == Exec && s.execTs.Some? && s.execTs.value < e.timestamp
  }

  /**
   One runtime event: a live process keeps its generation, unless the event is a later
   execution, and the event has its effect on it; otherwise a generation begins with
   the next identifier, inherits from a parent seen recently enough, and the
   event has its effect on that.
   */
  lemma IngestEffect(p: Policy, norm: string -> string, t: Table, e: Event, now: real)
    requires p.Validates() && Inv(p, t) && e.pid > 0
    ensures var u := Expired(p, t, now);
      var before, after := Live(u, e.pid), Live(Ingested(p, norm, t, e, now), e.pid);
      && after.Some?
      && if before.Some? && !LaterExecution(before.value, e)
         then EventEffect(p, norm, before.value, e, now, after.value)
         else exists b, parent ::
           && BeganByEvent(p, b, u.nextId, After(u, e.pid), e, parent, now)
           && Inherits(p, u, e.pid, e.ppid, now, parent) && EventEffect(p, norm, b, e, now, after.value)
  {
    hide Inv, Expired, Created, Replaced, Given, StateOk;
    hide Thins, BeganByEvent, Inherits, EventEffect, Policy.Validates, Delivered;
    var u := Expired(p, t, now);
    ExpiredKeeps(p, t, now);
    InvOrdered(p, u);
    var before := Live(u, e.pid);
    var i := IndexOf(u.states, e.pid);
    if before.None? {
      CreatedLive(p, u, e, now);
      var w := Created(p, u, e, now);
      var b := Live(w, e.pid).value;
      BeganUnexecuted(p, b, u.nextId, After(u, e.pid), e, ParentOf(p, u, e.ppid, now), now);
      GivenLive(p, norm, w, e, now);
      EventMeaning(p, norm, b, e, now);
    } else if LaterExecution(before.value, e) {
      ReplacedLive(p, u, i, e, now);
      var w := Replaced(p, u, i, e, now);
      GivenLive(p, norm, w, e, now);
      EventMeaning(p, norm, Live(w, e.pid).value, e, now);
    } else {
      GivenLive(p, norm, u, e, now);
      EventMeaning(p, norm, before.value, e, now);
    }
  }

  lemma BeganUnexecuted(p: Policy, s: State, id: nat, g: nat, e: Event, parent: Option<nat>, now: real)
    requires BeganByEvent(p, s, id, g, e, parent, now)
    ensures s.execTs == None
  {
    hide Scored, Calls;
  }

  /** A state that eBPF began and no record has joined, not yet ended or denied, inside the late-binding window. */
  predicate Joinable(p: Policy, s: State, now: real) {
    s.source == RuntimeOnly && s.status != Exited && s.status != Denied && now - s.created <= p.lateWindow
  }

  lemma JoinableIs(p: Policy, t: Table, pid: int, now: real)
    ensures var i := IndexOf(t.states, pid);
      i < |t.states| && Binds(p, t.states[i], now) <==> Live(t, pid).Some? && Joinable(p, Live(t, pid).value, now)
  {
  }

  function JoinedTable(p: Policy, u: Table, r: Record, now: real): Table
    requires Live(u, r.pid).Some?
  {
    var i := IndexOf(u.states, r.pid);
    u.(states := u.states[i := LateJoined(p, u.states[i], r.path, Clamp(r.score), r.denied, now)])
  }

  function BegunTable(p: Policy, u: Table, r: Record, now: real): Table {
    Added(p, Evicted(p, ArchivedPid(u, r.pid)), r.pid, 0, 0, Source.Fanotify, if r.denied then Denied else PendingExec,
          NonEmpty(r.path), Clamp(r.score), None, now)
  }

  lemma RegisteredSplits(p: Policy, t: Table, r: Record, now: real)
    requires r.pid > 0
    ensures var u := Expired(p, t, now);
      var i := IndexOf(u.states, r.pid);
      Registered(p, t, r, now) ==
      if i < |u.states| && Binds(p, u.states[i], now) then JoinedTable(p, u, r, now) else BegunTable(p, u, r, now)
  {
    hide Expired, Added, Evicted, ArchivedPid, LateJoined, Binds;
  }

  lemma JoinEffect(p: Policy, u: Table, r: Record, now: real)
    requires p.Validates() && Inv(p, u) && Live(u, r.pid).Some? && Joinable(p, Live(u, r.pid).value, now)
    ensures var after := Live(JoinedTable(p, u, r, now), r.pid);
      after.Some? && JoinedByRecord(p, Live(u, r.pid).value, r, now, after.value)
  {
    hide Inv, LateJoined, StateOk, JoinedByRecord, Policy.Validates;
    InvOrdered(p, u);
    var s := Live(u, r.pid).value;
    JoinMeans(p, s, r, now);
    LateJoinedId(p, s, r, now);
    LiveUpdated(u, r.pid, LateJoined(p, s, r.path, Clamp(r.score), r.denied, now));
  }

  lemma BeginEffect(p: Policy, u: Table, r: Record, now: real)
    requires p.Validates() && Inv(p, u) && r.pid > 0
    ensures var after := Live(BegunTable(p, u, r, now), r.pid);
      after.Some? && BeganByRecord(p, after.value, u.nextId, After(u, r.pid), r, now)
  {
    hide Inv, Evicted, StateOk, SourceOk, Thins, Appended, Fresh, BeganByRecord, Policy.Validates;
    var v := ArchivedPid(u, r.pid);
    StatesPositive(p);
    ArchivedPidKeeps(p, u, r.pid);
    ArchivedPidSame(u, r.pid);
    EvictedKeeps(p, v, r.pid);
    EvictedGenerations(p, v);
    NewRegisteredOk(p, Evicted(p, v), r, now);
    RecordMeans(p, Evicted(p, v), r, now);
    LiveAppended(Evicted(p, v), NewRegistered(p, Evicted(p, v), r, now));
    RegisteredIs(p, v, r, now);
  }

  /**
   One pre-execution record: it joins the process's state if that is joinable, and
   otherwise begins a generation with the next identifier.
   */
  lemma RegisterEffect(p: Policy, t: Table, r: Record, now: real)
    requires p.Validates() && Inv(p, t) && r.pid > 0
    ensures var u := Expired(p, t, now);
      var before, after := Live(u, r.pid), Live(Registered(p, t, r, now), r.pid);
      && after.Some?
      && if before.Some? && Joinable(p, before.value, now) then JoinedByRecord(p, before.value, r, now, after.value)
         else BeganByRecord(p, after.value, u.nextId, After(u, r.pid), r, now)
  {
    hide *;
    var u := Expired(p, t, now);
    ExpiredKeeps(p, t, now);
    InvOrdered(p, u);
    JoinableIs(p, u, r.pid, now);
    RegisteredSplits(p, t, r, now);
    if Live(u, r.pid).Some? && Joinable(p, Live(u, r.pid).value, now) {
      JoinEffect(p, u, r, now);
    } else {
      BeginEffect(p, u, r, now);
    }
  }

  lemma ArchivedPidSame(t: Table, pid: int)
    ensures ArchivedPid(t, pid).generations == t.generations && ArchivedPid(t, pid).nextId == t.nextId
  {
  }

  /** A state expires when it has ended too long ago, or has not been seen for too long. */
  predicate Overdue(p: Policy, s: State, now: real) {
    if s.status == Exited && s.exitedAt != None then s.exitedAt.value + p.exitedTtl < now
    else s.lastSeen + p.stateTtl < now
  }

  lemma ExpiryMeaning(p: Policy, t: Table, now: real, s: State)
    requires Inv(p, t)
    ensures s in Expired(p, t, now).states <==> s in t.states && !Overdue(p, s, now)
  {
    hide Inv, Expired;
    ExpiredMeaning(p, t, now, s);
  }

  // ------------------------------------------------------------ every rung is reached

  /**
    * One record with this score is a run that ends with this score, so every action of the ladder is
    * recommended in some run.
    */
  lemma EveryRung(p: Policy, norm: string -> string, score: int)
    requires p.Validates() && 0 <= score <= 100
    ensures var ops := [Op.Register(Record(1, None, score, false), 0.0)];
      var t := Run(p, norm, ops);
      && |t.states| == 1 && t.states[0].combined == score && Calls(p, score, false, t.states[0].action)
  {
    hide Fresh, StateOk, Policy.Validates, Scored, Calls;
    var r := Record(1, None, score, false);
    var ops := [Op.Register(r, 0.0)];
    assert ops[..0] == [];
    assert Run(p, norm, []) == EMPTY;
    StatesPositive(p);
    RecordMeans(p, EMPTY, r, 0.0);
    OneScore(p, NewRegistered(p, EMPTY, r, 0.0), r);
    assert StalePids(p, [], 0.0) == [] && ArchivedAll(EMPTY, []) == EMPTY;
    assert Expired(p, EMPTY, 0.0) == EMPTY && Evicted(p, EMPTY) == EMPTY;
    RegisteredIs(p, EMPTY, r, 0.0);
    NewRegisteredOk(p, EMPTY, r, 0.0);
  }

  lemma OneScore(p: Policy, s: State, r: Record)
    requires BeganByRecord(p, s, 0, 1, r, 0.0) && 0 <= r.score <= 100
    ensures s.combined == r.score
  {
    hide Calls;
    assert Times(s, FileWrite) == 0 && Times(s, FileRename) == 0 && Times(s, Connection) == 0;
    assert Times(s, ChildExec) == 0 && Times(s, Mismatch) == 0;
  }
}

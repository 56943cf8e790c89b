/**
 The table of live process states: eviction, expiry, generations, late binding and
 the archive, each written as the engine does it and tied to a function on values.
 */
module CorrelationEngine {
  import opened Common
  import opened Correlation

  const ARCHIVE_LIMIT: nat := 1024

  /** `states` is the dictionary in insertion order; identifiers are handed out in order. */
  datatype Table = Table(states: seq<State>, archived: seq<State>, generations: map<int, nat>, nextId: nat)

  const EMPTY := Table([], [], map[], 0)

  // ------------------------------------------------------------ the operations on values

  /** Position of a process, or the length when it has no state. */
  function IndexOf(states: seq<State>, pid: int): (i: nat)
    ensures i <= |states|
    ensures i < |states| ==> states[i].pid == pid
    ensures forall j | 0 <= j < i :: states[j].pid != pid
  {
    FirstWhere(states, (s: State) => s.pid == pid)
  }

  /** The first of the states seen least recently. */
  function Oldest(states: seq<State>): (i: nat)
    requires states != []
    ensures i < |states|
    ensures forall j | 0 <= j < |states| :: states[i].lastSeen <= states[j].lastSeen
    ensures forall j | 0 <= j < i :: states[i].lastSeen < states[j].lastSeen
  {
    LeastBy(states, (s: State) => s.lastSeen)
  }

  /** deque(maxlen=1024): only the newest entries stay. */
  function Bounded(archive: seq<State>): (r: seq<State>)
    ensures |r| == Min(|archive|, 1024) && r == archive[|archive| - |r|..]
  {
    if |archive| > ARCHIVE_LIMIT then archive[|archive| - ARCHIVE_LIMIT..] else archive
  }

  function Archived(t: Table, i: nat): Table
    requires i < |t.states|
  {
    t.(states := RemoveAt(t.states, i), archived := Bounded(t.archived + [t.states[i]]))
  }

  function ArchivedPid(t: Table, pid: int): Table {
    var i := IndexOf(t.states, pid);
    if i == |t.states| then t else Archived(t, i)
  }

  predicate Stale(p: Policy, s: State, now: real) {
    if s.status == Exited && s.exitedAt.Some? then now - s.exitedAt.value > p.exitedTtl
    else now - s.lastSeen > p.stateTtl
  }

  function StalePids(p: Policy, states: seq<State>, now: real): seq<int> {
    if states == [] then []
    else
      var n := |states| - 1;
      StalePids(p, states[..n], now) + if Stale(p, states[n], now) then [states[n].pid] else []
  }

  function ArchivedAll(t: Table, pids: seq<int>): Table {
    if pids == [] then t else ArchivedPid(ArchivedAll(t, pids[..|pids| - 1]), pids[|pids| - 1])
  }

  lemma NothingExpires(p: Policy, now: real)
    ensures StalePids(p, [], now) == []
  {
  }

  lemma NothingArchived(t: Table)
    ensures ArchivedAll(t, []) == t
  {
  }

  lemma StaleStep(p: Policy, states: seq<State>, i: nat, now: real)
    requires i < |states|
    ensures StalePids(p, states[..i + 1], now) ==
            StalePids(p, states[..i], now) + if Stale(p, states[i], now) then [states[i].pid] else []
  {
    hide Stale;
    assert states[..i + 1][..i] == states[..i];
  }

  lemma ArchivedStep(t: Table, pids: seq<int>, k: nat)
    requires k < |pids|
    ensures ArchivedAll(t, pids[..k + 1]) == ArchivedPid(ArchivedAll(t, pids[..k]), pids[k])
  {
    hide ArchivedPid;
    assert pids[..k + 1][..k] == pids[..k];
  }

  function Expired(p: Policy, t: Table, now: real): Table {
    ArchivedAll(t, StalePids(p, t.states, now))
  }

  function Evicted(p: Policy, t: Table): Table {
    if t.states != [] && |t.states| >= p.maxStates then Archived(t, Oldest(t.states)) else t
  }

  function NextGeneration(t: Table, pid: int): nat {
    (if pid in t.generations then t.generations[pid] else 0) + 1
  }

  function Added(p: Policy, t: Table, pid: int, ppid: int, uid: int, source: Source, status: Status,
                 path: Option<string>, preScore: int, parent: Option<nat>, now: real): Table
  {
    var g := NextGeneration(t, pid);
    t.(states := t.states + [Fresh(p, t.nextId, g, pid, ppid, uid, source, status, path, preScore, parent, now)],
       generations := t.generations[pid := g], nextId := t.nextId + 1)
  }

  function Clamp(score: int): int {
    Max(0, Min(100, score))
  }

  predicate Binds(p: Policy, s: State, now: real) {
    LateBindable(s) && now - s.created <= p.lateWindow
  }

  datatype Record = Record(pid: int, path: Option<string>, score: int, denied: bool)

  function Registered(p: Policy, t0: Table, r: Record, now: real): Table {
    var t := Expired(p, t0, now);
    if r.pid <= 0 then t
    else
      var i := IndexOf(t.states, r.pid);
      if i < |t.states| && Binds(p, t.states[i], now)
      then t.(states := t.states[i := LateJoined(p, t.states[i], r.path, Clamp(r.score), r.denied, now)])
      else
        var u := ArchivedPid(t, r.pid);
        Added(p, Evicted(p, u), r.pid, 0, 0, Source.Fanotify, if r.denied then Denied else PendingExec,
              NonEmpty(r.path), Clamp(r.score), None, now)
  }

  /** The parent's identifier, if it has been seen recently enough. */
  function ParentOf(p: Policy, t: Table, ppid: int, now: real): Option<nat> {
    var i := IndexOf(t.states, ppid);
    if i < |t.states| && now - t.states[i].lastSeen <= p.inheritWindow then Some(t.states[i].correlationId) else None
  }

  /** A state for the event's process; the child rule fires only here. */
  function WithState(p: Policy, t: Table, e: Event, now: real): Table {
    if IndexOf(t.states, e.pid) < |t.states| then t else Created(p, t, e, now)
  }

  function Created(p: Policy, t: Table, e: Event, now: real): Table {
    var parent := ParentOf(p, t, e.ppid, now);
    var u := Added(p, Evicted(p, t), e.pid, e.ppid, e.uid, RuntimeOnly, Active, None, 0, parent, now);
    var n := |u.states| - 1;
    if parent.Some? && e.kind == Exec then u.(states := u.states[n := WithRule(p, u.states[n], ChildExec)]) else u
  }

  predicate Replaces(s: State, e: Event) {
    e.kind == Exec && s.execTs.Some? && e.timestamp > s.execTs.value
  }

  /** The state an execution replaces is touched first, then archived. */
  function Replaced(p: Policy, t: Table, i: nat, e: Event, now: real): Table
    requires i < |t.states|
  {
    WithState(p, Archived(t.(states := t.states[i := Touched(t.states[i], e, now)]), i), e, now)
  }

  function Given(p: Policy, norm: string -> string, t: Table, e: Event, now: real): Table {
    var i := IndexOf(t.states, e.pid);
    if i == |t.states| then t else t.(states := t.states[i := Delivered(p, norm, t.states[i], e, now)])
  }

  function Handled(p: Policy, norm: string -> string, t: Table, e: Event, now: real): Table {
    var i := IndexOf(t.states, e.pid);
    if i < |t.states| && Replaces(t.states[i], e) then Given(p, norm, Replaced(p, t, i, e, now), e, now)
    else Given(p, norm, t, e, now)
  }

  function Ingested(p: Policy, norm: string -> string, t: Table, e: Event, now: real): Table {
    var u := Expired(p, t, now);
    if e.pid <= 0 then u else Handled(p, norm, WithState(p, u, e, now), e, now)
  }

  /** The process is live under exactly this identifier. */
  predicate OwnedBy(t: Table, pid: int, id: nat) {
    var i := IndexOf(t.states, pid);
    i < |t.states| && t.states[i].correlationId == id
  }

  /** A state with a result attached: nothing but the result, its status and the time of last sight changes. */
  function WithResult(s: State, result: ActionResult, now: real): State {
    s.(result := Some(result), execution := if result.status == "" then "UNKNOWN" else result.status, lastSeen := now)
  }

  function Acted(t: Table, pid: int, id: nat, result: ActionResult, now: real): Table {
    var i := IndexOf(t.states, pid);
    if OwnedBy(t, pid, id) then t.(states := t.states[i := WithResult(t.states[i], result, now)]) else t
  }

  // ------------------------------------------------------------ the engine

  class ExecutionCorrelationEngine {
    const policy: Policy
    const norm: string -> string
    var states: seq<State>
    var archived: seq<State>
    var generations: map<int, nat>
    var nextId: nat

    constructor (policy: Policy, norm: string -> string)
      ensures this.policy == policy && this.norm == norm && Contents() == EMPTY
    {
      this.policy := policy;
      this.norm := norm;
      states, archived, generations, nextId := [], [], map[], 0;
    }

    function Contents(): Table
      reads this
    {
      Table(states, archived, generations, nextId)
    }

    method Archive(pid: int)
      modifies this
      ensures Contents() == ArchivedPid(old(Contents()), pid)
    {
      var i := IndexOf(states, pid);
      if i == |states| {
        return;
      }
      archived := Bounded(archived + [states[i]]);
      states := RemoveAt(states, i);
    }

    method Expire(now: real) returns (count: nat)
      modifies this
      ensures Contents() == Expired(policy, old(Contents()), now)
      ensures count == |StalePids(policy, old(states), now)|
    {
      hide StalePids, ArchivedAll, ArchivedPid;
      var expired: seq<int> := [];
      NothingExpires(policy, now);
      NothingArchived(Contents());
      assert states[..0] == [];
      var i := 0;
      while i < |states|
        invariant i <= |states| && Contents() == old(Contents())
        invariant expired == StalePids(policy, states[..i], now)
      {
        StaleStep(policy, states, i, now);
        if Stale(policy, states[i], now) {
          expired := expired + [states[i].pid];
        }
        i := i + 1;
      }
      assert states[..i] == states;
      var k := 0;
      assert expired[..0] == [];
      while k < |expired|
        invariant k <= |expired|
        invariant Contents() == ArchivedAll(old(Contents()), expired[..k])
      {
        ArchivedStep(old(Contents()), expired, k);
        Archive(expired[k]);
        k := k + 1;
      }
      assert expired[..k] == expired;
      count := |expired|;
    }

    method NewState(pid: int, ppid: int, uid: int, source: Source, status: Status, path: Option<string>,
                    preScore: int, parent: Option<nat>, now: real)
      modifies this
      ensures Contents() ==
              Added(policy, Evicted(policy, old(Contents())), pid, ppid, uid, source, status, path, preScore,
                    parent, now)
    {
      if states != [] && |states| >= policy.maxStates {
        var i := Oldest(states);
        archived := Bounded(archived + [states[i]]);
        states := RemoveAt(states, i);
      }
      var g := NextGeneration(Contents(), pid);
      generations := generations[pid := g];
      states := states + [Fresh(policy, nextId, g, pid, ppid, uid, source, status, path, preScore, parent, now)];
      nextId := nextId + 1;
    }

    method RegisterPreExecution(r: Record, now: real) returns (accepted: bool)
      modifies this
      ensures Contents() == Registered(policy, old(Contents()), r, now)
      ensures accepted <==> r.pid > 0
    {
      var _ := Expire(now);
      if r.pid <= 0 {
        return false;
      }
      var i := IndexOf(states, r.pid);
      if i < |states| && Binds(policy, states[i], now) {
        states := states[i := LateJoined(policy, states[i], r.path, Clamp(r.score), r.denied, now)];
        return true;
      }
      if i < |states| {
        Archive(r.pid);
      }
      NewState(r.pid, 0, 0, Source.Fanotify, if r.denied then Denied else PendingExec,
               NonEmpty(r.path), Clamp(r.score), None, now);
      return true;
    }

    method RuntimeState(e: Event, now: real)
      modifies this
      ensures Contents() == WithState(policy, old(Contents()), e, now)
    {
      if IndexOf(states, e.pid) < |states| {
        return;
      }
      var parent := ParentOf(policy, Contents(), e.ppid, now);
      NewState(e.pid, e.ppid, e.uid, RuntimeOnly, Active, None, 0, parent, now);
      if parent.Some? && e.kind == Exec {
        var n := |states| - 1;
        states := states[n := WithRule(policy, states[n], ChildExec)];
      }
    }

    /** The old generation is archived and the event's process gets a new state. */
    method Replace(i: nat, e: Event, now: real)
      requires i < |states|
      modifies this
      ensures Contents() == Replaced(policy, old(Contents()), i, e, now)
    {
      states := states[i := Touched(states[i], e, now)];
      archived := Bounded(archived + [states[i]]);
      states := RemoveAt(states, i);
      RuntimeState(e, now);
    }

    method Give(e: Event, now: real)
      modifies this
      ensures Contents() == Given(policy, norm, old(Contents()), e, now)
    {
      var i := IndexOf(states, e.pid);
      if i < |states| {
        states := states[i := Delivered(policy, norm, states[i], e, now)];
      }
    }

    method IngestRuntimeEvent(e: Event, now: real) returns (accepted: bool)
      modifies this
      ensures Contents() == Ingested(policy, norm, old(Contents()), e, now)
      ensures accepted <==> e.pid > 0
    {
      hide Expired, WithState, Replaced, Given;
      var _ := Expire(now);
      if e.pid <= 0 {
        return false;
      }
      RuntimeState(e, now);
      var i := IndexOf(states, e.pid);
      if i < |states| && Replaces(states[i], e) {
        Replace(i, e, now);
      }
      Give(e, now);
      return true;
    }

    method RecordActionResult(pid: int, id: nat, result: ActionResult, now: real) returns (attached: bool)
      modifies this
      ensures Contents() == Acted(old(Contents()), pid, id, result, now)
      ensures attached <==> OwnedBy(old(Contents()), pid, id)
    {
      var i := IndexOf(states, pid);
      if i == |states| || states[i].correlationId != id {
        return false;
      }
      var state := states[i].(result := Some(result));
      state := state.(execution := if result.status == "" then "UNKNOWN" else result.status);
      states := states[i := state.(lastSeen := now)];
      return true;
    }
  }
}

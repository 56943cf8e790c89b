/**
 The fanotify monitor: parsing the kernel's event buffer, and answering every
 permission event exactly once, however its evaluation ends.
 */
module Fanotify {
  import opened Common
  import opened LittleEndian

  const METADATA_LENGTH: nat := 24
  const METADATA_VERSION: nat := 3
  const OPEN_EXEC_PERM: nat := 0x40000
  const QUEUE_OVERFLOW: nat := 0x4000

  datatype ParseError = InvalidLength | Truncated | UnsupportedVersion | PathUnavailable

  datatype Event = Event(fd: int, pid: int, path: Option<string>, mask: nat, length: nat, error: Option<ParseError>)

  // ------------------------------------------------------------ the event buffer

  function S32(b: Bytes, i: nat): int
    requires i + 4 <= |b|
  {
    if U32(b, i) < 0x8000_0000 then U32(b, i) else U32(b, i) - 0x1_0000_0000
  }

  function U64(b: Bytes, i: nat): nat
    requires i + 8 <= |b|
  {
    U32(b, i) + 0x1_0000_0000 * U32(b, i + 4)
  }

  predicate BadLengths(b: Bytes)
    requires |b| >= METADATA_LENGTH
  {
    U32(b, 0) < METADATA_LENGTH || U16(b, 6) < METADATA_LENGTH
  }

  /** How far the parser moves on: the declared length, or what it falls back to. */
  function Advance(b: Bytes): (n: nat)
    requires |b| >= METADATA_LENGTH
    ensures METADATA_LENGTH <= n <= |b|
  {
    if BadLengths(b) then METADATA_LENGTH else if U32(b, 0) > |b| then |b| else U32(b, 0)
  }

  function FirstEvent(b: Bytes, path: int -> Option<string>): Event
    requires |b| >= METADATA_LENGTH
  {
    var fd := S32(b, 16);
    var lengths := if BadLengths(b) then Some(InvalidLength) else if U32(b, 0) > |b| then Some(Truncated) else None;
    var version := if b[4] as nat != METADATA_VERSION then Some(UnsupportedVersion) else lengths;
    var link := if fd >= 0 then path(fd) else None;
    Event(fd, S32(b, 20), link, U64(b, 8), Advance(b),
          if fd >= 0 && link.None? && version.None? then Some(PathUnavailable) else version)
  }

  /** The events of a buffer, each at the place where the one before it ended. */
  function Parsed(b: Bytes, path: int -> Option<string>): seq<Event>
    decreases |b|
  {
    if |b| < METADATA_LENGTH then []
    else [FirstEvent(b, path)] + Parsed(b[Advance(b)..], path)
  }

  function Total(events: seq<Event>): nat {
    if events == [] then 0 else Total(events[..|events| - 1]) + events[|events| - 1].length
  }

  /** Pieces of at least one header each, covering the buffer up to less than one header. */
  predicate Tiles(b: Bytes, events: seq<Event>) {
    && (forall i | 0 <= i < |events| :: events[i].length >= METADATA_LENGTH)
    && Total(events) <= |b| < Total(events) + METADATA_LENGTH
  }

  method ParseEvents(b: Bytes, path: int -> Option<string>) returns (events: seq<Event>)
    ensures events == Parsed(b, path) && Tiles(b, events)
  {
    hide FirstEvent, Advance;
    events := [];
    var offset := 0;
    assert b[0..] == b;
    assert [] + Parsed(b, path) == Parsed(b, path);
    while offset + METADATA_LENGTH <= |b|
      invariant 0 <= offset <= |b| && offset == Total(events)
      invariant forall i | 0 <= i < |events| :: events[i].length >= METADATA_LENGTH
      invariant Parsed(b, path) == events + Parsed(b[offset..], path)
      decreases |b| - offset
    {
      var rest := b[offset..];
      var e := FirstEvent(rest, path);
      LengthIsAdvance(rest, path);
      assert (events + [e])[..|events + [e]| - 1] == events;
      Associate(events, [e], Parsed(rest[e.length..], path));
      assert rest[e.length..] == b[offset + e.length..];
      events := events + [e];
      offset := offset + e.length;
    }
    assert events + [] == events;
  }

  lemma LengthIsAdvance(b: Bytes, path: int -> Option<string>)
    requires |b| >= METADATA_LENGTH
    ensures FirstEvent(b, path).length == Advance(b)
  {
  }

  // ------------------------------------------------------------ deciding one event

  datatype Mode = MonitorOnly | Enforcement

  datatype Decision = Allow | AllowMonitor | Warn | Deny | Invalid

  datatype Analysis = Analysis(late: bool, error: bool, decision: Decision)

  /** An exception of a kind the controller catches, or of any other kind. */
  datatype Raise = Caught | Uncaught

  /** The points of an evaluation at which something may be raised. */
  datatype Point = AtProcess | AtExcluded | AtMonitored | AtFailure | AtAnalysis | AtFinal

  datatype Write = Written | Short | NotOpen | Raises(raised: Raise)

  /** Everything that one evaluation asks of its surroundings. */
  datatype Env = Env(
    raises: Point -> Option<Raise>,
    ownProcess: bool, excluded: bool, monitored: bool,
    file: Option<(bool, nat)>, sizeLimit: nat, expired: bool, analysis: Analysis,
    failClosed: bool, modeAtFailure: Mode, modeAtEnd: Mode, write: Write, emitted: bool)

  function FailureDecision(env: Env): Result<Decision, Raise> {
    match env.raises(AtFailure)
    case Some(x) => Err(x)
    case None => Ok(if env.failClosed && env.modeAtFailure == Enforcement then Deny else AllowMonitor)
  }

  function Analyzed(env: Env): Result<Decision, Raise> {
    match env.raises(AtAnalysis)
    case Some(x) => Err(x)
    case None =>
      if env.analysis.late || env.analysis.error || env.analysis.decision == Invalid then FailureDecision(env)
      else Ok(env.analysis.decision)
  }

  function Inspected(env: Env): Result<Decision, Raise> {
    match env.file
    case None => FailureDecision(env)
    case Some((regular, size)) =>
      if !regular then Ok(Allow)
      else if size > env.sizeLimit then Ok(AllowMonitor)
      else if env.expired then FailureDecision(env)
      else Analyzed(env)
  }

  function Evaluated(e: Event, env: Env): Result<Decision, Raise> {
    if e.error.Some? then FailureDecision(env)
    else if env.raises(AtProcess).Some? then Err(env.raises(AtProcess).value)
    else if env.ownProcess then Ok(Allow)
    else if env.raises(AtExcluded).Some? then Err(env.raises(AtExcluded).value)
    else if env.excluded then Ok(Allow)
    else if env.raises(AtMonitored).Some? then Err(env.raises(AtMonitored).value)
    else if !env.monitored then Ok(Allow)
    else Inspected(env)
  }

  datatype Response = FanAllow | FanDeny

  /** What reaches the kernel. */
  function Answer(e: Event, env: Env): Response {
    if Evaluated(e, env) == Ok(Deny) && env.raises(AtFinal).None? && env.modeAtEnd == Enforcement then FanDeny
    else FanAllow
  }

  // ------------------------------------------------------------ when a denial is due

  /** A readable event of another program under a monitored path, with nothing raised on the way. */
  predicate Admitted(e: Event, env: Env) {
    && e.error == None
    && env.raises(AtProcess) == None && !env.ownProcess
    && env.raises(AtExcluded) == None && !env.excluded
    && env.raises(AtMonitored) == None && env.monitored
  }

  /** A regular file within the size limit. */
  predicate Analyzable(env: Env) {
    env.file.Some? && env.file.value.0 && env.file.value.1 <= env.sizeLimit
  }

  /** The analysis that was asked for has come back. */
  predicate AnalysisDone(e: Event, env: Env) {
    Admitted(e, env) && Analyzable(env) && !env.expired && env.raises(AtAnalysis) == None
  }

  /** What counts as a failure: a parse error, a failed fstat, a missed deadline, a late, failed or invalid analysis. */
  predicate Fails(e: Event, env: Env) {
    || e.error != None
    || (Admitted(e, env) && env.file == None)
    || (Admitted(e, env) && Analyzable(env) && env.expired)
    || (AnalysisDone(e, env) && (env.analysis.late || env.analysis.error || env.analysis.decision == Invalid))
  }

  /**
   When the kernel is to be told "deny": enforcement is on at the end, and either a clean
   and timely analysis says so, or a failure meets a fail-closed policy under enforcement.
   */
  predicate ShouldDeny(e: Event, env: Env) {
    && env.raises(AtFinal) == None && env.modeAtEnd == Enforcement
    && (|| (AnalysisDone(e, env) && env.analysis == Analysis(false, false, Deny))
        || (Fails(e, env) && env.raises(AtFailure) == None && env.failClosed && env.modeAtFailure == Enforcement))
  }

  /** What is raised before the answer, at the first point that raises. */
  predicate RaisedEarly(e: Event, env: Env, x: Raise) {
    || (e.error == None && env.raises(AtProcess) == Some(x))
    || (e.error == None && env.raises(AtProcess) == None && !env.ownProcess && env.raises(AtExcluded) == Some(x))
    || (e.error == None && env.raises(AtProcess) == None && !env.ownProcess
        && env.raises(AtExcluded) == None && !env.excluded && env.raises(AtMonitored) == Some(x))
    || (Admitted(e, env) && Analyzable(env) && !env.expired && env.raises(AtAnalysis) == Some(x))
    || (Fails(e, env) && env.raises(AtFailure) == Some(x))
  }

  predicate Raised(e: Event, env: Env, x: Raise) {
    || RaisedEarly(e, env, x)
    || (!RaisedEarly(e, env, Caught) && !RaisedEarly(e, env, Uncaught) && env.raises(AtFinal) == Some(x))
  }

  lemma DenyExactly(e: Event, env: Env)
    ensures Answer(e, env) == FanDeny <==> ShouldDeny(e, env)
  {
  }

  lemma EarlyExactly(e: Event, env: Env, x: Raise)
    ensures RaisedEarly(e, env, x) <==> Evaluated(e, env) == Err(x)
  {
  }

  lemma RaisedExactly(e: Event, env: Env, x: Raise)
    ensures Raised(e, env, x) <==>
      Evaluated(e, env) == Err(x) || (Evaluated(e, env).Ok? && env.raises(AtFinal) == Some(x))
  {
    hide RaisedEarly, Evaluated;
    EarlyExactly(e, env, Caught);
    EarlyExactly(e, env, Uncaught);
    if Evaluated(e, env).Err? {
      match Evaluated(e, env).error {
        case Caught => assert Evaluated(e, env) == Err(Caught);
        case Uncaught => assert Evaluated(e, env) == Err(Uncaught);
      }
    }
  }

  /** Responding always closes the event's descriptor. */
  datatype Act = Respond(fd: int, value: Response) | Close(closed: int)

  function Responding(fd: int, value: Response): seq<Act> {
    [Respond(fd, value)] + if fd >= 0 then [Close(fd)] else []
  }

  predicate Bit(mask: nat, weight: nat)
    requires weight > 0
  {
    mask / weight % 2 == 1
  }

  predicate Overflow(e: Event) {
    Bit(e.mask, QUEUE_OVERFLOW)
  }

  predicate Permission(e: Event) {
    !Overflow(e) && Bit(e.mask, OPEN_EXEC_PERM) && e.fd >= 0
  }

  /**
   What the reader meets while it handles one event itself: whether the pool takes
   the job, how a write to the kernel ends, and whether the record can be emitted
   (an audit error is not one of the exceptions that emitting catches).
   */
  datatype Reply = Reply(submitted: bool, write: Write, emitted: bool)

  /** The exceptions that leave the reader's loop and end its thread. */
  predicate Fatal(e: Event, slot: bool, x: Reply) {
    if Overflow(e) then !x.emitted
    else if !Permission(e) then false
    else if slot then !x.submitted
    else x.write.Raises? || !x.emitted
  }

  /** What the reader itself does to the event's descriptor. */
  function ReaderActs(e: Event, slot: bool): seq<Act> {
    if Overflow(e) then []
    else if !Permission(e) then (if e.fd >= 0 then [Close(e.fd)] else [])
    else if slot then []
    else Responding(e.fd, FanAllow)
  }

  function BatchActs(events: seq<Event>, slots: seq<bool>): seq<Act>
    requires |events| <= |slots|
  {
    if events == [] then []
    else
      var n := |events| - 1;
      BatchActs(events[..n], slots) + ReaderActs(events[n], slots[n])
  }

  /** The record written for the audit log. */
  datatype Record = Record(kernelResponse: Option<Response>, ok: bool)

  class Controller {
    /** Every response attempt and every descriptor closed, in order. */
    ghost var log: seq<Act>

    constructor ()
      ensures log == []
    {
      log := [];
    }

    /** FanotifyInterface.respond: the write may fail in any way; the descriptor is closed in every case. */
    method SendResponse(fd: int, value: Response, write: Write) returns (r: Result<bool, Raise>)
      modifies this
      ensures log == old(log) + Responding(fd, value)
      ensures r == if fd < 0 || write.NotOpen? then Ok(false)
                   else if write.Raises? then Err(write.raised)
                   else Ok(write.Written?)
    {
      log := log + [Respond(fd, value)];
      if fd < 0 {
        return Ok(false);
      }
      match write {
        case NotOpen => r := Ok(false);
        case Raises(x) => r := Err(x);
        case Written => r := Ok(true);
        case Short => r := Ok(false);
      }
      log := log + [Close(fd)];
    }

    /**
     One dispatched permission event: whatever is raised, at whatever point, there
     is exactly one response attempt and one close. The record names the response
     attempted, except that a denial whose write raised is recorded as an allow.
     */
    method HandleEvent(e: Event, env: Env) returns (rec: Record, escaped: bool)
      modifies this
      ensures log == old(log) + Responding(e.fd, Answer(e, env))
      ensures log == old(log) + [Respond(e.fd, if ShouldDeny(e, env) then FanDeny else FanAllow)] +
                     if e.fd >= 0 then [Close(e.fd)] else []
      ensures rec.kernelResponse ==
              Some(if ShouldDeny(e, env) && !(e.fd >= 0 && env.write == Raises(Caught)) then FanDeny else FanAllow)
      ensures rec.ok <==> e.fd >= 0 && env.write == Written
      ensures escaped <==>
        Raised(e, env, Uncaught) || (e.fd >= 0 && env.write == Raises(Uncaught)) || !env.emitted
    {
      hide Evaluated, ShouldDeny, Raised;
      DenyExactly(e, env);
      RaisedExactly(e, env, Uncaught);
      RaisedExactly(e, env, Caught);
      rec := Record(None, false);
      escaped := false;
      var attempted := false;
      var requested := Evaluated(e, env);
      var raised: Option<Raise> := if requested.Err? then Some(requested.error) else env.raises(AtFinal);
      if raised.None? {
        var value := if requested.value == Deny && env.modeAtEnd == Enforcement then FanDeny else FanAllow;
        rec := rec.(kernelResponse := Some(value));
        attempted := true;
        var sent := SendResponse(e.fd, value, env.write);
        if sent.Ok? {
          rec := rec.(ok := sent.value);
        } else {
          raised := Some(sent.error);
        }
      }
      if raised == Some(Caught) {
        rec := rec.(kernelResponse := Some(FanAllow));
      }
      if !attempted {
        attempted := true;
        var sent := SendResponse(e.fd, FanAllow, env.write);
        rec := Record(Some(FanAllow), sent.Ok? && sent.value);
        escaped := sent == Err(Uncaught);
      }
      escaped := escaped || raised == Some(Uncaught) || !env.emitted;
    }

    /** No free slot: the reader itself answers, always allows, and lets whatever is raised escape. */
    method RespondSaturated(e: Event, x: Reply) returns (escaped: bool)
      modifies this
      ensures log == old(log) + Responding(e.fd, FanAllow)
      ensures escaped <==> (e.fd >= 0 && x.write.Raises?) || !x.emitted
    {
      var sent := SendResponse(e.fd, FanAllow, x.write);
      escaped := sent.Err? || !x.emitted;
    }

    /**
     One batch of the reader's loop: `slots` says which events find a free slot. The
     thread ends at the first fatal event and leaves the rest of the batch alone.
     */
    method ReadBatch(events: seq<Event>, slots: seq<bool>, replies: seq<Reply>) returns (alive: bool, handled: nat)
      requires |events| == |slots| == |replies|
      modifies this
      ensures handled <= |events| && log == old(log) + BatchActs(events[..handled], slots)
      ensures alive ==> handled == |events|
      ensures forall i | 0 <= i < handled - (if alive then 0 else 1) :: !Fatal(events[i], slots[i], replies[i])
      ensures !alive ==> handled > 0 && Fatal(events[handled - 1], slots[handled - 1], replies[handled - 1])
    {
      hide Responding, Permission, Overflow;
      handled := 0;
      alive := true;
      assert log + [] == log;
      while handled < |events| && alive
        invariant handled <= |events| && log == old(log) + BatchActs(events[..handled], slots)
        invariant forall i | 0 <= i < handled - (if alive then 0 else 1) :: !Fatal(events[i], slots[i], replies[i])
        invariant !alive ==> handled > 0 && Fatal(events[handled - 1], slots[handled - 1], replies[handled - 1])
        decreases |events| - handled
      {
        var e, x := events[handled], replies[handled];
        assert events[..handled + 1][..handled] == events[..handled];
        BatchNext(old(log), BatchActs(events[..handled], slots), ReaderActs(e, slots[handled]));
        if Overflow(e) {
          alive := x.emitted;
        } else if !Permission(e) {
          CloseEventFd(e.fd);
        } else if slots[handled] {
          alive := x.submitted;
        } else {
          PermissionHasFd(e);
          var escaped := RespondSaturated(e, x);
          alive := !escaped;
        }
        handled := handled + 1;
      }
    }

    method CloseEventFd(fd: int)
      modifies this
      ensures log == old(log) + if fd >= 0 then [Close(fd)] else []
    {
      if fd >= 0 {
        log := log + [Close(fd)];
      }
    }
  }

  // ------------------------------------------------------------ the reader and its workers

  lemma BatchNext(log: seq<Act>, acts: seq<Act>, next: seq<Act>)
    ensures log + (acts + next) == (log + acts) + next && (log + acts) + [] == log + acts
  {
  }

  lemma PermissionHasFd(e: Event)
    requires Permission(e)
    ensures e.fd >= 0
  {
  }

  /**
   `used` counts acquired slots, `batch` the events read and not yet handled. An
   event is stranded when the pool refuses it, and abandoned when it was read but the
   reader's thread ended before it.
   */
  datatype System = System(
    alive: bool, batch: seq<Event>, used: nat, inFlight: seq<Event>, stranded: seq<Event>, abandoned: seq<Event>,
    ended: seq<Event>, seen: seq<Event>, log: seq<Act>)

  const START := System(true, [], 0, [], [], [], [], [], [])

  /** The reader takes a batch, or handles the next event of it; workers finish jobs in any order in between. */
  datatype Step =
    | Read(events: seq<Event>)
    | ReadRaises(caught: bool)
    | Handle(x: Reply)
    | Finish(job: nat, env: Env)

  function Placed(slots: nat, s: System, e: Event, x: Reply): System {
    var slot := s.used < slots;
    if Permission(e) && slot then
      var t := s.(used := s.used + 1);
      if x.submitted then t.(inFlight := t.inFlight + [e]) else t.(stranded := t.stranded + [e])
    else s.(ended := s.ended + [e], log := s.log + ReaderActs(e, slot))
  }

  /** The next event, or a read that raises anything but an OSError, would end the reader's thread. */
  predicate Dies(slots: nat, s: System, step: Step) {
    || (step.Handle? && s.batch != [] && Fatal(s.batch[0], s.used < slots, step.x))
    || (step == ReadRaises(false) && s.alive && s.batch == [])
  }

  function Next(slots: nat, s: System, step: Step): System {
    match step
    case Read(events) =>
      if !s.alive || s.batch != [] then s else s.(batch := events, seen := s.seen + events)
    case ReadRaises(caught) => if Dies(slots, s, step) then s.(alive := false) else s
    case Handle(x) =>
      if s.batch == [] then s
      else
        var t := Placed(slots, s, s.batch[0], x);
        var rest := s.batch[1..];
        if Dies(slots, s, step) then t.(alive := false, abandoned := t.abandoned + rest, batch := [])
        else t.(batch := rest)
    case Finish(job, env) =>
      if job >= |s.inFlight| || s.used == 0 then s
      else
        var e := s.inFlight[job];
        s.(used := s.used - 1, inFlight := s.inFlight[..job] + s.inFlight[job + 1..], ended := s.ended + [e],
           log := s.log + Responding(e.fd, Answer(e, env)))
  }

  function Run(slots: nat, steps: seq<Step>): System {
    if steps == [] then START
    else Next(slots, Run(slots, steps[..|steps| - 1]), steps[|steps| - 1])
  }

  function ClosedBy(a: Act): seq<int> {
    if a.Close? then [a.closed] else []
  }

  function Closes(log: seq<Act>): seq<int> {
    if log == [] then [] else Closes(log[..|log| - 1]) + ClosedBy(log[|log| - 1])
  }

  function AnsweredBy(a: Act): seq<int> {
    if a.Respond? then [a.fd] else []
  }

  function Answers(log: seq<Act>): seq<int> {
    if log == [] then [] else Answers(log[..|log| - 1]) + AnsweredBy(log[|log| - 1])
  }

  /** The descriptors of the events that the reader or a worker closes, in order. */
  function Descriptors(events: seq<Event>): seq<int> {
    if events == [] then []
    else
      var e := events[|events| - 1];
      Descriptors(events[..|events| - 1]) + if e.fd >= 0 && !Overflow(e) then [e.fd] else []
  }

  function PermissionFds(events: seq<Event>): seq<int> {
    if events == [] then []
    else
      var e := events[|events| - 1];
      PermissionFds(events[..|events| - 1]) + if Permission(e) then [e.fd] else []
  }

  /** Every event read is in exactly one place. */
  predicate Accounted(s: System) {
    multiset(s.seen) == multiset(s.batch) + multiset(s.inFlight) + multiset(s.stranded) + multiset(s.abandoned)
                        + multiset(s.ended)
  }

  predicate Inv(slots: nat, s: System) {
    && s.used == |s.inFlight| + |s.stranded| && s.used <= slots
    && Accounted(s)
    && Closes(s.log) == Descriptors(s.ended)
    && Answers(s.log) == PermissionFds(s.ended)
    && (forall e | e in s.inFlight :: Permission(e))
    && (s.alive ==> s.stranded == [] && s.abandoned == [])
    && (!s.alive ==> s.batch == [] && |s.stranded| <= 1)
  }

  lemma LogSnoc(log: seq<Act>, a: Act)
    ensures Closes(log + [a]) == Closes(log) + ClosedBy(a) && Answers(log + [a]) == Answers(log) + AnsweredBy(a)
  {
    assert (log + [a])[..|log + [a]| - 1] == log;
  }

  lemma LogResponding(log: seq<Act>, fd: int, value: Response)
    ensures Closes(log + Responding(fd, value)) == Closes(log) + if fd >= 0 then [fd] else []
    ensures Answers(log + Responding(fd, value)) == Answers(log) + [fd]
  {
    hide Closes, Answers;
    LogSnoc(log, Respond(fd, value));
    if fd >= 0 {
      LogSnoc(log + [Respond(fd, value)], Close(fd));
      assert log + [Respond(fd, value)] + [Close(fd)] == log + Responding(fd, value);
      assert Closes(log) + [] + [fd] == Closes(log) + [fd];
      assert Answers(log) + [fd] + [] == Answers(log) + [fd];
    } else {
      assert log + Responding(fd, value) == log + [Respond(fd, value)];
    }
  }

  lemma EndedSnoc(events: seq<Event>, e: Event)
    ensures Descriptors(events + [e]) == Descriptors(events) + if e.fd >= 0 && !Overflow(e) then [e.fd] else []
    ensures PermissionFds(events + [e]) == PermissionFds(events) + if Permission(e) then [e.fd] else []
    ensures multiset(events + [e]) == multiset(events) + multiset{e}
  {
    assert (events + [e])[..|events + [e]| - 1] == events;
  }

  lemma LogReader(log: seq<Act>, e: Event, slot: bool)
    requires !(Permission(e) && slot)
    ensures Closes(log + ReaderActs(e, slot)) == Closes(log) + if e.fd >= 0 && !Overflow(e) then [e.fd] else []
    ensures Answers(log + ReaderActs(e, slot)) == Answers(log) + if Permission(e) then [e.fd] else []
  {
    hide Closes, Answers, Bit;
    LogResponding(log, e.fd, FanAllow);
    LogSnoc(log, Close(e.fd));
    assert log + [] == log;
    assert Answers(log) + [] == Answers(log) && Closes(log) + [] == Closes(log);
  }

  lemma TakeOut(events: seq<Event>, i: nat)
    requires i < |events|
    ensures multiset(events) == multiset(events[..i] + events[i + 1..]) + multiset{events[i]}
  {
    assert events == events[..i] + [events[i]] + events[i + 1..];
  }

  lemma ReadKeeps(slots: nat, s: System, events: seq<Event>)
    requires Inv(slots, s)
    ensures Inv(slots, Next(slots, s, Read(events)))
  {
    hide Closes, Answers, Descriptors, PermissionFds, Permission;
  }

  lemma RaisesKeeps(slots: nat, s: System, step: Step)
    requires Inv(slots, s) && step.ReadRaises?
    ensures Inv(slots, Next(slots, s, step))
  {
    hide Closes, Answers, Descriptors, PermissionFds, Permission, Fatal;
  }

  lemma RefusedIsFatal(e: Event, x: Reply)
    requires Permission(e)
    ensures !x.submitted ==> Fatal(e, true, x)
  {
    hide Permission, Overflow;
    PermissionNotOverflow(e);
  }

  lemma HeadOut(events: seq<Event>)
    requires events != []
    ensures multiset(events) == multiset(events[1..]) + multiset{events[0]}
  {
    assert events == [events[0]] + events[1..];
  }

  lemma PutAnywhere(a: multiset<Event>, b: multiset<Event>, c: multiset<Event>, d: multiset<Event>,
                    f: multiset<Event>, e: Event)
    ensures (a + multiset{e}) + b + c + d + f == a + (b + multiset{e}) + c + d + f
    ensures (a + multiset{e}) + b + c + d + f == a + b + (c + multiset{e}) + d + f
    ensures (a + multiset{e}) + b + c + d + f == a + b + c + d + (f + multiset{e})
  {
  }

  lemma PlacedAccounted(slots: nat, s: System, x: Reply)
    requires Accounted(s) && s.batch != []
    ensures Accounted(Placed(slots, s, s.batch[0], x).(batch := s.batch[1..]))
  {
    hide Permission, ReaderActs;
    var e, rest := s.batch[0], s.batch[1..];
    HeadOut(s.batch);
    EndedSnoc(s.ended, e);
    EndedSnoc(s.inFlight, e);
    EndedSnoc(s.stranded, e);
    PutAnywhere(multiset(rest), multiset(s.inFlight), multiset(s.stranded), multiset(s.abandoned), multiset(s.ended),
                e);
  }

  /** Taking the first event of the batch and putting it where it belongs. */
  lemma PlacedKeeps(slots: nat, s: System, x: Reply)
    requires Inv(slots, s) && s.alive && s.batch != []
    ensures var e, t := s.batch[0], Placed(slots, s, s.batch[0], x).(batch := s.batch[1..]);
      && t.used == |t.inFlight| + |t.stranded| && t.used <= slots && Accounted(t)
      && Closes(t.log) == Descriptors(t.ended) && Answers(t.log) == PermissionFds(t.ended)
      && (forall f | f in t.inFlight :: Permission(f)) && t.abandoned == [] && |t.stranded| <= 1
      && (t.stranded != [] ==> Fatal(e, s.used < slots, x))
  {
    hide Closes, Answers, Descriptors, PermissionFds, Permission, Overflow, ReaderActs, Fatal, Accounted;
    var e := s.batch[0];
    PermissionNotOverflow(e);
    PlacedAccounted(slots, s, x);
    if Permission(e) && s.used < slots {
      RefusedIsFatal(e, x);
    } else {
      EndedSnoc(s.ended, e);
      LogReader(s.log, e, s.used < slots);
    }
  }

  lemma PermissionNotOverflow(e: Event)
    ensures Permission(e) ==> !Overflow(e)
  {
  }

  lemma HandleKeeps(slots: nat, s: System, x: Reply)
    requires Inv(slots, s)
    ensures Inv(slots, Next(slots, s, Handle(x)))
  {
    hide Closes, Answers, Descriptors, PermissionFds, Permission, Placed, Fatal;
    if s.batch != [] {
      PlacedKeeps(slots, s, x);
      PlacedFrame(slots, s, s.batch[0], x);
    }
  }

  lemma PlacedFrame(slots: nat, s: System, e: Event, x: Reply)
    ensures var t := Placed(slots, s, e, x); t.alive == s.alive && t.seen == s.seen && t.abandoned == s.abandoned
  {
  }

  lemma StillPermissions(events: seq<Event>, i: nat)
    requires i < |events| && forall e | e in events :: Permission(e)
    ensures forall e | e in events[..i] + events[i + 1..] :: Permission(e)
  {
    hide Permission;
  }

  lemma FinishAccounted(slots: nat, s: System, job: nat, env: Env)
    requires Accounted(s) && s.used > 0 && job < |s.inFlight|
    ensures Accounted(Next(slots, s, Finish(job, env)))
  {
    hide Permission, Responding, Answer;
    var e := s.inFlight[job];
    var left := s.inFlight[..job] + s.inFlight[job + 1..];
    TakeOut(s.inFlight, job);
    EndedSnoc(s.ended, e);
    MoveOne(multiset(s.batch), multiset(left), multiset(s.stranded), multiset(s.abandoned), multiset(s.ended), e);
  }

  lemma MoveOne(a: multiset<Event>, b: multiset<Event>, c: multiset<Event>, d: multiset<Event>,
                f: multiset<Event>, e: Event)
    ensures a + (b + multiset{e}) + c + d + f == a + b + c + d + (f + multiset{e})
  {
  }

  lemma FinishLog(slots: nat, s: System, job: nat, env: Env)
    requires s.used > 0 && job < |s.inFlight| && Permission(s.inFlight[job])
    requires Closes(s.log) == Descriptors(s.ended) && Answers(s.log) == PermissionFds(s.ended)
    ensures var t := Next(slots, s, Finish(job, env));
      Closes(t.log) == Descriptors(t.ended) && Answers(t.log) == PermissionFds(t.ended)
  {
    hide Closes, Answers, Descriptors, PermissionFds, Permission, Overflow, Responding, Answer;
    var e := s.inFlight[job];
    EndedSnoc(s.ended, e);
    PermissionNotOverflow(e);
    LogResponding(s.log, e.fd, Answer(e, env));
  }

  lemma FinishKeeps(slots: nat, s: System, job: nat, env: Env)
    requires Inv(slots, s)
    ensures Inv(slots, Next(slots, s, Finish(job, env)))
  {
    hide Closes, Answers, Descriptors, PermissionFds, Permission, Responding, Answer, Accounted;
    if job < |s.inFlight| && s.used > 0 {
      StillPermissions(s.inFlight, job);
      FinishAccounted(slots, s, job, env);
      FinishLog(slots, s, job, env);
    }
  }

  /** Some event so far ended the reader's thread. */
  predicate Died(slots: nat, steps: seq<Step>) {
    exists k | 0 <= k < |steps| :: Dies(slots, Run(slots, steps[..k]), steps[k])
  }

  /**
   Over every interleaving of reader and workers: each event read is waiting in the
   batch, in flight, ended, stranded or abandoned; the ended permission events have
   had exactly one response attempt and one close each; slots are the events in
   flight plus the stranded one. The reader lives exactly as long as no read raised
   anything but an OSError, no submission was refused, and no saturated answer and no
   overflow record raised; while it lives nothing is stranded or abandoned.
   */
  lemma {:induction false} OneResponseEach(slots: nat, steps: seq<Step>)
    ensures Inv(slots, Run(slots, steps))
    ensures Run(slots, steps).alive <==> !Died(slots, steps)
  {
    if steps != [] {
      hide Inv, Next, Dies;
      var s, step := Run(slots, steps[..|steps| - 1]), steps[|steps| - 1];
      OneResponseEach(slots, steps[..|steps| - 1]);
      DiedSnoc(slots, steps);
      AliveNext(slots, s, step);
      match step {
        case Read(events) => ReadKeeps(slots, s, events);
        case ReadRaises(_) => RaisesKeeps(slots, s, step);
        case Handle(x) => HandleKeeps(slots, s, x);
        case Finish(job, env) => FinishKeeps(slots, s, job, env);
      }
    }
  }

  lemma AliveNext(slots: nat, s: System, step: Step)
    ensures Next(slots, s, step).alive <==> s.alive && !Dies(slots, s, step)
  {
    hide Permission, Overflow, Fatal, ReaderActs;
  }

  lemma DiedSnoc(slots: nat, steps: seq<Step>)
    requires steps != []
    ensures var n := |steps| - 1;
      Died(slots, steps) <==> Died(slots, steps[..n]) || Dies(slots, Run(slots, steps[..n]), steps[n])
  {
    hide Run, Dies;
    var n := |steps| - 1;
    var init := steps[..n];
    assert forall k | 0 <= k < n :: init[..k] == steps[..k] && init[k] == steps[k];
    if Died(slots, init) {
      var k :| 0 <= k < |init| && Dies(slots, Run(slots, init[..k]), init[k]);
      assert Dies(slots, Run(slots, steps[..k]), steps[k]);
    }
    if Died(slots, steps) {
      var k :| 0 <= k < |steps| && Dies(slots, Run(slots, steps[..k]), steps[k]);
      if k < n {
        assert Dies(slots, Run(slots, init[..k]), init[k]);
      }
    }
  }

  /** A dead reader takes nothing more: what was read, and where the unanswered rest lies, stays as it is. */
  lemma DeadReader(slots: nat, steps: seq<Step>, step: Step)
    requires !Run(slots, steps).alive
    ensures var s, t := Run(slots, steps), Run(slots, steps + [step]);
      !t.alive && t.seen == s.seen && t.abandoned == s.abandoned && t.stranded == s.stranded
  {
    hide Permission, Overflow, Fatal, ReaderActs, Placed, Closes, Answers, Descriptors, PermissionFds;
    assert (steps + [step])[..|steps + [step]| - 1] == steps;
    OneResponseEach(slots, steps);
  }

  /** At the fatal event the whole unhandled rest of the batch is abandoned, without a response or a close. */
  lemma RestAbandoned(slots: nat, steps: seq<Step>, x: Reply)
    requires var s := Run(slots, steps); Dies(slots, s, Handle(x))
    ensures var s, t := Run(slots, steps), Run(slots, steps + [Handle(x)]);
      && t.abandoned == s.batch[1..]
      && t.log == s.log + if Permission(s.batch[0]) && s.used < slots then []
                          else ReaderActs(s.batch[0], s.used < slots)
  {
    hide Permission, Overflow, Fatal, ReaderActs, Closes, Answers, Descriptors, PermissionFds;
    assert (steps + [Handle(x)])[..|steps + [Handle(x)]| - 1] == steps;
    OneResponseEach(slots, steps);
    assert [] + Run(slots, steps).batch[1..] == Run(slots, steps).batch[1..];
  }

  /** Two permission events and a pool that refuses the first: the second is never answered. */
  lemma AbandonedExample(e: Event, f: Event, write: Write)
    requires Permission(e) && Permission(f)
    ensures var s := Run(1, [Read([e, f]), Handle(Reply(false, write, true))]);
      !s.alive && s.stranded == [e] && s.abandoned == [f] && s.ended == [] && s.log == []
  {
    hide Permission, ReaderActs;
    var read, handle := Read([e, f]), Handle(Reply(false, write, true));
    var steps := [read, handle];
    PermissionNotOverflow(e);
    assert steps[..1] == [read] && [read][..0] == [];
    assert Run(1, []) == START;
    var s := START.(batch := [e, f], seen := [] + [e, f]);
    assert Run(1, [read]) == Next(1, START, read) == s;
    assert [e, f][1..] == [f] && [] + [f] == [f] && [] + [e] == [e];
    assert Run(1, steps) == Next(1, s, handle);
  }

  /** A denial needs enforcement to have been read, and comes from the analysis or from a fail-closed path. */
  lemma DenyMeaning(e: Event, env: Env)
    requires Answer(e, env) == FanDeny
    ensures env.modeAtEnd == Enforcement
    ensures
      || (env.failClosed && env.modeAtFailure == Enforcement)
      || (&& env.analysis == Analysis(false, false, Deny)
          && env.monitored && !env.excluded && !env.ownProcess && e.error.None?)
  {
  }
}

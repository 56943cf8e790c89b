/**
 The response engine: it owns one descriptor per bound file, has at most one
 successful response of each rank per correlation, and touches a process or a file
 only through a live binding. A response whose audit record raises is not credited,
 so a later call may try it again.
 */
module ResponseEngine {
  import opened Common
  import C = Correlation

  const MAX_BINDINGS: nat := 1024

  datatype Action = Allow | AllowMonitor | Warn | Deny | Terminate | Quarantine

  function RankOf(a: Action): nat {
    match a
    case Allow => 0
    case AllowMonitor => 1
    case Warn => 2
    case Deny => 3
    case Terminate => 4
    case Quarantine => 5
  }

  /** What a recommendation of the correlation engine is executed as. */
  function Mapped(a: C.Action): Action {
    match a
    case Continue => AllowMonitor
    case Alert => Warn
    case Terminate => Terminate
    case Quarantine => Quarantine
    case Deny => Deny
  }

  /** `process` and `file` stand for the captured identities; `fd` keeps the file open. */
  datatype Binding = Binding(
    id: string, pid: int, process: Option<nat>, file: Option<string>, fd: Option<nat>, boundAt: real)

  datatype Success = Success(id: string, action: Action)

  /** `bindings` is the dictionary in insertion order; `open` the descriptors the engine holds open. */
  datatype Books = Books(bindings: seq<Binding>, highest: map<string, int>, open: set<nat>, successes: seq<Success>)

  const EMPTY := Books([], map[], {}, [])

  // ------------------------------------------------------------ bindings

  function IndexOf(bs: seq<Binding>, id: string): (i: nat)
    ensures i <= |bs|
    ensures i < |bs| ==> bs[i].id == id
    ensures forall j | 0 <= j < i :: bs[j].id != id
  {
    FirstWhere(bs, (b: Binding) => b.id == id)
  }

  function Oldest(bs: seq<Binding>): (i: nat)
    requires bs != []
    ensures i < |bs|
    ensures forall j | 0 <= j < |bs| :: bs[i].boundAt <= bs[j].boundAt
    ensures forall j | 0 <= j < i :: bs[i].boundAt < bs[j].boundAt
  {
    LeastBy(bs, (b: Binding) => b.boundAt)
  }

  function FdOf(b: Binding): set<nat> {
    if b.fd.Some? then {b.fd.value} else {}
  }

  function Fds(bs: seq<Binding>): set<nat> {
    set i | 0 <= i < |bs| && bs[i].fd.Some? :: bs[i].fd.value
  }

  predicate Distinct(bs: seq<Binding>) {
    forall i, j | 0 <= i < j < |bs| :: bs[i].id != bs[j].id && (bs[i].fd.Some? ==> bs[i].fd != bs[j].fd)
  }

  /** Every open descriptor belongs to exactly one binding, and every bound descriptor is open. */
  predicate Owned(b: Books) {
    Distinct(b.bindings) && b.open == Fds(b.bindings) && |b.bindings| <= MAX_BINDINGS
  }

  function Dropped(b: Books, i: nat): Books
    requires i < |b.bindings|
  {
    b.(bindings := RemoveAt(b.bindings, i), open := b.open - FdOf(b.bindings[i]))
  }

  function Released(b: Books, id: string): Books {
    var i := IndexOf(b.bindings, id);
    if i == |b.bindings| then b else Dropped(b, i)
  }

  function Trimmed(b: Books): Books
    decreases |b.bindings|
  {
    if |b.bindings| >= MAX_BINDINGS then Trimmed(Dropped(b, Oldest(b.bindings))) else b
  }

  /** How opening and hashing the target ended; `fd` is the descriptor the kernel gave. */
  datatype Opening = NoPath | NotOpened | ClosedAgain(fd: nat) | Failed(fd: nat) | Opened(fd: nat, file: string)

  datatype Capture = NoPid | Gone | Captured(identity: nat)

  datatype Bound = Bound | Unbound | Raised

  function NewBinding(id: string, pid: int, capture: Capture, opening: Opening, now: real): Binding {
    Binding(id, Max(pid, 0), if capture.Captured? then Some(capture.identity) else None,
            if opening.Opened? then Some(opening.file) else None,
            if opening.Opened? then Some(opening.fd) else None, now)
  }

  function BindState(b: Books, id: string, pid: int, capture: Capture, opening: Opening, now: real): (Books, Bound) {
    if id == "" then (b, Unbound)
    else if opening.Failed? then (b, Bound.Raised)
    else if !capture.Captured? && !opening.Opened? then (b, Unbound)
    else
      var t := Trimmed(Released(b, id));
      var n := NewBinding(id, pid, capture, opening, now);
      (t.(bindings := t.bindings + [n], open := t.open + FdOf(n)), Bound.Bound)
  }

  function ClosedAll(b: Books, ids: seq<string>): Books {
    if ids == [] then b else Released(ClosedAll(b, ids[..|ids| - 1]), ids[|ids| - 1])
  }

  function Ids(bs: seq<Binding>): seq<string> {
    seq(|bs|, i requires 0 <= i < |bs| => bs[i].id)
  }

  // ------------------------------------------------------------ responses

  datatype Answer = Yes | Refuses | Breaks

  /** What the environment does during one call: the audit record, the kill, the quarantine. */
  datatype World = World(audited: bool, kill: Answer, move: Answer)

  datatype Settings = Settings(automatic: bool, protectedPath: string -> bool)

  datatype Target = Target(id: string, pid: int, denied: bool)

  datatype Outcome = Succeeded | Refused | Duplicate | Disabled | Raised

  function Recorded(o: Outcome, w: World): Outcome {
    if w.audited then o else Outcome.Raised
  }

  /** The binding the engine will act on: the recorded pid must be absent or the same. */
  function Usable(b: Books, t: Target): Option<Binding> {
    var i := IndexOf(b.bindings, t.id);
    if i < |b.bindings| && (b.bindings[i].pid == 0 || b.bindings[i].pid == Max(t.pid, 0)) then Some(b.bindings[i])
    else None
  }

  function TerminateBound(b: Books, t: Target, w: World): Outcome {
    match Usable(b, t)
    case None => Recorded(Refused, w)
    case Some(x) =>
      if x.process.None? || w.kill.Refuses? then Recorded(Refused, w)
      else if w.kill.Breaks? then Outcome.Raised
      else Recorded(Succeeded, w)
  }

  function QuarantineBound(s: Settings, b: Books, t: Target, w: World): Outcome {
    match Usable(b, t)
    case None => Recorded(Refused, w)
    case Some(x) =>
      if x.file.None? || s.protectedPath(x.file.value) then Recorded(Refused, w)
      else if x.process.Some? && !w.kill.Yes? then (if w.kill.Breaks? then Outcome.Raised else Recorded(Refused, w))
      else if w.move.Breaks? then Outcome.Raised
      else if w.move.Refuses? then Recorded(Refused, w)
      else Recorded(Succeeded, w)
  }

  function Attempted(s: Settings, b: Books, t: Target, a: Action, w: World): Outcome {
    match a
    case Allow => Recorded(Succeeded, w)
    case AllowMonitor => Recorded(Succeeded, w)
    case Warn => Recorded(Succeeded, w)
    case Deny => Recorded(if t.denied then Succeeded else Refused, w)
    case Terminate => if s.automatic then TerminateBound(b, t, w) else Recorded(Disabled, w)
    case Quarantine => if s.automatic then QuarantineBound(s, b, t, w) else Recorded(Disabled, w)
  }

  function Highest(b: Books, id: string): int {
    if id in b.highest then b.highest[id] else -1
  }

  function Credited(b: Books, id: string, a: Action): Books {
    b.(highest := if id == "" then b.highest else b.highest[id := Max(Highest(b, id), RankOf(a))],
       successes := b.successes + [Success(id, a)])
  }

  /** A quarantine that ended, well or refused, gives up its binding. */
  function AfterAttempt(s: Settings, b: Books, t: Target, a: Action, o: Outcome): Books {
    if a == Quarantine && s.automatic && !o.Raised? then Released(b, t.id) else b
  }

  function Execute(s: Settings, b: Books, t: Target, action: Option<Action>, w: World): (Books, Outcome) {
    match action
    case None => (b, Recorded(Refused, w))
    case Some(a) =>
      if t.id != "" && RankOf(a) <= Highest(b, t.id) then (b, Recorded(Duplicate, w))
      else
        var o := Attempted(s, b, t, a, w);
        var b' := AfterAttempt(s, b, t, a, o);
        (if o.Succeeded? then Credited(b', t.id, a) else b', o)
  }

  // ------------------------------------------------------------ the engine

  class Engine {
    const settings: Settings
    var bindings: seq<Binding>
    var highest: map<string, int>
    var open: set<nat>
    ghost var successes: seq<Success>

    constructor (settings: Settings)
      ensures this.settings == settings && Contents() == EMPTY
    {
      this.settings := settings;
      bindings, highest, open, successes := [], map[], {}, [];
    }

    ghost function Contents(): Books
      reads this
    {
      Books(bindings, highest, open, successes)
    }

    /** os.close: closing a descriptor that is not open is an error. */
    method CloseFd(fd: nat)
      requires fd in open
      modifies this`open
      ensures open == old(open) - {fd}
    {
      open := open - {fd};
    }

    method OpenFd(fd: nat)
      requires fd !in open
      modifies this`open
      ensures open == old(open) + {fd}
    {
      open := open + {fd};
    }

    method Drop(i: nat)
      requires i < |bindings| && FdOf(bindings[i]) <= open
      modifies this`bindings, this`open
      ensures Contents() == Dropped(old(Contents()), i)
    {
      var gone := bindings[i];
      bindings := RemoveAt(bindings, i);
      if gone.fd.Some? {
        CloseFd(gone.fd.value);
      }
    }

    /** The target file is opened, hashed and kept open, or closed again. */
    method OpenFileIdentity(opening: Opening)
      requires opening.ClosedAgain? || opening.Failed? || opening.Opened? ==> opening.fd !in open
      modifies this`open
      ensures open == if opening.Opened? then old(open) + {opening.fd} else old(open)
    {
      match opening {
        case NoPath =>
        case NotOpened =>
        case ClosedAgain(fd) => OpenFd(fd); CloseFd(fd);
        case Failed(fd) => OpenFd(fd); CloseFd(fd);
        case Opened(fd, _) => OpenFd(fd);
      }
    }

    method ReleaseBinding(id: string)
      requires Owned(Contents())
      modifies this`bindings, this`open
      ensures Contents() == Released(old(Contents()), id) && Owned(Contents())
    {
      var i := IndexOf(bindings, id);
      if i < |bindings| {
        DroppedOwned(Contents(), i);
        Drop(i);
      }
    }

    /** Drop a binding while a descriptor that no binding owns yet is open. */
    method DropBeside(i: nat, ghost held: set<nat>)
      requires i < |bindings| && Owned(Pure(held)) && held <= open
      modifies this`bindings, this`open
      ensures Pure(held) == Dropped(old(Pure(held)), i) && Owned(Pure(held)) && held <= open
    {
      hide Owned, RemoveAt;
      DroppedOwned(Pure(held), i);
      Drop(i);
      assert open - held == old(open) - held - FdOf(old(bindings)[i]);
    }

    /** Pop the correlation's previous binding and the oldest ones while the table is full. */
    method MakeRoom(id: string, ghost held: set<nat>)
      requires Owned(Pure(held)) && held <= open
      modifies this`bindings, this`open
      ensures Pure(held) == Trimmed(Released(old(Pure(held)), id)) && held <= open
    {
      hide Owned, Dropped;
      ghost var b0 := Pure(held);
      var i := IndexOf(bindings, id);
      if i < |bindings| {
        DropBeside(i, held);
      }
      while |bindings| >= MAX_BINDINGS
        invariant Trimmed(Pure(held)) == Trimmed(Released(b0, id))
        invariant Owned(Pure(held)) && held <= open
        decreases |bindings|
      {
        Fewer(Pure(held), Oldest(bindings));
        DropBeside(Oldest(bindings), held);
      }
    }

    method Bind(id: string, pid: int, capture: Capture, opening: Opening, now: real) returns (r: Bound)
      requires Owned(Contents())
      requires opening.ClosedAgain? || opening.Failed? || opening.Opened? ==> opening.fd !in open
      modifies this`bindings, this`open
      ensures (Contents(), r) == BindState(old(Contents()), id, pid, capture, opening, now)
      ensures Owned(Contents())
    {
      hide Owned, Trimmed, Released;
      if id == "" {
        return Unbound;
      }
      OpenFileIdentity(opening);
      if opening.Failed? {
        return Bound.Raised;
      }
      if !capture.Captured? && !opening.Opened? {
        return Unbound;
      }
      ghost var b0 := old(Contents());
      var n := NewBinding(id, pid, capture, opening, now);
      ghost var held := FdOf(n);
      assert Pure(held) == b0;
      BoundOwned(b0, id, pid, capture, opening, now);
      MakeRoom(id, held);
      assert open == Pure(held).open + held;
      bindings := bindings + [n];
      return Bound.Bound;
    }

    /** The books without the descriptor just opened and not yet bound. */
    ghost function Pure(held: set<nat>): Books
      reads this
    {
      Contents().(open := open - held)
    }

    method Close()
      requires Owned(Contents())
      modifies this`bindings, this`open
      ensures Contents() == ClosedAll(old(Contents()), Ids(old(bindings))) && Owned(Contents())
    {
      var keys := Ids(bindings);
      var k := 0;
      while k < |keys|
        invariant k <= |keys| && Owned(Contents())
        invariant Contents() == ClosedAll(old(Contents()), keys[..k])
      {
        assert keys[..k + 1][..k] == keys[..k];
        ReleaseBinding(keys[k]);
        k := k + 1;
      }
      assert keys[..k] == keys;
    }

    method ExecuteRecommendation(t: Target, action: Option<Action>, w: World) returns (o: Outcome)
      requires Owned(Contents())
      modifies this
      ensures (Contents(), o) == Execute(settings, old(Contents()), t, action, w)
      ensures Owned(Contents())
    {
      if action.None? {
        return Recorded(Refused, w);
      }
      var a := action.value;
      var previous := if t.id in highest then highest[t.id] else -1;
      if t.id != "" && RankOf(a) <= previous {
        return Recorded(Duplicate, w);
      }
      o := Attempted(settings, Books(bindings, highest, open, []), t, a, w);
      if a == Quarantine && settings.automatic && !o.Raised? {
        ReleaseBinding(t.id);
      }
      if o.Succeeded? {
        successes := successes + [Success(t.id, a)];
        if t.id != "" {
          highest := highest[t.id := Max(previous, RankOf(a))];
        }
      }
    }
  }

  // ------------------------------------------------------------ no leak and no double close

  lemma Fewer(b: Books, i: nat)
    requires i < |b.bindings|
    ensures |Dropped(b, i).bindings| < |b.bindings|
  {
  }

  lemma DroppedOwned(b: Books, i: nat)
    requires Owned(b) && i < |b.bindings|
    ensures Owned(Dropped(b, i)) && FdOf(b.bindings[i]) <= b.open
    ensures forall k | 0 <= k < |Dropped(b, i).bindings| :: Dropped(b, i).bindings[k].id != b.bindings[i].id
  {
    var bs, r := b.bindings, RemoveAt(b.bindings, i);
    forall k | 0 <= k < |r| ensures r[k] == bs[if k < i then k else k + 1] {
    }
    forall f | f in Fds(bs) - FdOf(bs[i]) ensures f in Fds(r) {
      var k :| 0 <= k < |bs| && bs[k].fd == Some(f);
      assert r[if k < i then k else k - 1] == bs[k];
    }
    assert Fds(r) == Fds(bs) - FdOf(bs[i]);
  }

  lemma ReleasedOwned(b: Books, id: string)
    requires Owned(b)
    ensures Owned(Released(b, id)) && IndexOf(Released(b, id).bindings, id) == |Released(b, id).bindings|
  {
    hide Owned;
    var i := IndexOf(b.bindings, id);
    if i < |b.bindings| {
      DroppedOwned(b, i);
    }
  }

  lemma {:induction false} TrimmedOwned(b: Books)
    requires Owned(b)
    ensures Owned(Trimmed(b)) && |Trimmed(b).bindings| < MAX_BINDINGS
    ensures forall x | x in Trimmed(b).bindings :: x in b.bindings
    ensures Trimmed(b).open <= b.open
    decreases |b.bindings|
  {
    if |b.bindings| >= MAX_BINDINGS {
      DroppedOwned(b, Oldest(b.bindings));
      TrimmedOwned(Dropped(b, Oldest(b.bindings)));
    }
  }

  lemma AppendedOwned(b: Books, n: Binding)
    requires Owned(b) && |b.bindings| < MAX_BINDINGS && FdOf(n) !! b.open
    requires forall x | x in b.bindings :: x.id != n.id
    ensures Owned(b.(bindings := b.bindings + [n], open := b.open + FdOf(n)))
  {
    var r := b.bindings + [n];
    forall i | 0 <= i < |b.bindings| && b.bindings[i].fd.Some? ensures b.bindings[i].fd.value in b.open {
    }
    forall f | f in b.open + FdOf(n) ensures f in Fds(r) {
      if f in b.open {
        var k :| 0 <= k < |b.bindings| && b.bindings[k].fd == Some(f);
        assert r[k] == b.bindings[k];
      } else {
        assert r[|b.bindings|] == n;
      }
    }
    assert Fds(r) == b.open + FdOf(n);
  }

  lemma BoundOwned(b: Books, id: string, pid: int, capture: Capture, opening: Opening, now: real)
    requires Owned(b)
    requires opening.Opened? ==> opening.fd !in b.open
    ensures Owned(BindState(b, id, pid, capture, opening, now).0)
  {
    hide Owned, Trimmed, Dropped;
    var u := Released(b, id);
    ReleasedOwned(b, id);
    ReleasedOpen(b, id);
    TrimmedOwned(u);
    var t := Trimmed(u);
    forall x | x in t.bindings ensures x.id != id {
      assert x in u.bindings;
    }
    AppendedOwned(t, NewBinding(id, pid, capture, opening, now));
  }

  lemma ReleasedOpen(b: Books, id: string)
    ensures Released(b, id).open <= b.open
  {
  }

  // ------------------------------------------------------------ what a destructive success means

  predicate Suppressed(b: Books, t: Target, a: Action) {
    t.id != "" && RankOf(a) <= Highest(b, t.id)
  }

  /** The binding a destructive response acts on. */
  predicate LiveFor(b: Books, t: Target, x: Binding) {
    x in b.bindings && x.id == t.id && (x.pid == 0 || x.pid == Max(t.pid, 0))
  }

  predicate CanTerminate(b: Books, t: Target, w: World) {
    exists i | 0 <= i < |b.bindings| :: LiveFor(b, t, b.bindings[i]) && b.bindings[i].process.Some? && w.kill.Yes?
  }

  predicate CanQuarantine(s: Settings, b: Books, t: Target, w: World) {
    exists i | 0 <= i < |b.bindings| :: LiveFor(b, t, b.bindings[i]) && b.bindings[i].file.Some?
      && !s.protectedPath(b.bindings[i].file.value) && (b.bindings[i].process.Some? ==> w.kill.Yes?) && w.move.Yes?
  }

  lemma UsableIs(b: Books, t: Target)
    requires Owned(b)
    ensures forall i | 0 <= i < |b.bindings| :: LiveFor(b, t, b.bindings[i]) <==> Usable(b, t) == Some(b.bindings[i])
    ensures Usable(b, t).Some? ==> exists i | 0 <= i < |b.bindings| :: b.bindings[i] == Usable(b, t).value
  {
    var k := IndexOf(b.bindings, t.id);
    forall i | 0 <= i < |b.bindings| ensures LiveFor(b, t, b.bindings[i]) <==> Usable(b, t) == Some(b.bindings[i]) {
      if b.bindings[i].id == t.id {
        assert i == k;
      }
    }
  }

  /**
   Terminate and quarantine succeed exactly when nothing as strong has succeeded,
   automatic actions are on, a live binding of this very correlation holds the
   identity the action needs, the target is not protected, and the environment
   and the audit log both carried the action out.
   */
  lemma DestructiveMeaning(s: Settings, b: Books, t: Target, w: World)
    requires Owned(b)
    ensures Execute(s, b, t, Some(Terminate), w).1 == Succeeded <==>
      !Suppressed(b, t, Terminate) && s.automatic && w.audited && CanTerminate(b, t, w)
    ensures Execute(s, b, t, Some(Quarantine), w).1 == Succeeded <==>
      !Suppressed(b, t, Quarantine) && s.automatic && w.audited && CanQuarantine(s, b, t, w)
  {
    hide Owned, LiveFor;
    UsableIs(b, t);
  }

  // ------------------------------------------------------------ runs

  datatype Call =
    | DoBind(id: string, pid: int, capture: Capture, opening: Opening, now: real)
    | DoRelease(rid: string)
    | DoClose
    | DoExecute(t: Target, action: Option<Action>, w: World)

  function Step(s: Settings, b: Books, c: Call): Books {
    match c
    case DoBind(id, pid, capture, opening, now) => BindState(b, id, pid, capture, opening, now).0
    case DoRelease(id) => Released(b, id)
    case DoClose => ClosedAll(b, Ids(b.bindings))
    case DoExecute(t, action, w) => Execute(s, b, t, action, w).0
  }

  function Run(s: Settings, calls: seq<Call>): Books {
    if calls == [] then EMPTY else Step(s, Run(s, calls[..|calls| - 1]), calls[|calls| - 1])
  }

  /** The kernel never hands out a descriptor that is still open. */
  predicate NewFd(b: Books, c: Call) {
    c.DoBind? && c.opening.Opened? ==> c.opening.fd !in b.open
  }

  predicate Kernel(s: Settings, calls: seq<Call>) {
    forall k | 0 <= k < |calls| :: NewFd(Run(s, calls[..k]), calls[k])
  }

  /** Successful ranks rise strictly per correlation, and the book of ranks is exactly the last of them. */
  predicate RanksOk(b: Books) {
    && (forall i, j | 0 <= i < j < |b.successes| ::
      b.successes[i].id == b.successes[j].id != "" ==> RankOf(b.successes[i].action) < RankOf(b.successes[j].action))
    && (forall i | 0 <= i < |b.successes| ::
      b.successes[i].id != "" ==> RankOf(b.successes[i].action) <= Highest(b, b.successes[i].id))
    && (forall id | id in b.highest :: id != "" && Earned(b, id))
  }

  predicate Earned(b: Books, id: string) {
    exists i | 0 <= i < |b.successes| :: b.successes[i].id == id && RankOf(b.successes[i].action) == Highest(b, id)
  }

  predicate Named(b: Books) {
    forall i | 0 <= i < |b.bindings| :: b.bindings[i].id != ""
  }

  predicate Inv(b: Books) {
    Owned(b) && RanksOk(b) && Named(b)
  }

  lemma CreditedRanks(b: Books, id: string, a: Action)
    requires RanksOk(b) && (id == "" || RankOf(a) > Highest(b, id))
    ensures RanksOk(Credited(b, id, a))
  {
    var c := Credited(b, id, a);
    var n := |b.successes|;
    forall i | 0 <= i < |c.successes| && c.successes[i].id != ""
      ensures RankOf(c.successes[i].action) <= Highest(c, c.successes[i].id)
    {
      if i < n { assert c.successes[i] == b.successes[i]; }
    }
    forall x | x in c.highest ensures x != "" && Earned(c, x) {
      if x == id {
        assert c.successes[n].id == id;
      } else {
        assert Earned(b, x);
        var i :| 0 <= i < n && b.successes[i].id == x && RankOf(b.successes[i].action) == Highest(b, x);
        assert c.successes[i] == b.successes[i];
      }
    }
  }

  lemma ReleasedKeeps(b: Books, id: string)
    requires Inv(b)
    ensures Inv(Released(b, id))
  {
    hide Owned, RanksOk;
    ReleasedOwned(b, id);
    SameRanks(b, Released(b, id));
  }

  lemma SameRanks(b: Books, c: Books)
    requires b.successes == c.successes && b.highest == c.highest && RanksOk(b)
    ensures RanksOk(c)
  {
    forall id | id in c.highest ensures Earned(c, id) {
      assert Earned(b, id);
    }
  }

  lemma {:induction false} ClosedAllKeeps(b: Books, ids: seq<string>)
    requires Inv(b)
    ensures Inv(ClosedAll(b, ids))
  {
    if ids != [] {
      hide Inv, Released;
      ClosedAllKeeps(b, ids[..|ids| - 1]);
      ReleasedKeeps(ClosedAll(b, ids[..|ids| - 1]), ids[|ids| - 1]);
    }
  }

  lemma {:induction false} TrimmedSame(b: Books)
    ensures Trimmed(b).successes == b.successes && Trimmed(b).highest == b.highest
    decreases |b.bindings|
  {
    if |b.bindings| >= MAX_BINDINGS {
      TrimmedSame(Dropped(b, Oldest(b.bindings)));
    }
  }

  lemma BindKeeps(b: Books, id: string, pid: int, capture: Capture, opening: Opening, now: real)
    requires Inv(b) && (opening.Opened? ==> opening.fd !in b.open)
    ensures Inv(BindState(b, id, pid, capture, opening, now).0)
  {
    hide Owned, RanksOk, Trimmed, Released;
    BoundOwned(b, id, pid, capture, opening, now);
    ReleasedKeeps(b, id);
    TrimmedOwned(Released(b, id));
    TrimmedSame(Released(b, id));
    ReleasedSame(b, id);
    var c := BindState(b, id, pid, capture, opening, now).0;
    SameRanks(b, c);
    var u := Released(b, id);
    forall i | 0 <= i < |c.bindings| ensures c.bindings[i].id != "" {
      if c.bindings[i] in Trimmed(u).bindings {
        assert c.bindings[i] in u.bindings;
      }
    }
  }

  lemma ReleasedSame(b: Books, id: string)
    ensures Released(b, id).successes == b.successes && Released(b, id).highest == b.highest
  {
  }

  lemma ExecuteKeeps(s: Settings, b: Books, t: Target, action: Option<Action>, w: World)
    requires Inv(b)
    ensures Inv(Execute(s, b, t, action, w).0)
  {
    hide Owned, RanksOk, Released, Attempted;
    ReleasedKeeps(b, t.id);
    ReleasedSame(b, t.id);
    if action.Some? && !Suppressed(b, t, action.value) {
      CreditedRanks(AfterAttempt(s, b, t, action.value, Attempted(s, b, t, action.value, w)), t.id, action.value);
      CreditedOwned(AfterAttempt(s, b, t, action.value, Attempted(s, b, t, action.value, w)), t.id, action.value);
    }
  }

  lemma CreditedOwned(b: Books, id: string, a: Action)
    requires Owned(b)
    ensures Owned(Credited(b, id, a))
  {
  }

  /**
   Over any sequence of calls: no descriptor leaks or is closed twice, at most 1024
   bindings are held, successful ranks of one correlation strictly rise, and a
   response is suppressed only after an equal or stronger one has succeeded.
   */
  lemma {:induction false} RunKeeps(s: Settings, calls: seq<Call>)
    requires Kernel(s, calls)
    ensures Inv(Run(s, calls))
  {
    if calls != [] {
      hide Inv, BindState, Released, ClosedAll, Execute;
      var n := |calls| - 1;
      var init := calls[..n];
      assert forall k | 0 <= k < n :: init[..k] == calls[..k];
      RunKeeps(s, init);
      var b := Run(s, init);
      assert NewFd(b, calls[n]);
      match calls[n] {
        case DoBind(id, pid, capture, opening, now) => BindKeeps(b, id, pid, capture, opening, now);
        case DoRelease(id) => ReleasedKeeps(b, id);
        case DoClose => ClosedAllKeeps(b, Ids(b.bindings));
        case DoExecute(t, action, w) => ExecuteKeeps(s, b, t, action, w);
      }
    } else {
      EmptyOwned();
    }
  }

  lemma EmptyOwned()
    ensures Inv(EMPTY)
  {
    assert Fds([]) == {};
  }

  /** close() leaves nothing open. */
  lemma CloseEmpties(b: Books)
    requires Owned(b)
    ensures ClosedAll(b, Ids(b.bindings)).bindings == [] && ClosedAll(b, Ids(b.bindings)).open == {}
  {
    ClosedBeyond(b, |b.bindings|);
    assert Ids(b.bindings)[..|b.bindings|] == Ids(b.bindings);
    assert Fds([]) == {};
  }

  lemma {:induction false} ClosedBeyond(b: Books, k: nat)
    requires Owned(b) && k <= |b.bindings|
    ensures ClosedAll(b, Ids(b.bindings)[..k]).bindings == b.bindings[k..]
    ensures Owned(ClosedAll(b, Ids(b.bindings)[..k]))
  {
    if k > 0 {
      var u := ClosedAll(b, Ids(b.bindings)[..k - 1]);
      ClosedBeyond(b, k - 1);
      assert Ids(b.bindings)[..k][..k - 1] == Ids(b.bindings)[..k - 1];
      assert u.bindings[0].id == b.bindings[k - 1].id == Ids(b.bindings)[k - 1];
      assert IndexOf(u.bindings, b.bindings[k - 1].id) == 0;
      ReleasedOwned(u, b.bindings[k - 1].id);
      assert RemoveAt(u.bindings, 0) == b.bindings[k..];
    }
  }

  /** After a successful quarantine its correlation gets no further response, and its binding is gone. */
  lemma QuarantineIsLast(s: Settings, b: Books, t: Target, w: World, t': Target, action: Option<Action>, w': World)
    requires Inv(b) && t.id != "" && t'.id == t.id && Execute(s, b, t, Some(Quarantine), w).1 == Succeeded
    ensures var c := Execute(s, b, t, Some(Quarantine), w).0;
      && IndexOf(c.bindings, t.id) == |c.bindings|
      && Execute(s, c, t', action, w').1 != Succeeded && Execute(s, c, t', action, w').0 == c
  {
    hide Owned, RanksOk, Released, QuarantineBound;
    ReleasedOwned(b, t.id);
  }

  /** A denial after terminate or quarantine. */
  predicate DenyAfter(a: C.Action, a': C.Action) {
    a' == C.Action.Deny && (a == C.Action.Terminate || a == C.Action.Quarantine)
  }

  /**
   The two orders disagree exactly once: the correlation engine ranks a denial above
   everything, the response engine ranks it below terminate and quarantine.
   */
  lemma RankOrders(a: C.Action, a': C.Action)
    ensures C.Rank(a) < C.Rank(a') ==>
      (RankOf(Mapped(a)) < RankOf(Mapped(a')) <==> !DenyAfter(a, a'))
  {
    match a { case Continue => case Alert => case Terminate => case Quarantine => case Deny => }
  }

  /**
   After a success for a correlation, an escalation that the correlation engine asks
   for is suppressed exactly when it is to deny after terminate or quarantine; it is
   then recorded as a duplicate and changes nothing.
   */
  lemma EscalationSuppressed(s: Settings, b: Books, t: Target, a: C.Action, w: World,
                             t': Target, a': C.Action, w': World)
    requires t.id != "" && t'.id == t.id && Execute(s, b, t, Some(Mapped(a)), w).1 == Succeeded
    requires C.Rank(a) < C.Rank(a')
    ensures var c := Execute(s, b, t, Some(Mapped(a)), w).0;
      && (Suppressed(c, t', Mapped(a')) <==> DenyAfter(a, a'))
      && (Suppressed(c, t', Mapped(a')) ==> Execute(s, c, t', Some(Mapped(a')), w') == (c, Recorded(Duplicate, w')))
  {
    RankOrders(a, a');
    SucceededRank(s, b, t, Mapped(a), w);
  }

  lemma SucceededRank(s: Settings, b: Books, t: Target, a: Action, w: World)
    requires t.id != "" && Execute(s, b, t, Some(a), w).1 == Succeeded
    ensures Highest(Execute(s, b, t, Some(a), w).0, t.id) == RankOf(a)
  {
    ReleasedSame(b, t.id);
  }
}

/**
 The audit writer: a directory of segments shared by any number of logger
 instances, each of which takes the process lock for a whole operation.

 Segments are listed in index order, as the sorted directory listing gives them.
 */
module AuditLogger {
  import opened Common
  import opened AuditText
  import opened AuditRecords

  /** How far from the end of a segment the writer looks for the last record. */
  const WINDOW: nat := 1024 * 1024

  /** A rotated name shows six digits: a segment with a larger index is not listed. */
  const INDEX_LIMIT: nat := 1000000

  datatype Segment = Segment(index: nat, data: Bytes)

  datatype Artifact = TornFragment(data: Bytes) | Chain(segments: seq<Bytes>)

  datatype Dir = Dir(rotated: seq<Segment>, active: Option<Bytes>, corrupt: seq<Artifact>)

  const EMPTY := Dir([], None, [])

  datatype Config = Config(maxBytes: nat, backupCount: nat, maxRecordBytes: nat)

  datatype Mem = Mem(lastHash: string, lastSequence: int)

  datatype Fields = Fields(
    id: Json, timestamp: Json, timestampUtc: Json, source: Json, subject: Json, payload: Json)

  datatype AuditError = InvalidTail | TailNotObject | InvalidTailHash | RecordTooLarge | AppendFailed

  // ------------------------------------------------------------ the listing

  function Visible(rotated: seq<Segment>): seq<Segment> {
    if rotated == [] then []
    else
      var n := |rotated| - 1;
      Visible(rotated[..n]) + if rotated[n].index < INDEX_LIMIT then [rotated[n]] else []
  }

  function Datas(segments: seq<Segment>): seq<Bytes> {
    seq(|segments|, i requires 0 <= i < |segments| => segments[i].data)
  }

  /** The bytes of every listed segment, oldest first, the active one last. */
  function Listed(d: Dir): seq<Bytes> {
    Datas(Visible(d.rotated)) + match d.active { case Some(a) => [a] case None => [] }
  }

  function MaxIndex(segments: seq<Segment>): nat {
    if segments == [] then 0
    else Max(MaxIndex(segments[..|segments| - 1]), segments[|segments| - 1].index)
  }

  /** os.replace onto a rotated name. */
  function Put(rotated: seq<Segment>, s: Segment): seq<Segment> {
    if rotated != [] && rotated[|rotated| - 1].index == s.index then rotated[..|rotated| - 1] + [s]
    else rotated + [s]
  }

  function Prune(rotated: seq<Segment>, keep: nat): seq<Segment>
    decreases |rotated|
  {
    if rotated == [] || |Visible(rotated)| <= keep then rotated else Prune(rotated[1..], keep)
  }

  lemma PruneStays(r: seq<Segment>, keep: nat)
    requires r == [] || |Visible(r)| <= keep
    ensures Prune(r, keep) == r
  {
    hide Visible;
  }

  lemma PruneDrops(r: seq<Segment>, keep: nat)
    requires |Visible(r)| > keep && r != []
    ensures Prune(r, keep) == Prune(r[1..], keep)
  {
    hide Visible;
  }

  /** rotate(): nothing happens when there is no active segment or it is empty. */
  function RotateStep(cfg: Config, d: Dir): Dir {
    if d.active.None? || d.active.value == [] then d
    else
      var next := Segment(MaxIndex(Visible(d.rotated)) + 1, d.active.value);
      d.(rotated := Prune(Put(d.rotated, next), cfg.backupCount), active := None)
  }

  function Keeping(cfg: Config, left: nat): Config {
    cfg.(backupCount := cfg.backupCount + left)
  }

  /** A rotation whose pruning stops with `left` segments still too many. */
  function CutRotation(cfg: Config, d: Dir, left: nat): Dir {
    RotateStep(Keeping(cfg, left), d)
  }

  /** The rotated segments right after the rename. */
  function Joined(d: Dir): seq<Segment> {
    Put(d.rotated, Segment(MaxIndex(Visible(d.rotated)) + 1, ActiveBytes(d)))
  }

  /** A rotation that failed before the rename, or after `dropped` of the removals that pruning makes. */
  predicate StoppedRotation(cfg: Config, d: Dir, d': Dir, dropped: Option<nat>) {
    match dropped
    case None => d' == d
    case Some(k) =>
      && ActiveBytes(d) != [] && k <= |Joined(d)| && d' == d.(rotated := Joined(d)[k..], active := None)
      && Prune(d'.rotated, cfg.backupCount) == RotateStep(cfg, d).rotated
  }

  // ------------------------------------------------------------ the tail

  function TailFrom(env: Env, datas: seq<Bytes>, memSequence: int): Result<Mem, AuditError> {
    if datas == [] then Ok(Mem(ZeroHash(), 0))
    else match TailLine(datas[|datas| - 1], WINDOW)
      case None => TailFrom(env, datas[..|datas| - 1], memSequence)
      case Some(l) => TailRecord(env, l, memSequence)
  }

  function TailRecord(env: Env, l: Bytes, memSequence: int): Result<Mem, AuditError> {
    match env.loads(l)
    case BadJson => Err(InvalidTail)
    case NotObject => Err(TailNotObject)
    case Object(e) =>
      if !HexField(e, RecordHash) then Err(InvalidTailHash)
      else Ok(Mem(e[RecordHash].s, if SeqOf(e).Num? then SeqOf(e).n else memSequence))
  }

  lemma TailStep(env: Env, datas: seq<Bytes>, i: nat, memSequence: int)
    requires i < |datas|
    ensures TailFrom(env, datas[..i + 1], memSequence) ==
            match TailLine(datas[i], WINDOW)
            case None => TailFrom(env, datas[..i], memSequence)
            case Some(l) => TailRecord(env, l, memSequence)
  {
    hide TailLine, TailRecord;
    assert datas[..i + 1][..i] == datas[..i];
  }

  lemma TailOfNothing(env: Env, memSequence: int)
    ensures TailFrom(env, [], memSequence) == Ok(Mem(ZeroHash(), 0))
  {
  }

  // ------------------------------------------------------------ one record

  function Unsigned(f: Fields, m: Mem): Record {
    map[SchemaVersion := Str("2.0"), RecordId := f.id, Sequence := Int(m.lastSequence + 1),
        Timestamp := f.timestamp, TimestampUtc := f.timestampUtc, Source := f.source,
        Subject := f.subject, Payload := f.payload, PrevHash := Str(m.lastHash)]
  }

  function BuildEntry(env: Env, f: Fields, m: Mem): Record {
    var e := Unsigned(f, m);
    e[RecordHash := Str(env.sha(env.canon(e)))]
  }

  /** A record that says what the caller of record() said, and nothing else but its place in the chain. */
  predicate Carries(e: Record, f: Fields) {
    && e.Keys == {
      SchemaVersion, RecordId, Sequence, Timestamp, TimestampUtc, Source, Subject, Payload, PrevHash, RecordHash
    }
    && e[SchemaVersion] == Str("2.0") && e[RecordId] == f.id
    && e[Timestamp] == f.timestamp && e[TimestampUtc] == f.timestampUtc
    && e[Source] == f.source && e[Subject] == f.subject && e[Payload] == f.payload
    && e[Sequence].Int? && e[PrevHash].Str? && e[RecordHash].Str?
  }

  lemma EntryFields(env: Env, f: Fields, m: Mem)
    ensures var e := BuildEntry(env, f, m);
      && Carries(e, f)
      && e[PrevHash] == Str(m.lastHash) && e[Sequence] == Int(m.lastSequence + 1)
      && e[RecordHash] == Str(env.sha(env.canon(e - {RecordHash})))
      && e - {RecordHash} == Unsigned(f, m)
  {
    var e := BuildEntry(env, f, m);
    assert e - {RecordHash} == Unsigned(f, m);
  }

  /** The active segment ends in this line. */
  predicate EndsIn(d: Dir, line: Bytes) {
    |line| <= |ActiveBytes(d)| && ActiveBytes(d)[|ActiveBytes(d)| - |line|..] == line
  }

  function ActiveBytes(d: Dir): Bytes {
    match d.active case Some(a) => a case None => []
  }

  /** The directory just before the append: the active segment is rotated when it would overflow. */
  function Prepared(cfg: Config, d: Dir, line: Bytes): Dir {
    var size := |ActiveBytes(d)|;
    if size > 0 && size + |line| > cfg.maxBytes then RotateStep(cfg, d) else d
  }

  /** The directory after an append whose write loop stopped at `done` bytes. */
  function AppendCut(d: Dir, line: Bytes, done: nat): Dir
    requires done <= |line|
  {
    d.(active := Some(ActiveBytes(d) + line[..done]))
  }

  /** What record() decides before it touches the disk. */
  function Plan(env: Env, cfg: Config, d: Dir, m: Mem, f: Fields): Result<(Mem, Record), AuditError> {
    match TailFrom(env, Listed(d), m.lastSequence)
    case Err(e) => Err(e)
    case Ok(tail) =>
      var entry := BuildEntry(env, f, tail);
      if |Line(env.dumps(entry))| > cfg.maxRecordBytes then Err(RecordTooLarge) else Ok((tail, entry))
  }

  /** A refused record() remembers the tail it read, if it got that far. */
  function Refused(env: Env, d: Dir, m: Mem, e: AuditError): Mem {
    var tail := TailFrom(env, Listed(d), m.lastSequence);
    if e == RecordTooLarge && tail.Ok? then tail.value else m
  }

  /** How far writing a line got: stopped in the rotation before it, or so many bytes written. */
  datatype Progress = Stopped(dropped: Option<nat>) | Wrote(done: nat)

  predicate Reached(cfg: Config, d: Dir, d': Dir, line: Bytes, p: Progress) {
    match p
    case Stopped(dropped) =>
      0 < |ActiveBytes(d)| && |ActiveBytes(d)| + |line| > cfg.maxBytes && StoppedRotation(cfg, d, d', dropped)
    case Wrote(done) => done <= |line| && d' == AppendCut(Prepared(cfg, d, line), line, done)
  }

  function Appended(env: Env, cfg: Config, d: Dir, entry: Record, done: nat): Dir
    requires done <= |Line(env.dumps(entry))|
  {
    AppendCut(Prepared(cfg, d, Line(env.dumps(entry))), Line(env.dumps(entry)), done)
  }

  // ------------------------------------------------------------ start-up

  /** Length of the data up to and including its last LF. */
  function ValidLength(data: Bytes): (n: nat)
    ensures n <= |data|
  {
    if data == [] || data[|data| - 1] == LF then |data| else ValidLength(data[..|data| - 1])
  }

  /** Repair with a single os.write that saved the first `saved` bytes of the fragment. */
  function Repaired(d: Dir, saved: nat): Dir {
    var data := ActiveBytes(d);
    if Terminated(data) then d
    else
      var n := ValidLength(data);
      d.(active := Some(data[..n]),
         corrupt := d.corrupt + [TornFragment(data[n..][..Min(saved, |data| - n)])])
  }

  function QuarantineChain(d: Dir): Dir {
    Dir(Hidden(d.rotated), None, d.corrupt + [Chain(Listed(d))])
  }

  function Hidden(rotated: seq<Segment>): seq<Segment> {
    if rotated == [] then []
    else
      var n := |rotated| - 1;
      Hidden(rotated[..n]) + if rotated[n].index < INDEX_LIMIT then [] else [rotated[n]]
  }

  // ------------------------------------------------------------ the objects

  class LogDirectory {
    var rotated: seq<Segment>
    var active: Option<Bytes>
    var corrupt: seq<Artifact>

    constructor ()
      ensures Value() == EMPTY
    {
      rotated, active, corrupt := [], None, [];
    }

    function Value(): Dir
      reads this
    {
      Dir(rotated, active, corrupt)
    }
  }

  class AuditLogger {
    const env: Env
    const cfg: Config
    const dir: LogDirectory
    var lastHash: string
    var lastSequence: int

    constructor (env: Env, cfg: Config, dir: LogDirectory)
      ensures this.env == env && this.cfg == cfg && this.dir == dir
      ensures Memory() == Mem(ZeroHash(), 0)
    {
      this.env, this.cfg, this.dir := env, cfg, dir;
      lastHash, lastSequence := ZeroHash(), 0;
    }

    function Memory(): Mem
      reads this
    {
      Mem(lastHash, lastSequence)
    }

    /** The locked body of rotate(): the rename, or any unlink of the pruning, may fail. */
    method Rotate() returns (ok: bool, ghost dropped: Option<nat>)
      modifies dir
      ensures ok ==> dir.Value() == RotateStep(cfg, old(dir.Value()))
      ensures !ok ==> StoppedRotation(cfg, old(dir.Value()), dir.Value(), dropped)
    {
      hide Visible, MaxIndex, Put, Prune;
      if dir.active.None? || dir.active.value == [] {
        return true, None;
      }
      if * {
        return false, None;
      }
      var next := MaxIndex(Visible(dir.rotated)) + 1;
      dir.rotated := Put(dir.rotated, Segment(next, dir.active.value));
      dir.active := None;
      ghost var full, gone := dir.rotated, 0;
      assert full[0..] == full;
      while dir.rotated != [] && |Visible(dir.rotated)| > cfg.backupCount
        invariant dir.active == None && dir.corrupt == old(dir.corrupt)
        invariant gone <= |full| && dir.rotated == full[gone..]
        invariant Prune(full, cfg.backupCount) == Prune(dir.rotated, cfg.backupCount)
        decreases |dir.rotated|
      {
        if * {
          return false, Some(gone);
        }
        PruneDrops(dir.rotated, cfg.backupCount);
        assert full[gone..][1..] == full[gone + 1..];
        dir.rotated := dir.rotated[1..];
        gone := gone + 1;
      }
      PruneStays(dir.rotated, cfg.backupCount);
      return true, None;
    }

    /** Scan the listed segments from the newest for the last record. */
    method TailState() returns (r: Result<Mem, AuditError>)
      ensures r == TailFrom(env, Listed(dir.Value()), lastSequence)
    {
      hide TailFrom, TailLine, HexHash;
      var datas := Listed(dir.Value());
      var i := |datas|;
      assert datas[..i] == datas;
      while i > 0
        invariant 0 <= i <= |datas|
        invariant TailFrom(env, datas, lastSequence) == TailFrom(env, datas[..i], lastSequence)
      {
        i := i - 1;
        TailStep(env, datas, i, lastSequence);
        match TailLine(datas[i], WINDOW) {
          case None =>
          case Some(l) =>
            match env.loads(l) {
              case BadJson => return Err(InvalidTail);
              case NotObject => return Err(TailNotObject);
              case Object(e) =>
                if !HexField(e, RecordHash) {
                  return Err(InvalidTailHash);
                }
                return Ok(Mem(e[RecordHash].s, if SeqOf(e).Num? then SeqOf(e).n else lastSequence));
            }
        }
      }
      assert datas[..i] == [];
      TailOfNothing(env, lastSequence);
      return Ok(Mem(ZeroHash(), 0));
    }

    /** The write loop: each os.write takes some of the bytes, or the append fails. */
    method AppendBytes(line: Bytes) returns (ok: bool, ghost done: nat)
      modifies dir
      ensures done <= |line| && (ok ==> done == |line|)
      ensures dir.Value() == AppendCut(old(dir.Value()), line, done)
    {
      ghost var before := ActiveBytes(dir.Value());
      dir.active := Some(ActiveBytes(dir.Value()));
      done := 0;
      var view := line;
      assert before + line[..0] == before;
      while view != []
        invariant done <= |line| && view == line[done..]
        invariant dir.Value() == AppendCut(old(dir.Value()), line, done)
        decreases |view|
      {
        if * {
          return false, done;
        }
        var written: nat :| 1 <= written <= |view|;
        dir.active := Some(dir.active.value + view[..written]);
        assert line[..done + written] == line[..done] + view[..written];
        assert before + line[..done + written] == (before + line[..done]) + view[..written];
        view := view[written..];
        done := done + written;
      }
      ok := *;
    }

    /** Rotate when the line would overflow the active segment, then append it. */
    method AppendLine(line: Bytes) returns (ok: bool, ghost reached: Progress)
      modifies dir
      ensures ok ==> reached == Wrote(|line|)
      ensures Reached(cfg, old(dir.Value()), dir.Value(), line, reached)
    {
      var size := |ActiveBytes(dir.Value())|;
      if size > 0 && size + |line| > cfg.maxBytes {
        ghost var dropped;
        ok, dropped := Rotate();
        if !ok {
          return false, Stopped(dropped);
        }
      }
      ghost var done;
      ok, done := AppendBytes(line);
      reached := Wrote(done);
    }

    /** record(): plan from the tail on disk, rotate if needed, append. */
    method Record(f: Fields) returns (r: Result<string, AuditError>, ghost reached: Progress)
      modifies this`lastHash, this`lastSequence, dir
      ensures match Plan(env, cfg, old(dir.Value()), old(Memory()), f)
        case Err(e) =>
          && r == Err(e)
          && dir.Value() == old(dir.Value())
          && Memory() == Refused(env, old(dir.Value()), old(Memory()), e)
        case Ok((tail, entry)) =>
          && Reached(cfg, old(dir.Value()), dir.Value(), Line(env.dumps(entry)), reached)
          && Recorded(f, tail, r, reached == Wrote(|Line(env.dumps(entry))|))
      ensures r.Ok? ==>
        exists e :: Carries(e, f) && e[RecordHash] == Str(r.value) && EndsIn(dir.Value(), Line(env.dumps(e)))
    {
      reached := Wrote(0);
      var t := TailState();
      if t.Err? {
        return Err(t.error), reached;
      }
      lastHash, lastSequence := t.value.lastHash, t.value.lastSequence;
      var entry := BuildEntry(env, f, Memory());
      EntryFields(env, f, Memory());
      var line := Line(env.dumps(entry));
      if |line| > cfg.maxRecordBytes {
        return Err(RecordTooLarge), reached;
      }
      var ok;
      ok, reached := AppendLine(line);
      if !ok {
        return Err(AppendFailed), reached;
      }
      lastHash, lastSequence := entry[RecordHash].s, entry[Sequence].i;
      assert line[..|line|] == line;
      assert Carries(entry, f);
      return Ok(lastHash), reached;
    }

    /** What record() returns and remembers once it has planned an entry after `tail`. */
    ghost predicate Recorded(f: Fields, tail: Mem, r: Result<string, AuditError>, complete: bool)
      reads this
    {
      match r
      case Ok(h) =>
        complete && h == env.sha(env.canon(Unsigned(f, tail))) && Memory() == Mem(h, tail.lastSequence + 1)
      case Err(e) => e == AppendFailed && Memory() == tail
    }

    /** Start-up repair of a torn last line. */
    method RepairTrailingPartial() returns (ghost saved: nat)
      modifies dir
      ensures dir.Value() == Repaired(old(dir.Value()), saved)
    {
      saved := 0;
      if dir.active.None? {
        return;
      }
      var data := dir.active.value;
      if data == [] || data[|data| - 1] == LF {
        return;
      }
      var n := |data|;
      assert data[..n] == data;
      while n > 0 && data[n - 1] != LF
        invariant 0 <= n <= |data| && ValidLength(data) == ValidLength(data[..n])
      {
        assert data[..n][..n - 1] == data[..n - 1];
        n := n - 1;
      }
      assert ValidLength(data) == n;
      var fragment := data[n..];
      var written: nat :| written <= |fragment|;
      saved := written;
      dir.corrupt := dir.corrupt + [TornFragment(fragment[..written])];
      dir.active := Some(data[..n]);
    }

    /** The "quarantine" corruption policy: set the listed chain aside and open a new one. */
    method Recover(recovery: Fields) returns (ok: bool, ghost reached: Progress)
      requires Memory() == Mem(ZeroHash(), 0)
      modifies this`lastHash, this`lastSequence, dir
      ensures Recovered(QuarantineChain(old(dir.Value())), recovery, ok, reached)
    {
      dir.corrupt := dir.corrupt + [Chain(Listed(dir.Value()))];
      dir.rotated, dir.active := Hidden(dir.rotated), None;
      var r;
      r, reached := Record(recovery);
      ok := r.Ok?;
    }

    /** The chain set aside, an empty one `d` takes the recovery record, or that failed as any record can. */
    ghost predicate Recovered(d: Dir, recovery: Fields, ok: bool, reached: Progress)
      reads this, dir
    {
      match Plan(env, cfg, d, Mem(ZeroHash(), 0), recovery)
      case Err(e) => !ok && dir.Value() == d && Memory() == Refused(env, d, Mem(ZeroHash(), 0), e)
      case Ok((tail, entry)) =>
        var line := Line(env.dumps(entry));
        && Reached(cfg, d, dir.Value(), line, reached)
        && (ok ==> reached == Wrote(|line|) && lastSequence == tail.lastSequence + 1)
        && (ok ==> lastHash == env.sha(env.canon(Unsigned(recovery, tail))))
        && (!ok ==> Memory() == tail)
    }

    /** The locked part of the constructor. */
    method StartUp(repair: bool, quarantine: bool, recovery: Fields)
      returns (r: Result<Report, Report>, ghost saved: nat, ghost reached: Progress)
      requires Memory() == Mem(ZeroHash(), 0)
      modifies this`lastHash, this`lastSequence, dir
      ensures var d := if repair then Repaired(old(dir.Value()), saved) else old(dir.Value());
        var report := ReportOf(env, Listed(d));
        if report.valid then
          r == Ok(report) && dir.Value() == d && Memory() == Mem(report.lastHash, report.lastSequence)
        else if !quarantine then
          r == Err(report) && dir.Value() == d && Memory() == old(Memory())
        else
          && Recovered(QuarantineChain(d), recovery, r.Ok?, reached)
          && r == if r.Ok? then Ok(report) else Err(report)
    {
      saved, reached := 0, Wrote(0);
      if repair {
        saved := RepairTrailingPartial();
      }
      var report := VerifyDirectory(env, Listed(dir.Value()));
      if report.valid {
        lastHash, lastSequence := report.lastHash, report.lastSequence;
        return Ok(report), saved, reached;
      }
      if !quarantine {
        return Err(report), saved, reached;
      }
      var ok;
      ok, reached := Recover(recovery);
      r := if ok then Ok(report) else Err(report);
    }
  }
}

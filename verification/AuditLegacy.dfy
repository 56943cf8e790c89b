/**
 A log begun by the earlier writers and continued by record(): their records are
 printed otherwise, hashed otherwise and carry no sequence number.
 */
module AuditLegacy {
  import opened Common
  import opened AuditText
  import opened AuditRecords
  import opened AuditTamper
  import opened AuditChain
  import opened AuditLogger
  import opened AuditRuns

  /** The last line of these bytes, written with its line feed. */
  predicate EndsWithLine(data: Bytes, before: Bytes, l: Bytes) {
    data == before + Line(l) && Terminated(before) && Clean(l) && !Blank(l)
  }

  predicate HasNumber(e: Record) {
    Sequence in e && (e[Sequence].Int? || e[Sequence].Bool?)
  }

  // ------------------------------------------------------------ the records of a growing log

  lemma LastOnDisk(env: Env, datas: seq<Bytes>, before: Bytes, l: Bytes)
    requires datas != [] && EndsWithLine(datas[|datas| - 1], before, l) && ObjectsOnly(env, datas)
    ensures env.loads(l).Object?
    ensures var rs := RecordsOnDisk(env, datas); rs != [] && rs[|rs| - 1] == env.loads(l).rec
  {
    hide SplitLines, LineRecords, RecordsOnDisk, Blank, Clean;
    var n := |datas| - 1;
    var ls := SplitLines(before);
    SplitLast(before, l);
    assert datas == datas[..n] + [datas[n]];
    LastData(env, datas[..n], datas[n]);
    LastLine(env, ls, l);
    assert (RecordsOnDisk(env, datas[..n]) + (LineRecords(env, ls) + [env.loads(l).rec]))
        == RecordsOnDisk(env, datas[..n]) + LineRecords(env, ls) + [env.loads(l).rec];
  }

  lemma SegmentGrows(env: Env, a: Bytes, l: Bytes, e: Record)
    requires Terminated(a) && Clean(l) && !Blank(l) && env.loads(l) == Object(e)
    ensures LineRecords(env, SplitLines(a + Line(l))) == LineRecords(env, SplitLines(a)) + [e]
    ensures ObjectLines(env, SplitLines(a + Line(l))) <==> ObjectLines(env, SplitLines(a))
  {
    hide SplitLines, LineRecords, ObjectLines, Blank, Clean;
    SplitLast(a, l);
    LastLine(env, SplitLines(a), l);
  }

  lemma NothingOnDisk(env: Env)
    ensures LineRecords(env, SplitLines([])) == [] && ObjectLines(env, SplitLines([])) && Whole([])
  {
    SplitNothing();
  }

  /** One more whole line in the active segment. */
  lemma DiskGrows(env: Env, d: Dir, l: Bytes, e: Record)
    requires Terminated(ActiveBytes(d)) && Clean(l) && !Blank(l) && env.loads(l) == Object(e)
    ensures var d' := AppendCut(d, Line(l), |Line(l)|);
      && RecordsOnDisk(env, Listed(d')) == RecordsOnDisk(env, Listed(d)) + [e]
      && (ObjectsOnly(env, Listed(d')) <==> ObjectsOnly(env, Listed(d)))
  {
    hide SplitLines, LineRecords, ObjectLines, RecordsOnDisk, ObjectsOnly, Visible, Datas, Blank, Clean;
    var head, a := Datas(Visible(d.rotated)), ActiveBytes(d);
    var grown := a + Line(l);
    assert Line(l)[..|Line(l)|] == Line(l);
    assert Whole(grown) && Whole(a);
    SegmentGrows(env, a, l, e);
    LastData(env, head, grown);
    if d.active.Some? {
      LastData(env, head, a);
    } else {
      NothingOnDisk(env);
      assert LineRecords(env, SplitLines(grown)) == [e];
      assert Listed(d) == head;
    }
    Associate(RecordsOnDisk(env, head), LineRecords(env, SplitLines(a)), [e]);
  }

  lemma {:induction false} DiskConcat(env: Env, a: seq<Bytes>, b: seq<Bytes>)
    ensures RecordsOnDisk(env, a + b) == RecordsOnDisk(env, a) + RecordsOnDisk(env, b)
  {
    hide LineRecords, SplitLines;
    if b == [] {
      assert a + b == a;
    } else {
      hide RecordsOnDisk;
      var n := |b| - 1;
      assert a + b == (a + b[..n]) + [b[n]] && b == b[..n] + [b[n]];
      DiskConcat(env, a, b[..n]);
      LastData(env, a + b[..n], b[n]);
      LastData(env, b[..n], b[n]);
      Associate(RecordsOnDisk(env, a), RecordsOnDisk(env, b[..n]), LineRecords(env, SplitLines(b[n])));
    }
  }

  // ------------------------------------------------------------ the end of a chain is a chain

  lemma {:induction false} NumbersNotNegative(env: Env, rs: seq<Record>)
    requires Chained(env, rs)
    ensures LastNumber(rs) >= 0
  {
    hide Hex64, HashedByWriter;
    if rs != [] {
      var n := |rs| - 1;
      assert Link(env, rs, n) && rs == rs[..n] + [rs[n]];
      LinkLast(env, rs[..n], rs[n]);
      NumbersNotNegative(env, rs[..n]);
    }
  }

  lemma {:induction false} EndNumbers(env: Env, rs: seq<Record>, k: nat, n: nat)
    requires Chained(env, rs) && k <= n <= |rs|
    ensures LastNumber(rs[k..n]) <= LastNumber(rs[..n])
  {
    hide Link, Chained;
    if n == k {
      ChainBegins(env, rs[..n], rs);
      NumbersNotNegative(env, rs[..n]);
      assert rs[k..n] == [];
    } else {
      EndNumbers(env, rs, k, n - 1);
      assert rs[k..n][..n - 1 - k] == rs[k..n - 1] && rs[..n][..n - 1] == rs[..n - 1];
    }
  }

  lemma NumberedLower(e: Record, low: int, high: int)
    requires NumberedAfter(e, high) && low <= high
    ensures NumberedAfter(e, low)
  {
  }

  lemma LinkInEnd(env: Env, rs: seq<Record>, k: nat, i: nat)
    requires k + i < |rs| && Link(env, rs, k + i) && LastNumber(rs[k..][..i]) <= LastNumber(rs[..k + i])
    ensures Link(env, rs[k..], i)
  {
    hide Hex64, HashedByWriter, LastNumber, NumberedAfter;
    var end := rs[k..];
    assert end[i] == rs[k + i] && (i > 0 ==> end[i - 1] == rs[k + i - 1]);
    NumberedLower(rs[k + i], LastNumber(end[..i]), LastNumber(rs[..k + i]));
  }

  lemma EndLink(env: Env, rs: seq<Record>, k: nat, i: nat)
    requires Chained(env, rs) && k + i < |rs|
    ensures Link(env, rs[k..], i)
  {
    hide Link, LastNumber;
    assert Link(env, rs, k + i);
    EndNumbers(env, rs, k, k + i);
    assert rs[k..][..i] == rs[k..k + i];
    LinkInEnd(env, rs, k, i);
  }

  lemma AllLinks(env: Env, rs: seq<Record>)
    requires forall i | 0 <= i < |rs| :: Link(env, rs, i)
    ensures Chained(env, rs)
  {
    hide Link;
  }

  /** Without its oldest records a chain is still one, and its numbers lie no higher. */
  lemma EndIsChain(env: Env, rs: seq<Record>, k: nat)
    requires Chained(env, rs) && k <= |rs|
    ensures Chained(env, rs[k..]) && LastNumber(rs[k..]) <= LastNumber(rs)
  {
    hide *;
    EndNumbers(env, rs, k, |rs|);
    assert rs[k..|rs|] == rs[k..] && rs[..|rs|] == rs;
    forall i | 0 <= i < |rs[k..]| ensures Link(env, rs[k..], i) {
      EndLink(env, rs, k, i);
    }
    AllLinks(env, rs[k..]);
  }

  // ------------------------------------------------------------ record() after a legacy tail

  /** The records that a rotation before the append leaves. */
  lemma PreparedDisk(env: Env, cfg: Config, d: Dir, top: nat, line: Bytes)
    requires Sorted(d.rotated, top) && top + 1 < INDEX_LIMIT && cfg.backupCount >= 1 && ActiveBytes(d) != []
    requires ObjectsOnly(env, Listed(d))
    ensures var v := Prepared(cfg, d, line);
      && ObjectsOnly(env, Listed(v)) && Whole(ActiveBytes(v)) && Listed(v) != []
      && Listed(v)[|Listed(v)| - 1] == ActiveBytes(d)
      && exists k :: 0 <= k <= |RecordsOnDisk(env, Listed(d))|
                     && RecordsOnDisk(env, Listed(v)) == RecordsOnDisk(env, Listed(d))[k..]
  {
    hide RotateStep, RecordsOnDisk, ObjectLines, Visible, MaxIndex, Sorted, Listed;
    var datas := Listed(d);
    LastListed(d);
    RotateInFull(cfg, d);
    if Turns(cfg, d, line) == 1 {
      RotateListing(cfg, d, top);
      var s := Surplus(cfg, |d.rotated|);
      assert datas == datas[..s] + datas[s..];
      DiskConcat(env, datas[..s], datas[s..]);
      var k := |RecordsOnDisk(env, datas[..s])|;
      assert RecordsOnDisk(env, datas[s..]) == RecordsOnDisk(env, datas)[k..];
    } else {
      assert RecordsOnDisk(env, datas) == RecordsOnDisk(env, datas)[0..];
    }
  }

  /** What record() reads back of the last line. */
  lemma TailSeesLine(env: Env, datas: seq<Bytes>, before: Bytes, l: Bytes, memSequence: int)
    requires datas != [] && EndsWithLine(datas[|datas| - 1], before, l) && |Line(l)| <= WINDOW
    ensures TailFrom(env, datas, memSequence) == TailRecord(env, l, memSequence)
  {
    hide TailLine, TailRecord, Blank, Clean;
    TailLast(env, datas, memSequence);
    TailLineExact(before, l, WINDOW);
  }

  lemma TailRecordMeans(env: Env, l: Bytes, rs: seq<Record>, memSequence: int)
    requires env.loads(l).Object? && rs != [] && env.loads(l).rec == rs[|rs| - 1] && Chained(env, rs)
    ensures var e := rs[|rs| - 1]; RecordHash in e && e[RecordHash].Str?
    ensures TailRecord(env, l, memSequence) ==
            Ok(Mem(rs[|rs| - 1][RecordHash].s, if HasNumber(rs[|rs| - 1]) then LastNumber(rs) else memSequence))
  {
    hide Hex64, HexHash, HashedByWriter;
    var n := |rs| - 1;
    assert Link(env, rs, n);
    HexIs(rs[n][RecordHash]);
  }

  /** A new record links to a chain whose last hash it names, whatever generation the chain is of. */
  lemma NewLink(env: Env, rs: seq<Record>, e: Record, f: Fields, h: string, n: int)
    requires Sound(env) && Chained(env, rs) && rs != []
    requires RecordHash in rs[|rs| - 1] && rs[|rs| - 1][RecordHash] == Str(h)
    requires Carries(e, f) && e[PrevHash] == Str(h) && e[Sequence] == Int(n + 1)
    requires e[RecordHash] == Str(env.sha(env.canon(e - {RecordHash})))
    ensures Chained(env, rs + [e]) <==> n >= LastNumber(rs)
    ensures LastNumber(rs + [e]) == n + 1
  {
    hide Hex64, HexHash, Link, LastNumber;
    var k := |rs| - 1;
    assert Link(env, rs, k);
    LinkParts(env, rs, k);
    HexIs(e[RecordHash]);
    assert HexHash(env.sha(env.canon(e - {RecordHash})));
    LinkLast(env, rs, e);
    NextNumber(rs, e, n);
  }

  lemma LinkParts(env: Env, rs: seq<Record>, k: nat)
    requires k < |rs| && Link(env, rs, k)
    ensures RecordHash in rs[k] && Hex64(rs[k][RecordHash]) && PrevHash in rs[k] && Hex64(rs[k][PrevHash])
  {
    hide Hex64, HashedByWriter, NumberedAfter, LastNumber;
  }

  lemma NextNumber(rs: seq<Record>, e: Record, n: int)
    requires Sequence in e && e[Sequence] == Int(n + 1)
    ensures LastNumber(rs + [e]) == n + 1
  {
    assert (rs + [e])[..|rs|] == rs;
  }

  /** What the next record of an instance that remembers m continues from. */
  function ContinuesFrom(r: Report, last: Record, m: Mem): int {
    if HasNumber(last) then r.lastSequence else m.lastSequence
  }

  lemma PlanAfter(env: Env, cfg: Config, d: Dir, before: Bytes, l: Bytes, m: Mem, f: Fields)
    requires ReportOf(env, Listed(d)).valid && d.active == Some(before + Line(l))
    requires EndsWithLine(before + Line(l), before, l) && |Line(l)| <= WINDOW
    requires Plan(env, cfg, d, m, f) != Err(RecordTooLarge)
    ensures env.loads(l).Object?
    ensures var r, plan := ReportOf(env, Listed(d)), Plan(env, cfg, d, m, f);
      var rs := RecordsOnDisk(env, Listed(d));
      && rs != [] && rs[|rs| - 1] == env.loads(l).rec && Chained(env, rs) && ObjectsOnly(env, Listed(d))
      && Tells(r, |Listed(d)|, rs)
      && plan.Ok? && Carries(plan.value.1, f)
      && plan.value.1[PrevHash] == Str(r.lastHash)
      && plan.value.1[Sequence] == Int(ContinuesFrom(r, env.loads(l).rec, m) + 1)
      && plan.value.1[RecordHash] == Str(env.sha(env.canon(plan.value.1 - {RecordHash})))
  {
    hide ObjectsOnly, RecordsOnDisk, Chained, LastNumber, TailFrom, TailRecord;
    hide Listed, Blank, Clean, Carries, ReportOf, FaultyDisk, BuildEntry;
    var datas := Listed(d);
    VerdictMeaning(env, datas);
    LastListed(d);
    LastOnDisk(env, datas, before, l);
    var rs := RecordsOnDisk(env, datas);
    TailSeesLine(env, datas, before, l, m.lastSequence);
    TailRecordMeans(env, l, rs, m.lastSequence);
    var tail := Mem(rs[|rs| - 1][RecordHash].s, if HasNumber(rs[|rs| - 1]) then LastNumber(rs) else m.lastSequence);
    EntryFields(env, f, tail);
  }

  /**
   record() after any valid log, whoever wrote its last line: the new record says what
   the caller said and links to that line. The log verifies afterwards if and only
   if the number it continues from is not below what the kept records count: a tail
   with a number gives it, after a legacy tail it is what the instance remembers.
   */
  lemma Continued(env: Env, cfg: Config, d: Dir, top: nat, before: Bytes, l: Bytes, m: Mem, f: Fields)
    requires Sound(env) && ReportOf(env, Listed(d)).valid && d.active == Some(before + Line(l))
    requires EndsWithLine(before + Line(l), before, l) && |Line(l)| <= WINDOW
    requires Sorted(d.rotated, top) && top + 1 < INDEX_LIMIT && cfg.backupCount >= 1
    requires Plan(env, cfg, d, m, f) != Err(RecordTooLarge)
    ensures env.loads(l).Object? && Plan(env, cfg, d, m, f).Ok?
    ensures var r, e := ReportOf(env, Listed(d)), Plan(env, cfg, d, m, f).value.1;
      var n := ContinuesFrom(r, env.loads(l).rec, m);
      var line := Line(env.dumps(e));
      var kept := ReportOf(env, Listed(Prepared(cfg, d, line)));
      var after := ReportOf(env, Listed(Appended(env, cfg, d, e, |line|)));
      && Carries(e, f) && e[PrevHash] == Str(r.lastHash) && e[Sequence] == Int(n + 1)
      && kept.valid && kept.lastHash == r.lastHash && kept.lastSequence <= r.lastSequence
      && (after.valid <==> n >= kept.lastSequence)
      && (after.valid ==> after.recordCount == kept.recordCount + 1 && Str(after.lastHash) == e[RecordHash]
                          && after.lastSequence == n + 1)
  {
    hide *;
    PlanAfter(env, cfg, d, before, l, m, f);
    var r, e := ReportOf(env, Listed(d)), Plan(env, cfg, d, m, f).value.1;
    AfterPrepared(env, cfg, d, top, before, l, e, f, ContinuesFrom(r, env.loads(l).rec, m));
  }

  /** An instance opened on the log, legacy or not, continues it: the next number, and a log that verifies. */
  lemma OpenedContinues(env: Env, cfg: Config, d: Dir, top: nat, before: Bytes, l: Bytes, f: Fields)
    requires Sound(env) && ReportOf(env, Listed(d)).valid && d.active == Some(before + Line(l))
    requires EndsWithLine(before + Line(l), before, l) && |Line(l)| <= WINDOW
    requires Sorted(d.rotated, top) && top + 1 < INDEX_LIMIT && cfg.backupCount >= 1
    requires var r := ReportOf(env, Listed(d));
      Plan(env, cfg, d, Mem(r.lastHash, r.lastSequence), f) != Err(RecordTooLarge)
    ensures var r := ReportOf(env, Listed(d));
      var plan := Plan(env, cfg, d, Mem(r.lastHash, r.lastSequence), f);
      && plan.Ok? && Carries(plan.value.1, f) && plan.value.1[Sequence] == Int(r.lastSequence + 1)
      && var after := ReportOf(env, Listed(Appended(env, cfg, d, plan.value.1, |Line(env.dumps(plan.value.1))|)));
         after.valid && after.lastSequence == r.lastSequence + 1
  {
    hide Plan, ReportOf, Listed, Appended, Prepared, Sound, Carries, Sorted, EndsWithLine;
    var r := ReportOf(env, Listed(d));
    Continued(env, cfg, d, top, before, l, Mem(r.lastHash, r.lastSequence), f);
  }

  /** The verdict on the directory before and after the append, for an entry that names the last hash. */
  lemma AfterPrepared(env: Env, cfg: Config, d: Dir, top: nat, before: Bytes, l: Bytes, e: Record, f: Fields, n: int)
    requires Sound(env) && d.active == Some(before + Line(l)) && EndsWithLine(before + Line(l), before, l)
    requires Sorted(d.rotated, top) && top + 1 < INDEX_LIMIT && cfg.backupCount >= 1
    requires var r, rs := ReportOf(env, Listed(d)), RecordsOnDisk(env, Listed(d));
      && Chained(env, rs) && ObjectsOnly(env, Listed(d)) && rs != [] && Tells(r, |Listed(d)|, rs)
      && Carries(e, f) && e[PrevHash] == Str(r.lastHash) && e[Sequence] == Int(n + 1)
      && e[RecordHash] == Str(env.sha(env.canon(e - {RecordHash})))
    ensures var r, line := ReportOf(env, Listed(d)), Line(env.dumps(e));
      var kept := ReportOf(env, Listed(Prepared(cfg, d, line)));
      var after := ReportOf(env, Listed(Appended(env, cfg, d, e, |line|)));
      && kept.valid && kept.lastHash == r.lastHash && kept.lastSequence <= r.lastSequence
      && (after.valid <==> n >= kept.lastSequence)
      && (after.valid ==> after.recordCount == kept.recordCount + 1 && Str(after.lastHash) == e[RecordHash]
                          && after.lastSequence == n + 1)
  {
    hide *;
    var line := Line(env.dumps(e));
    var v := Prepared(cfg, d, line);
    var end := RecordsOnDisk(env, Listed(v));
    KeptDisk(env, cfg, d, top, before, l, line);
    ValidTells(env, Listed(d));
    ValidTells(env, Listed(v));
    DumpsRead(env, e);
    DiskGrows(env, v, env.dumps(e), e);
    NewLink(env, end, e, f, ReportOf(env, Listed(d)).lastHash, n);
    AppendedIs(env, cfg, d, e);
    ValidTells(env, Listed(Appended(env, cfg, d, e, |line|)));
    LastOfMore(end, e);
  }

  lemma AppendedIs(env: Env, cfg: Config, d: Dir, e: Record)
    ensures var line := Line(env.dumps(e));
      Appended(env, cfg, d, e, |line|) == AppendCut(Prepared(cfg, d, line), line, |line|)
  {
    hide Line, Prepared, AppendCut;
  }

  lemma LastOfMore(rs: seq<Record>, e: Record)
    ensures |rs + [e]| == |rs| + 1 && (rs + [e])[|rs|] == e
  {
  }

  /** What the verdict says of a directory, and which directories are valid. */
  lemma ValidTells(env: Env, datas: seq<Bytes>)
    ensures var r, rs := ReportOf(env, datas), RecordsOnDisk(env, datas);
      && (r.valid <==> ObjectsOnly(env, datas) && Chained(env, rs))
      && (r.valid ==> r.recordCount == |rs| && r.lastSequence == LastNumber(rs))
      && (r.valid && rs != [] ==> RecordHash in rs[|rs| - 1] && rs[|rs| - 1][RecordHash] == Str(r.lastHash))
  {
    hide ObjectsOnly, RecordsOnDisk, Chained, LastNumber, ReportOf, FaultyDisk;
    VerdictMeaning(env, datas);
  }

  /** What a rotation before the append keeps of a valid log: the end of it, the last record included. */
  lemma KeptDisk(env: Env, cfg: Config, d: Dir, top: nat, before: Bytes, l: Bytes, line: Bytes)
    requires d.active == Some(before + Line(l)) && EndsWithLine(before + Line(l), before, l)
    requires Sorted(d.rotated, top) && top + 1 < INDEX_LIMIT && cfg.backupCount >= 1
    requires var rs := RecordsOnDisk(env, Listed(d)); Chained(env, rs) && ObjectsOnly(env, Listed(d)) && rs != []
    ensures var v, rs := Prepared(cfg, d, line), RecordsOnDisk(env, Listed(d));
      var end := RecordsOnDisk(env, Listed(v));
      && Chained(env, end) && ObjectsOnly(env, Listed(v)) && Terminated(ActiveBytes(v))
      && end != [] && end[|end| - 1] == rs[|rs| - 1] && LastNumber(end) <= LastNumber(rs)
  {
    hide ObjectsOnly, RecordsOnDisk, Chained, LastNumber, Listed, Blank, Clean, Prepared, Sorted, Line;
    var rs := RecordsOnDisk(env, Listed(d));
    var v := Prepared(cfg, d, line);
    NotEmptyLine(before, l);
    PreparedDisk(env, cfg, d, top, line);
    var k :| 0 <= k <= |rs| && RecordsOnDisk(env, Listed(v)) == rs[k..];
    LastOnDisk(env, Listed(v), before, l);
    EndIsChain(env, rs, k);
  }

  lemma NotEmptyLine(before: Bytes, l: Bytes)
    ensures before + Line(l) != []
  {
  }

  lemma DumpsRead(env: Env, e: Record)
    requires Sound(env)
    ensures env.loads(env.dumps(e)) == Object(e) && Clean(env.dumps(e)) && !Blank(env.dumps(e))
  {
    hide Clean, Blank, HexHash;
  }
}

/**
 Decoded audit records and the directory verifier.

 SHA-256 and the JSON printer and parser are the function fields of an Env value:
 the verifier's behaviour is stated for every such functions, and each theorem
 names the assumptions about them that it needs.
 */
module AuditRecords {
  import opened Common
  import opened AuditText

  datatype Key =
    | SchemaVersion | RecordId | Sequence | Timestamp | TimestampUtc
    | Source | Subject | Payload | PrevHash | RecordHash
    | Extra(name: string)

  datatype Json = Null | Bool(b: bool) | Int(i: int) | Str(s: string) | Other(text: string)

  type Record = map<Key, Json>

  /** What json.loads makes of one line. */
  datatype Parsed = BadJson | NotObject | Object(rec: Record)

  datatype Env = Env(
    sha: string -> string,
    canon: Record -> string,
    legacy: Record -> string,
    dumps: Record -> Bytes,
    loads: Bytes -> Parsed)

  /** The genesis value, sixty-four zeros. */
  function ZeroHash(): (s: string)
    ensures |s| == 64 && forall i | 0 <= i < 64 :: s[i] == '0'
  {
    seq(64, _ => '0')
  }

  predicate HexHash(s: string) {
    |s| == 64 && forall i | 0 <= i < 64 :: '0' <= s[i] <= '9' || 'a' <= s[i] <= 'f'
  }

  predicate HexField(e: Record, k: Key) {
    k in e && e[k].Str? && HexHash(e[k].s)
  }

  function Unhashed(e: Record): Record {
    e - {RecordHash}
  }

  predicate IsV2(e: Record) {
    SchemaVersion in e && e[SchemaVersion] == Str("2.0")
  }

  /** The text that is hashed: legacy records prefix the previous hash. */
  function HashInput(env: Env, e: Record): string
    requires HexField(e, PrevHash)
  {
    if IsV2(e) then env.canon(e) else e[PrevHash].s + env.legacy(e)
  }

  const REQUIRED: set<Key> := {Timestamp, Source, Subject, Payload, PrevHash, RecordHash}

  predicate WellFormed(e: Record) {
    REQUIRED <= e.Keys && HexField(e, RecordHash) && HexField(e, PrevHash)
  }

  function HashOf(e: Record): string
    requires WellFormed(e)
  {
    e[RecordHash].s
  }

  function PrevOf(e: Record): string
    requires WellFormed(e)
  {
    e[PrevHash].s
  }

  predicate HashOk(env: Env, e: Record)
    requires WellFormed(e)
  {
    env.sha(HashInput(env, Unhashed(e))) == HashOf(e)
  }

  datatype SeqField = Absent | NotInt | Num(n: int)

  /** Python's view of the sequence field: null counts as absent, booleans are integers. */
  function SeqOf(e: Record): SeqField {
    if Sequence !in e || e[Sequence].Null? then Absent
    else match e[Sequence]
      case Int(i) => Num(i)
      case Bool(b) => Num(if b then 1 else 0)
      case _ => NotInt
  }

  // ---------------------------------------------------------------- verifier

  datatype Fault =
    | TrailingPartial | InvalidJson | RecordNotObject | MissingFields
    | InvalidHashEncoding | PreviousHashMismatch | RecordHashMismatch | NonMonotonicSequence

  /** The mutable locals of the verifier's loop. */
  datatype Scan = Scan(prev: Option<string>, firstPrev: string, lastHash: string, lastSeq: int, count: nat)

  function Start(): Scan {
    Scan(None, ZeroHash(), ZeroHash(), 0, 0)
  }

  function Check(env: Env, st: Scan, p: Parsed): Result<Scan, Fault> {
    match p
    case BadJson => Err(InvalidJson)
    case NotObject => Err(RecordNotObject)
    case Object(e) =>
      if !(REQUIRED <= e.Keys) then Err(MissingFields)
      else if !HexField(e, RecordHash) || !HexField(e, PrevHash) then Err(InvalidHashEncoding)
      else if st.prev.Some? && st.prev.value != PrevOf(e) then Err(PreviousHashMismatch)
      else if !HashOk(env, e) then Err(RecordHashMismatch)
      else
        var first := if st.prev.None? then PrevOf(e) else st.firstPrev;
        var h := HashOf(e);
        match SeqOf(e)
        case NotInt => Err(NonMonotonicSequence)
        case Absent => Ok(Scan(Some(h), first, h, st.lastSeq + 1, st.count + 1))
        case Num(n) =>
          if n <= st.lastSeq then Err(NonMonotonicSequence)
          else Ok(Scan(Some(h), first, h, n, st.count + 1))
  }

  datatype What = Torn | Text(p: Parsed)
  datatype Token = Token(segment: nat, line: nat, what: What)

  /** The non-blank lines of a segment, numbered from 1 over all its lines. */
  function LineTokens(env: Env, segment: nat, ls: seq<Bytes>): seq<Token> {
    if ls == [] then []
    else
      var n := |ls| - 1;
      LineTokens(env, segment, ls[..n]) +
      if Blank(ls[n]) then [] else [Token(segment, n + 1, Text(env.loads(ls[n])))]
  }

  function CountBreaks(data: Bytes): nat {
    if data == [] then 0
    else CountBreaks(data[..|data| - 1]) + if data[|data| - 1] == LF then 1 else 0
  }

  function SegmentTokens(env: Env, segment: nat, data: Bytes): seq<Token> {
    if Terminated(data) then LineTokens(env, segment, SplitLines(data))
    else [Token(segment, CountBreaks(data) + 1, Torn)]
  }

  function Tokens(env: Env, datas: seq<Bytes>): seq<Token> {
    if datas == [] then []
    else
      var n := |datas| - 1;
      Tokens(env, datas[..n]) + SegmentTokens(env, n, datas[n])
  }

  datatype Place = Place(fault: Fault, segment: nat, line: nat)
  datatype Outcome = Outcome(st: Scan, stop: Option<Place>)

  function Step(env: Env, o: Outcome, t: Token): Outcome {
    if o.stop.Some? then o
    else match t.what
      case Torn => Outcome(o.st, Some(Place(TrailingPartial, t.segment, t.line)))
      case Text(p) =>
        match Check(env, o.st, p)
        case Ok(st) => Outcome(st, None)
        case Err(f) => Outcome(AfterFault(o.st, p, f), Some(Place(f, t.segment, t.line)))
  }

  /** The first record gives the chain its beginning before its own hash and number are checked. */
  function AfterFault(st: Scan, p: Parsed, f: Fault): Scan {
    if st.prev.None? && (f == RecordHashMismatch || f == NonMonotonicSequence) && p.Object? && WellFormed(p.rec)
    then st.(firstPrev := PrevOf(p.rec)) else st
  }

  function Walk(env: Env, ts: seq<Token>): Outcome {
    if ts == [] then Outcome(Start(), None)
    else Step(env, Walk(env, ts[..|ts| - 1]), ts[|ts| - 1])
  }

  function StepLine(env: Env, o: Outcome, segment: nat, line: nat, l: Bytes): Outcome {
    if Blank(l) then o else Step(env, o, Token(segment, line, Text(env.loads(l))))
  }

  function WalkLines(env: Env, o: Outcome, segment: nat, ls: seq<Bytes>): Outcome {
    if ls == [] then o
    else
      var n := |ls| - 1;
      StepLine(env, WalkLines(env, o, segment, ls[..n]), segment, n + 1, ls[n])
  }

  function WalkSegment(env: Env, o: Outcome, segment: nat, data: Bytes): Outcome {
    if Terminated(data) then WalkLines(env, o, segment, SplitLines(data))
    else Step(env, o, Token(segment, CountBreaks(data) + 1, Torn))
  }

  function WalkAll(env: Env, datas: seq<Bytes>): Outcome {
    if datas == [] then Outcome(Start(), None)
    else
      var n := |datas| - 1;
      WalkSegment(env, WalkAll(env, datas[..n]), n, datas[n])
  }

  /** After the first fault the walk stands still, which is why the verifier may return there. */
  lemma {:induction false} LinesStuck(env: Env, o: Outcome, segment: nat, ls: seq<Bytes>, j: nat)
    requires j <= |ls| && WalkLines(env, o, segment, ls[..j]).stop.Some?
    ensures WalkLines(env, o, segment, ls) == WalkLines(env, o, segment, ls[..j])
    decreases |ls|
  {
    if j == |ls| {
      assert ls[..j] == ls;
    } else {
      assert ls[..|ls| - 1][..j] == ls[..j];
      LinesStuck(env, o, segment, ls[..|ls| - 1], j);
    }
  }

  lemma {:induction false} SegmentsStuck(env: Env, datas: seq<Bytes>, i: nat)
    requires i <= |datas| && WalkAll(env, datas[..i]).stop.Some?
    ensures WalkAll(env, datas) == WalkAll(env, datas[..i])
    decreases |datas|
  {
    if i == |datas| {
      assert datas[..i] == datas;
    } else {
      var n := |datas| - 1;
      assert datas[..n][..i] == datas[..i];
      SegmentsStuck(env, datas[..n], i);
      if Terminated(datas[n]) {
        var ls := SplitLines(datas[n]);
        assert ls[..0] == [];
        LinesStuck(env, WalkAll(env, datas[..n]), n, ls, 0);
      }
    }
  }

  lemma WalkAllSnoc(env: Env, datas: seq<Bytes>, i: nat)
    requires i < |datas|
    ensures WalkAll(env, datas[..i + 1]) == WalkSegment(env, WalkAll(env, datas[..i]), i, datas[i])
  {
    assert datas[..i + 1][..i] == datas[..i];
  }

  lemma WalkLinesSnoc(env: Env, o: Outcome, segment: nat, ls: seq<Bytes>, j: nat)
    requires j < |ls|
    ensures WalkLines(env, o, segment, ls[..j + 1]) ==
            StepLine(env, WalkLines(env, o, segment, ls[..j]), segment, j + 1, ls[j])
  {
    assert ls[..j + 1][..j] == ls[..j];
  }

  lemma WalkStarts(env: Env)
    ensures WalkAll(env, []) == Outcome(Start(), None)
  {
  }

  lemma LinesStart(env: Env, o: Outcome, segment: nat)
    ensures WalkLines(env, o, segment, []) == o
  {
  }

  datatype Coverage = Unknown | FullFromGenesis | RetainedWindow

  datatype Report = Report(
    valid: bool, recordCount: nat, segmentCount: nat, coverage: Coverage,
    firstPrev: string, lastHash: string, lastSequence: int, error: Option<Place>)

  function ReportFrom(o: Outcome, segments: nat): Report {
    var coverage :=
      if o.stop.Some? then Unknown
      else if o.st.firstPrev == ZeroHash() then FullFromGenesis
      else RetainedWindow;
    Report(o.stop.None?, o.st.count, segments, coverage, o.st.firstPrev, o.st.lastHash, o.st.lastSeq, o.stop)
  }

  function ReportOf(env: Env, datas: seq<Bytes>): Report {
    ReportFrom(WalkAll(env, datas), |datas|)
  }

  /** The whole-directory verifier: nested loops over segments and lines with early returns. */
  method VerifyDirectory(env: Env, datas: seq<Bytes>) returns (report: Report)
    ensures report == ReportOf(env, datas)
  {
    hide WalkAll, WalkLines, Check, Blank, SplitLines, CountBreaks, AfterFault;
    var st := Start();
    var i := 0;
    assert datas[..0] == [];
    WalkStarts(env);
    while i < |datas|
      invariant i <= |datas|
      invariant WalkAll(env, datas[..i]) == Outcome(st, None)
    {
      WalkAllSnoc(env, datas, i);
      var data := datas[i];
      if data != [] && data[|data| - 1] != LF {
        SegmentsStuck(env, datas, i + 1);
        return ReportFrom(Outcome(st, Some(Place(TrailingPartial, i, CountBreaks(data) + 1))), |datas|);
      }
      var lines := SplitLines(data);
      ghost var before := Outcome(st, None);
      var j := 0;
      assert lines[..0] == [];
      LinesStart(env, before, i);
      while j < |lines|
        invariant j <= |lines|
        invariant WalkLines(env, before, i, lines[..j]) == Outcome(st, None)
      {
        WalkLinesSnoc(env, before, i, lines, j);
        if !Blank(lines[j]) {
          var decoded := env.loads(lines[j]);
          match Check(env, st, decoded) {
            case Err(f) =>
              LinesStuck(env, before, i, lines, j + 1);
              SegmentsStuck(env, datas, i + 1);
              return ReportFrom(Outcome(AfterFault(st, decoded, f), Some(Place(f, i, j + 1))), |datas|);
            case Ok(next) =>
              st := next;
          }
        }
        j := j + 1;
      }
      assert lines[..j] == lines;
      i := i + 1;
    }
    assert datas[..i] == datas;
    return ReportFrom(Outcome(st, None), |datas|);
  }

  // -------------------------------------------- the same walk, over one flat list

  lemma WalkSnoc(env: Env, ts: seq<Token>, t: Token)
    ensures Walk(env, ts + [t]) == Step(env, Walk(env, ts), t)
  {
    assert (ts + [t])[..|ts + [t]| - 1] == ts;
  }

  lemma {:induction false} WalkLinesFlat(env: Env, ts: seq<Token>, segment: nat, ls: seq<Bytes>)
    ensures Walk(env, ts + LineTokens(env, segment, ls)) == WalkLines(env, Walk(env, ts), segment, ls)
  {
    if ls == [] {
      assert ts + [] == ts;
    } else {
      var n := |ls| - 1;
      var before := LineTokens(env, segment, ls[..n]);
      WalkLinesFlat(env, ts, segment, ls[..n]);
      if Blank(ls[n]) {
        assert before + [] == before;
      } else {
        var t := Token(segment, n + 1, Text(env.loads(ls[n])));
        assert ts + (before + [t]) == (ts + before) + [t];
        WalkSnoc(env, ts + before, t);
      }
    }
  }

  lemma WalkSegmentFlat(env: Env, ts: seq<Token>, segment: nat, data: Bytes)
    ensures Walk(env, ts + SegmentTokens(env, segment, data)) == WalkSegment(env, Walk(env, ts), segment, data)
  {
    hide Walk, Step, LineTokens, WalkLines, SplitLines, CountBreaks;
    if Terminated(data) {
      WalkLinesFlat(env, ts, segment, SplitLines(data));
    } else {
      WalkSnoc(env, ts, Token(segment, CountBreaks(data) + 1, Torn));
    }
  }

  lemma WalkNothing(env: Env)
    ensures WalkAll(env, []) == Walk(env, Tokens(env, []))
  {
  }

  lemma WalkUnfold(env: Env, datas: seq<Bytes>)
    requires datas != []
    ensures var n := |datas| - 1;
      && WalkAll(env, datas) == WalkSegment(env, WalkAll(env, datas[..n]), n, datas[n])
      && Tokens(env, datas) == Tokens(env, datas[..n]) + SegmentTokens(env, n, datas[n])
  {
    hide WalkSegment, SegmentTokens;
  }

  lemma {:induction false} WalkAllFlat(env: Env, datas: seq<Bytes>)
    ensures WalkAll(env, datas) == Walk(env, Tokens(env, datas))
  {
    hide *;
    if datas == [] {
      WalkNothing(env);
    } else {
      var n := |datas| - 1;
      WalkAllFlat(env, datas[..n]);
      WalkUnfold(env, datas);
      WalkSegmentFlat(env, Tokens(env, datas[..n]), n, datas[n]);
    }
  }

  // ------------------------------------------------ what an accepted log is

  /** The running sequence number after the first n records. */
  function SeqAfter(rs: seq<Record>, n: nat): int
    requires n <= |rs|
  {
    if n == 0 then 0
    else match SeqOf(rs[n - 1])
      case Num(k) => k
      case _ => SeqAfter(rs, n - 1) + 1
  }

  predicate RecordOk(env: Env, rs: seq<Record>, i: nat)
    requires i < |rs|
  {
    && WellFormed(rs[i])
    && HashOk(env, rs[i])
    && (i > 0 ==> WellFormed(rs[i - 1]) && PrevOf(rs[i]) == HashOf(rs[i - 1]))
    && !SeqOf(rs[i]).NotInt?
    && (SeqOf(rs[i]).Num? ==> SeqOf(rs[i]).n > SeqAfter(rs, i))
  }

  ghost predicate Accepted(env: Env, rs: seq<Record>) {
    forall i | 0 <= i < |rs| :: RecordOk(env, rs, i)
  }

  predicate AllObjects(ts: seq<Token>) {
    forall i | 0 <= i < |ts| :: ts[i].what.Text? && ts[i].what.p.Object?
  }

  function RecordsOf(ts: seq<Token>): (rs: seq<Record>)
    requires AllObjects(ts)
    ensures |rs| == |ts|
  {
    seq(|ts|, i requires 0 <= i < |ts| => ts[i].what.p.rec)
  }

  function ScanOf(rs: seq<Record>): Scan
    requires forall i | 0 <= i < |rs| :: WellFormed(rs[i])
  {
    if rs == [] then Start()
    else Scan(Some(HashOf(rs[|rs| - 1])), PrevOf(rs[0]), HashOf(rs[|rs| - 1]), SeqAfter(rs, |rs|), |rs|)
  }

  lemma {:induction false} SeqAfterPrefix(rs: seq<Record>, k: nat, n: nat)
    requires n <= k <= |rs|
    ensures SeqAfter(rs[..k], n) == SeqAfter(rs, n)
  {
    if n > 0 {
      SeqAfterPrefix(rs, k, n - 1);
    }
  }

  lemma AcceptedPrefix(env: Env, rs: seq<Record>, k: nat)
    requires k <= |rs| && Accepted(env, rs)
    ensures Accepted(env, rs[..k])
  {
    forall i | 0 <= i < k ensures RecordOk(env, rs[..k], i) {
      assert RecordOk(env, rs, i);
      SeqAfterPrefix(rs, k, i);
    }
  }

  lemma AcceptedSnoc(env: Env, rs: seq<Record>)
    requires rs != []
    ensures Accepted(env, rs) <==> Accepted(env, rs[..|rs| - 1]) && RecordOk(env, rs, |rs| - 1)
  {
    var k := |rs| - 1;
    if Accepted(env, rs) {
      AcceptedPrefix(env, rs, k);
    } else if Accepted(env, rs[..k]) && RecordOk(env, rs, k) {
      forall i | 0 <= i < |rs| ensures RecordOk(env, rs, i) {
        if i < k {
          assert RecordOk(env, rs[..k], i);
          SeqAfterPrefix(rs, k, i);
        }
      }
    }
  }

  lemma CheckIs(env: Env, rs: seq<Record>)
    requires rs != [] && Accepted(env, rs[..|rs| - 1])
    ensures var init := rs[..|rs| - 1]; forall i | 0 <= i < |init| :: WellFormed(init[i])
    ensures var k := |rs| - 1;
            var r := Check(env, ScanOf(rs[..k]), Object(rs[k]));
            (r.Ok? <==> RecordOk(env, rs, k)) && (r.Ok? ==> r.value == ScanOf(rs))
  {
    var k := |rs| - 1;
    forall i | 0 <= i < k ensures WellFormed(rs[..k][i]) {
      assert RecordOk(env, rs[..k], i);
    }
    SeqAfterPrefix(rs, k, k);
    if k > 0 {
      assert WellFormed(rs[..k][k - 1]) && rs[..k][k - 1] == rs[k - 1];
      assert WellFormed(rs[..k][0]) && rs[..k][0] == rs[0];
    }
  }

  /** What the walk says of a token list, and where it then stands. */
  ghost predicate WalkSays(env: Env, ts: seq<Token>) {
    && (Walk(env, ts).stop.None? <==> AllObjects(ts) && Accepted(env, RecordsOf(ts)))
    && (AllObjects(ts) && Accepted(env, RecordsOf(ts)) ==>
      (forall i | 0 <= i < |ts| :: WellFormed(RecordsOf(ts)[i])) && Walk(env, ts).st == ScanOf(RecordsOf(ts)))
  }

  lemma WalkLast(env: Env, ts: seq<Token>)
    requires ts != []
    ensures Walk(env, ts) == Step(env, Walk(env, ts[..|ts| - 1]), ts[|ts| - 1])
  {
    hide Step;
  }

  lemma AllWellFormed(env: Env, rs: seq<Record>)
    requires Accepted(env, rs)
    ensures forall i | 0 <= i < |rs| :: WellFormed(rs[i])
  {
    forall i | 0 <= i < |rs| ensures WellFormed(rs[i]) {
      assert RecordOk(env, rs, i);
    }
  }

  lemma SaysObject(env: Env, ts: seq<Token>)
    requires ts != [] && AllObjects(ts) && WalkSays(env, ts[..|ts| - 1])
    ensures WalkSays(env, ts)
  {
    hide Walk, Check, Accepted, WellFormed, ScanOf, RecordOk;
    var k, rs := |ts| - 1, RecordsOf(ts);
    WalkLast(env, ts);
    assert RecordsOf(ts[..k]) == rs[..k];
    AcceptedSnoc(env, rs);
    if Accepted(env, rs[..k]) {
      CheckIs(env, rs);
    }
    if Accepted(env, rs) {
      AllWellFormed(env, rs);
    }
  }

  lemma SaysOther(env: Env, ts: seq<Token>)
    requires ts != [] && !AllObjects(ts) && WalkSays(env, ts[..|ts| - 1])
    ensures WalkSays(env, ts)
  {
    hide Walk, Accepted, WellFormed, ScanOf, HashOk, HexField;
    var k := |ts| - 1;
    WalkLast(env, ts);
    if AllObjects(ts[..k]) {
      assert !ts[k].what.Text? || !ts[k].what.p.Object?;
    }
  }

  lemma SaysNothing(env: Env)
    ensures WalkSays(env, [])
  {
  }

  lemma {:induction false} WalkSaysAll(env: Env, ts: seq<Token>)
    ensures WalkSays(env, ts)
  {
    hide *;
    if ts == [] {
      SaysNothing(env);
    } else {
      WalkSaysAll(env, ts[..|ts| - 1]);
      if AllObjects(ts) {
        SaysObject(env, ts);
      } else {
        SaysOther(env, ts);
      }
    }
  }

  /** The walk accepts exactly the chained, hashed, monotone record sequences. */
  lemma WalkAccepts(env: Env, ts: seq<Token>)
    ensures Walk(env, ts).stop.None? <==> AllObjects(ts) && Accepted(env, RecordsOf(ts))
    ensures AllObjects(ts) && Accepted(env, RecordsOf(ts)) ==>
      (forall i | 0 <= i < |ts| :: WellFormed(RecordsOf(ts)[i])) && Walk(env, ts).st == ScanOf(RecordsOf(ts))
  {
    WalkSaysAll(env, ts);
  }
}

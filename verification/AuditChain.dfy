/**
 What the verifier accepts and what it reports, said of the bytes on disk and of the
 formulas by which the two generations of writers hash a record.
 */
module AuditChain {
  import opened Common
  import opened AuditText
  import opened AuditRecords
  import opened AuditTamper

  // ------------------------------------------------------------ the chain

  predicate Hex64(v: Json) {
    v.Str? && |v.s| == 64 && forall c | c in v.s :: c in "0123456789abcdef"
  }

  /** The number after which the next record must come: explicit numbers count, records without one add one. */
  function LastNumber(rs: seq<Record>): int {
    if rs == [] then 0
    else
      var before, e := LastNumber(rs[..|rs| - 1]), rs[|rs| - 1];
      if Sequence !in e then before + 1
      else match e[Sequence]
        case Int(n) => n
        case Bool(b) => if b then 1 else 0
        case _ => before + 1
  }

  predicate NumberedAfter(e: Record, last: int) {
    Sequence in e ==>
      match e[Sequence]
      case Null => true
      case Int(n) => n > last
      case Bool(b) => last < if b then 1 else 0
      case _ => false
  }

  /** The hash of a record as its writer computed it: schema 2.0, or any earlier one. */
  predicate HashedByWriter(env: Env, e: Record) {
    && PrevHash in e && e[PrevHash].Str? && RecordHash in e
    && e[RecordHash] ==
      if SchemaVersion in e && e[SchemaVersion] == Str("2.0")
      then Str(env.sha(env.canon(e - {RecordHash})))
      else Str(env.sha(e[PrevHash].s + env.legacy(e - {RecordHash})))
  }

  predicate Link(env: Env, rs: seq<Record>, i: nat)
    requires i < |rs|
  {
    var e := rs[i];
    && Timestamp in e && Source in e && Subject in e && Payload in e && PrevHash in e && RecordHash in e
    && Hex64(e[PrevHash]) && Hex64(e[RecordHash])
    && (i > 0 ==> RecordHash in rs[i - 1] && e[PrevHash] == rs[i - 1][RecordHash])
    && HashedByWriter(env, e)
    && NumberedAfter(e, LastNumber(rs[..i]))
  }

  ghost predicate Chained(env: Env, rs: seq<Record>) {
    forall i | 0 <= i < |rs| :: Link(env, rs, i)
  }

  lemma HexIs(v: Json)
    ensures Hex64(v) <==> v.Str? && HexHash(v.s)
  {
    if v.Str? {
      var digits := "0123456789abcdef";
      forall c ensures c in digits <==> '0' <= c <= '9' || 'a' <= c <= 'f' {
        DigitIs(c);
      }
      if Hex64(v) {
        assert forall i | 0 <= i < 64 :: v.s[i] in v.s;
      }
    }
  }

  lemma DigitIs(c: char)
    ensures c in "0123456789abcdef" <==> '0' <= c <= '9' || 'a' <= c <= 'f'
  {
    var digits := "0123456789abcdef";
    assert digits[0] == '0' && digits[1] == '1' && digits[2] == '2' && digits[3] == '3' && digits[4] == '4';
    assert digits[5] == '5' && digits[6] == '6' && digits[7] == '7' && digits[8] == '8' && digits[9] == '9';
    assert digits[10] == 'a' && digits[11] == 'b' && digits[12] == 'c' && digits[13] == 'd' && digits[14] == 'e';
    assert digits[15] == 'f';
  }

  lemma {:induction false} LastNumberIs(rs: seq<Record>, n: nat)
    requires n <= |rs| && forall i | 0 <= i < n :: !SeqOf(rs[i]).NotInt?
    ensures LastNumber(rs[..n]) == SeqAfter(rs, n)
  {
    if n > 0 {
      LastNumberIs(rs, n - 1);
      assert rs[..n][..n - 1] == rs[..n - 1];
    }
  }

  lemma NumberIs(e: Record, last: int)
    ensures NumberedAfter(e, last) <==> !SeqOf(e).NotInt? && (SeqOf(e).Num? ==> SeqOf(e).n > last)
  {
  }

  lemma WellFormedIs(e: Record)
    ensures WellFormed(e) <==>
      && Timestamp in e && Source in e && Subject in e && Payload in e && PrevHash in e && RecordHash in e
      && Hex64(e[PrevHash]) && Hex64(e[RecordHash])
  {
    hide HexHash, Hex64;
    if PrevHash in e && RecordHash in e {
      HexIs(e[PrevHash]);
      HexIs(e[RecordHash]);
    }
  }

  lemma HashedIs(env: Env, e: Record)
    requires WellFormed(e)
    ensures HashOk(env, e) <==> HashedByWriter(env, e)
  {
    hide HexHash;
  }

  lemma LinkIs(env: Env, rs: seq<Record>, i: nat)
    requires i < |rs| && forall j | 0 <= j < i :: RecordOk(env, rs, j)
    ensures Link(env, rs, i) <==> RecordOk(env, rs, i)
  {
    hide Hex64, HexHash, HashOk, HashedByWriter, NumberedAfter, SeqOf, SeqAfter, LastNumber;
    WellFormedIs(rs[i]);
    assert forall j | 0 <= j < i :: RecordOk(env, rs, j) && !SeqOf(rs[j]).NotInt?;
    LastNumberIs(rs, i);
    NumberIs(rs[i], LastNumber(rs[..i]));
    if WellFormed(rs[i]) {
      HashedIs(env, rs[i]);
      StrParts(rs[i]);
    }
    if i > 0 {
      assert RecordOk(env, rs, i - 1);
      StrParts(rs[i - 1]);
    }
  }

  lemma StrParts(e: Record)
    requires WellFormed(e)
    ensures e[PrevHash] == Str(PrevOf(e)) && e[RecordHash] == Str(HashOf(e))
  {
    hide HexHash;
  }

  /** The verifier's conditions on a list of records are exactly those of the writers. */
  lemma ChainIsAccepted(env: Env, rs: seq<Record>)
    ensures Chained(env, rs) <==> Accepted(env, rs)
  {
    hide Link, RecordOk;
    if Accepted(env, rs) {
      forall i | 0 <= i < |rs| ensures Link(env, rs, i) {
        LinkIs(env, rs, i);
      }
    } else if Chained(env, rs) {
      ChainUpTo(env, rs, |rs|);
    }
  }

  lemma {:induction false} ChainUpTo(env: Env, rs: seq<Record>, n: nat)
    requires n <= |rs| && Chained(env, rs)
    ensures forall i | 0 <= i < n :: RecordOk(env, rs, i)
  {
    hide Link, RecordOk;
    if n > 0 {
      ChainUpTo(env, rs, n - 1);
      assert Link(env, rs, n - 1);
      LinkIs(env, rs, n - 1);
    }
  }

  // ------------------------------------------------------------ the records on disk

  /** The objects on the non-blank lines. */
  function LineRecords(env: Env, ls: seq<Bytes>): seq<Record> {
    if ls == [] then []
    else
      var l := ls[|ls| - 1];
      LineRecords(env, ls[..|ls| - 1]) +
      if Blank(l) then [] else match env.loads(l) case Object(e) => [e] case _ => []
  }

  function RecordsOnDisk(env: Env, datas: seq<Bytes>): seq<Record> {
    if datas == [] then []
    else RecordsOnDisk(env, datas[..|datas| - 1]) + LineRecords(env, SplitLines(datas[|datas| - 1]))
  }

  predicate ObjectLines(env: Env, ls: seq<Bytes>) {
    forall l | l in ls :: Blank(l) || env.loads(l).Object?
  }

  predicate Whole(data: Bytes) {
    data == [] || data[|data| - 1] == 10
  }

  /** Every segment ends in a line feed and holds JSON objects and blank lines only. */
  predicate ObjectsOnly(env: Env, datas: seq<Bytes>) {
    forall i | 0 <= i < |datas| :: Whole(datas[i]) && ObjectLines(env, SplitLines(datas[i]))
  }

  // ------------------------------------------------------------ faults

  predicate Complete(e: Record) {
    Timestamp in e && Source in e && Subject in e && Payload in e && PrevHash in e && RecordHash in e
  }

  predicate HexHashes(e: Record) {
    Complete(e) && Hex64(e[PrevHash]) && Hex64(e[RecordHash])
  }

  predicate Linked(rs: seq<Record>, e: Record) {
    HexHashes(e) && (rs != [] ==> RecordHash in rs[|rs| - 1] && e[PrevHash] == rs[|rs| - 1][RecordHash])
  }

  /** Which fault a line gets after the records before it. */
  predicate FaultOf(env: Env, rs: seq<Record>, p: Parsed, f: Fault) {
    match p
    case BadJson => f == InvalidJson
    case NotObject => f == RecordNotObject
    case Object(e) =>
      if !Complete(e) then f == MissingFields
      else if !HexHashes(e) then f == InvalidHashEncoding
      else if !Linked(rs, e) then f == PreviousHashMismatch
      else if !HashedByWriter(env, e) then f == RecordHashMismatch
      else f == NonMonotonicSequence && !NumberedAfter(e, LastNumber(rs))
  }

  /** What the verifier has counted after these records. */
  predicate Counts(st: Scan, rs: seq<Record>) {
    && st.count == |rs| && st.lastSeq == LastNumber(rs)
    && (rs == [] ==> st.prev == None && st.lastHash == ZeroHash())
    && (rs != [] ==> RecordHash in rs[|rs| - 1] && rs[|rs| - 1][RecordHash] == Str(st.lastHash))
    && (rs != [] ==> st.prev == Some(st.lastHash))
  }

  predicate Stands(st: Scan, rs: seq<Record>) {
    && Counts(st, rs)
    && if rs == [] then st.firstPrev == ZeroHash() else PrevHash in rs[0] && rs[0][PrevHash] == Str(st.firstPrev)
  }

  /** The same at a fault: the first record begins the chain once its links are readable. */
  predicate StandsAt(st: Scan, rs: seq<Record>, p: Parsed, f: Fault) {
    && Counts(st, rs)
    && if rs == [] && (f == RecordHashMismatch || f == NonMonotonicSequence)
       then p.Object? && PrevHash in p.rec && p.rec[PrevHash] == Str(st.firstPrev)
       else Stands(st, rs)
  }

  lemma LinkLast(env: Env, rs: seq<Record>, e: Record)
    ensures Chained(env, rs + [e]) <==>
      Chained(env, rs) && Linked(rs, e) && HashedByWriter(env, e) && NumberedAfter(e, LastNumber(rs))
  {
    hide Hex64, HashedByWriter, NumberedAfter, LastNumber;
    var all, n := rs + [e], |rs|;
    assert all[..n] == rs && all[n] == e;
    if Chained(env, all) {
      assert Link(env, all, n);
      forall i | 0 <= i < n ensures Link(env, rs, i) {
        assert Link(env, all, i) && all[..i] == rs[..i];
      }
    } else if Chained(env, rs) && Linked(rs, e) && HashedByWriter(env, e) && NumberedAfter(e, LastNumber(rs)) {
      forall i | 0 <= i < |all| ensures Link(env, all, i) {
        if i < n {
          assert Link(env, rs, i) && all[..i] == rs[..i];
        }
      }
    }
  }

  lemma CheckFaults(env: Env, st: Scan, rs: seq<Record>, p: Parsed)
    requires Stands(st, rs) && Check(env, st, p).Err?
    ensures var f := Check(env, st, p).error; FaultOf(env, rs, p, f) && StandsAt(AfterFault(st, p, f), rs, p, f)
  {
    hide Hex64, HexHash, HashOk, HashedByWriter, NumberedAfter, LastNumber;
    if p.Object? {
      var e := p.rec;
      WellFormedIs(e);
      NumberIs(e, LastNumber(rs));
      RequiredIs(e);
      if WellFormed(e) {
        HashedIs(env, e);
        StrParts(e);
      }
    }
  }

  lemma RequiredIs(e: Record)
    ensures REQUIRED <= e.Keys <==> Complete(e)
    ensures WellFormed(e) <==> HexHashes(e)
  {
    hide Hex64, HexHash;
    WellFormedIs(e);
  }

  lemma CheckOkMeans(env: Env, st: Scan, rs: seq<Record>, p: Parsed)
    requires Stands(st, rs) && Check(env, st, p).Ok?
    ensures p.Object?
    ensures Linked(rs, p.rec) && HashedByWriter(env, p.rec) && NumberedAfter(p.rec, LastNumber(rs))
    ensures Stands(Check(env, st, p).value, rs + [p.rec])
  {
    hide Hex64, HexHash, HashOk, HashedByWriter, NumberedAfter;
    var e := p.rec;
    RequiredIs(e);
    HashedIs(env, e);
    StrParts(e);
    NumberIs(e, LastNumber(rs));
    assert (rs + [e])[..|rs|] == rs;
  }

  lemma CheckPasses(env: Env, st: Scan, rs: seq<Record>, p: Parsed)
    requires Chained(env, rs) && Stands(st, rs) && Check(env, st, p).Ok?
    ensures p.Object? && Chained(env, rs + [p.rec]) && Stands(Check(env, st, p).value, rs + [p.rec])
  {
    hide *;
    CheckOkMeans(env, st, rs, p);
    LinkLast(env, rs, p.rec);
  }

  // ------------------------------------------------------------ the walk over the disk

  /** Line n is the first at fault, after the records rs0 of the segments before. */
  ghost predicate FaultyLine(env: Env, rs0: seq<Record>, ls: seq<Bytes>, n: nat, f: Fault, st: Scan) {
    && 1 <= n <= |ls| && !Blank(ls[n - 1]) && ObjectLines(env, ls[..n - 1])
    && var rs := rs0 + LineRecords(env, ls[..n - 1]);
       Chained(env, rs) && FaultOf(env, rs, env.loads(ls[n - 1]), f) && StandsAt(st, rs, env.loads(ls[n - 1]), f)
  }

  /** What a walk over the lines of one segment comes to. */
  ghost predicate LinesSay(env: Env, rs0: seq<Record>, segment: nat, ls: seq<Bytes>, o: Outcome) {
    match o.stop
    case None =>
      var rs := rs0 + LineRecords(env, ls);
      ObjectLines(env, ls) && Chained(env, rs) && Stands(o.st, rs)
    case Some(at) => at.segment == segment && FaultyLine(env, rs0, ls, at.line, at.fault, o.st)
  }

  lemma NoLines(env: Env, rs0: seq<Record>, segment: nat, o: Outcome)
    requires o.stop.None? && Chained(env, rs0) && Stands(o.st, rs0)
    ensures LinesSay(env, rs0, segment, [], WalkLines(env, o, segment, []))
  {
    hide Chained, Stands;
    assert rs0 + LineRecords(env, []) == rs0;
  }

  lemma LastLine(env: Env, ls: seq<Bytes>, l: Bytes)
    ensures LineRecords(env, ls + [l]) ==
            LineRecords(env, ls) + if Blank(l) then [] else match env.loads(l) case Object(e) => [e] case _ => []
    ensures ObjectLines(env, ls + [l]) <==> ObjectLines(env, ls) && (Blank(l) || env.loads(l).Object?)
  {
    hide Blank;
    assert (ls + [l])[..|ls + [l]| - 1] == ls;
    if ObjectLines(env, ls + [l]) {
      assert forall x | x in ls :: x in ls + [l];
      assert l in ls + [l];
    }
  }

  lemma MoreLines(env: Env, rs0: seq<Record>, ls: seq<Bytes>, l: Bytes, n: nat, f: Fault, st: Scan)
    requires FaultyLine(env, rs0, ls, n, f, st)
    ensures FaultyLine(env, rs0, ls + [l], n, f, st)
  {
    hide Blank, ObjectLines, LineRecords, Chained, FaultOf, StandsAt;
    assert (ls + [l])[..n - 1] == ls[..n - 1] && (ls + [l])[n - 1] == ls[n - 1];
  }

  lemma SayNext(env: Env, rs0: seq<Record>, segment: nat, ls: seq<Bytes>, l: Bytes, o: Outcome)
    requires LinesSay(env, rs0, segment, ls, o)
    ensures LinesSay(env, rs0, segment, ls + [l], StepLine(env, o, segment, |ls| + 1, l))
  {
    hide Blank, ObjectLines, LineRecords, Chained, FaultOf, StandsAt, Stands, Check, AfterFault, FaultyLine;
    if o.stop.Some? {
      MoreLines(env, rs0, ls, l, o.stop.value.line, o.stop.value.fault, o.st);
    } else {
      var rs := rs0 + LineRecords(env, ls);
      LastLine(env, ls, l);
      if Blank(l) {
        assert rs0 + (LineRecords(env, ls) + []) == rs;
      } else if Check(env, o.st, env.loads(l)).Err? {
        CheckFaults(env, o.st, rs, env.loads(l));
        FaultHere(env, rs0, ls, l, Check(env, o.st, env.loads(l)).error,
                  AfterFault(o.st, env.loads(l), Check(env, o.st, env.loads(l)).error));
      } else {
        CheckPasses(env, o.st, rs, env.loads(l));
        Associate(rs0, LineRecords(env, ls), [env.loads(l).rec]);
      }
    }
  }

  lemma FaultHere(env: Env, rs0: seq<Record>, ls: seq<Bytes>, l: Bytes, f: Fault, st: Scan)
    requires !Blank(l) && ObjectLines(env, ls) && Chained(env, rs0 + LineRecords(env, ls))
    requires FaultOf(env, rs0 + LineRecords(env, ls), env.loads(l), f)
    requires StandsAt(st, rs0 + LineRecords(env, ls), env.loads(l), f)
    ensures FaultyLine(env, rs0, ls + [l], |ls| + 1, f, st)
  {
    hide Blank, ObjectLines, LineRecords, Chained, FaultOf, StandsAt;
    assert (ls + [l])[..|ls|] == ls && (ls + [l])[|ls|] == l;
  }

  lemma {:induction false} WalkLinesSay(env: Env, rs0: seq<Record>, segment: nat, ls: seq<Bytes>, o: Outcome)
    requires o.stop.None? && Chained(env, rs0) && Stands(o.st, rs0)
    ensures LinesSay(env, rs0, segment, ls, WalkLines(env, o, segment, ls))
  {
    hide *;
    if ls == [] {
      NoLines(env, rs0, segment, o);
    } else {
      var n := |ls| - 1;
      WalkLinesSay(env, rs0, segment, ls[..n], o);
      assert ls == ls[..n] + [ls[n]];
      SayNext(env, rs0, segment, ls[..n], ls[n], WalkLines(env, o, segment, ls[..n]));
      WalkLinesLast(env, o, segment, ls);
    }
  }

  lemma WalkLinesLast(env: Env, o: Outcome, segment: nat, ls: seq<Bytes>)
    requires ls != []
    ensures var n := |ls| - 1;
      WalkLines(env, o, segment, ls) == StepLine(env, WalkLines(env, o, segment, ls[..n]), segment, n + 1, ls[n])
  {
    hide StepLine;
  }

  /** The first fault in the directory: where it is, which it is, and what was counted before it. */
  ghost predicate FaultyDisk(env: Env, datas: seq<Bytes>, at: Place, st: Scan) {
    && at.segment < |datas| && ObjectsOnly(env, datas[..at.segment])
    && var rs, data := RecordsOnDisk(env, datas[..at.segment]), datas[at.segment];
       if at.fault == TrailingPartial then
         !Whole(data) && at.line == multiset(data)[10] + 1 && Chained(env, rs) && Stands(st, rs)
       else Whole(data) && FaultyLine(env, rs, SplitLines(data), at.line, at.fault, st)
  }

  ghost predicate DiskSays(env: Env, datas: seq<Bytes>, o: Outcome) {
    match o.stop
    case None =>
      var rs := RecordsOnDisk(env, datas);
      ObjectsOnly(env, datas) && Chained(env, rs) && Stands(o.st, rs)
    case Some(at) => FaultyDisk(env, datas, at, o.st)
  }

  lemma {:induction false} BreaksCounted(data: Bytes)
    ensures CountBreaks(data) == multiset(data)[10]
  {
    if data != [] {
      var n := |data| - 1;
      BreaksCounted(data[..n]);
      assert data == data[..n] + [data[n]];
    }
  }

  lemma NoDisk(env: Env)
    ensures DiskSays(env, [], WalkAll(env, []))
  {
  }

  lemma ObjectsInBoth(env: Env, datas: seq<Bytes>, d: Bytes)
    ensures ObjectsOnly(env, datas + [d]) <==>
      ObjectsOnly(env, datas) && Whole(d) && ObjectLines(env, SplitLines(d))
  {
    hide SplitLines, ObjectLines, Whole;
    var all := datas + [d];
    assert all[|datas|] == d;
    if ObjectsOnly(env, all) {
      forall i | 0 <= i < |datas| ensures Whole(datas[i]) && ObjectLines(env, SplitLines(datas[i])) {
        assert all[i] == datas[i];
      }
    }
  }

  lemma LastData(env: Env, datas: seq<Bytes>, d: Bytes)
    ensures RecordsOnDisk(env, datas + [d]) == RecordsOnDisk(env, datas) + LineRecords(env, SplitLines(d))
    ensures ObjectsOnly(env, datas + [d]) <==>
      ObjectsOnly(env, datas) && Whole(d) && ObjectLines(env, SplitLines(d))
  {
    hide LineRecords, SplitLines, ObjectsOnly;
    assert (datas + [d])[..|datas + [d]| - 1] == datas;
    ObjectsInBoth(env, datas, d);
  }

  lemma MoreDisk(env: Env, datas: seq<Bytes>, d: Bytes, at: Place, st: Scan)
    requires FaultyDisk(env, datas, at, st)
    ensures FaultyDisk(env, datas + [d], at, st)
  {
    hide ObjectsOnly, RecordsOnDisk, SplitLines, FaultyLine, Chained, Stands;
    assert (datas + [d])[..at.segment] == datas[..at.segment] && (datas + [d])[at.segment] == datas[at.segment];
  }

  lemma SegmentNext(env: Env, datas: seq<Bytes>, d: Bytes, o: Outcome)
    requires DiskSays(env, datas, o)
    ensures DiskSays(env, datas + [d], WalkSegment(env, o, |datas|, d))
  {
    hide ObjectsOnly, RecordsOnDisk, LineRecords, SplitLines, ObjectLines;
    hide FaultyLine, Chained, Stands, FaultyDisk, WalkLines;
    if o.stop.Some? {
      MoreDisk(env, datas, d, o.stop.value, o.st);
      StoppedStays(env, o, |datas|, SplitLines(d));
    } else {
      var rs, ls := RecordsOnDisk(env, datas), SplitLines(d);
      LastData(env, datas, d);
      WalkLinesSay(env, rs, |datas|, ls, o);
      BreaksCounted(d);
      var r := WalkSegment(env, o, |datas|, d);
      if r.stop.Some? {
        LineFaults(env, rs, ls, r.stop.value.line, r.stop.value.fault, r.st);
        FaultInLast(env, datas, d, r.stop.value, r.st);
      }
    }
  }

  lemma LineFaults(env: Env, rs: seq<Record>, ls: seq<Bytes>, n: nat, f: Fault, st: Scan)
    ensures FaultyLine(env, rs, ls, n, f, st) ==> f != TrailingPartial
  {
  }

  lemma FaultInLast(env: Env, datas: seq<Bytes>, d: Bytes, at: Place, st: Scan)
    requires ObjectsOnly(env, datas) && at.segment == |datas|
    requires var rs := RecordsOnDisk(env, datas);
      if at.fault == TrailingPartial then
        !Whole(d) && at.line == multiset(d)[10] + 1 && Chained(env, rs) && Stands(st, rs)
      else Whole(d) && FaultyLine(env, rs, SplitLines(d), at.line, at.fault, st)
    ensures FaultyDisk(env, datas + [d], at, st)
  {
    hide ObjectsOnly, RecordsOnDisk, SplitLines, FaultyLine, Chained, Stands;
    assert (datas + [d])[..|datas|] == datas && (datas + [d])[|datas|] == d;
  }

  lemma StoppedStays(env: Env, o: Outcome, segment: nat, ls: seq<Bytes>)
    requires o.stop.Some?
    ensures WalkLines(env, o, segment, ls) == o
  {
    assert ls[..0] == [] && WalkLines(env, o, segment, []) == o;
    LinesStuck(env, o, segment, ls, 0);
  }

  lemma {:induction false} WalkAllSays(env: Env, datas: seq<Bytes>)
    ensures DiskSays(env, datas, WalkAll(env, datas))
  {
    hide *;
    if datas == [] {
      NoDisk(env);
    } else {
      var n := |datas| - 1;
      WalkAllSays(env, datas[..n]);
      assert datas == datas[..n] + [datas[n]];
      SegmentNext(env, datas[..n], datas[n], WalkAll(env, datas[..n]));
      WalkUnfold(env, datas);
    }
  }

  // ------------------------------------------------------------ the verdict

  predicate Begins<T(==)>(a: seq<T>, b: seq<T>) {
    |a| <= |b| && b[..|a|] == a
  }

  lemma BeginsMore<T>(a: seq<T>, b: seq<T>, c: seq<T>)
    requires Begins(a, b)
    ensures Begins(a, b + c)
  {
  }

  lemma BeginsAfter<T>(x: seq<T>, a: seq<T>, b: seq<T>)
    requires Begins(a, b)
    ensures Begins(x + a, x + b)
  {
    assert (x + b)[..|x + a|] == x + b[..|a|];
  }

  lemma {:induction false} LineRecordsBegin(env: Env, ls: seq<Bytes>, n: nat)
    requires n <= |ls|
    ensures Begins(LineRecords(env, ls[..n]), LineRecords(env, ls))
  {
    hide LineRecords;
    if n == |ls| {
      assert ls[..n] == ls;
    } else {
      var m := |ls| - 1;
      LineRecordsBegin(env, ls[..m], n);
      assert ls[..m][..n] == ls[..n] && ls == ls[..m] + [ls[m]];
      LastLine(env, ls[..m], ls[m]);
      BeginsMore(LineRecords(env, ls[..n]), LineRecords(env, ls[..m]),
                 if Blank(ls[m]) then [] else match env.loads(ls[m]) case Object(e) => [e] case _ => []);
    }
  }

  lemma {:induction false} DiskBegins(env: Env, datas: seq<Bytes>, s: nat)
    requires s < |datas|
    ensures Begins(RecordsOnDisk(env, datas[..s]) + LineRecords(env, SplitLines(datas[s])), RecordsOnDisk(env, datas))
  {
    hide *;
    var m := |datas| - 1;
    assert datas == datas[..m] + [datas[m]];
    LastData(env, datas[..m], datas[m]);
    if s == m {
      BeginsSelf(RecordsOnDisk(env, datas));
    } else {
      DiskBegins(env, datas[..m], s);
      assert datas[..m][..s] == datas[..s];
      BeginsMore(RecordsOnDisk(env, datas[..s]) + LineRecords(env, SplitLines(datas[s])),
                 RecordsOnDisk(env, datas[..m]), LineRecords(env, SplitLines(datas[m])));
    }
  }

  lemma BeginsSelf<T>(a: seq<T>)
    ensures Begins(a, a)
  {
  }

  lemma BeginsTwice<T>(a: seq<T>, b: seq<T>, c: seq<T>)
    requires Begins(a, b) && Begins(b, c)
    ensures Begins(a, c)
  {
    assert c[..|b|][..|a|] == c[..|a|];
  }

  lemma ChainBegins(env: Env, a: seq<Record>, b: seq<Record>)
    requires Begins(a, b) && Chained(env, b)
    ensures Chained(env, a)
  {
    hide Hex64, HashedByWriter, NumberedAfter, LastNumber;
    forall i | 0 <= i < |a| ensures Link(env, a, i) {
      assert Link(env, b, i) && b[..i] == a[..i];
    }
  }

  lemma FaultExcludes(env: Env, datas: seq<Bytes>, at: Place, st: Scan)
    requires FaultyDisk(env, datas, at, st)
    ensures !(ObjectsOnly(env, datas) && Chained(env, RecordsOnDisk(env, datas)))
  {
    hide RecordsOnDisk, LineRecords, SplitLines, Chained, Stands, StandsAt, Blank;
    if ObjectsOnly(env, datas) && at.fault != TrailingPartial {
      var ls, n := SplitLines(datas[at.segment]), at.line;
      var rs0 := RecordsOnDisk(env, datas[..at.segment]);
      assert ls[n - 1] in ls;
      FaultInChain(env, rs0, ls, n, at.fault);
      DiskBegins(env, datas, at.segment);
      LineRecordsBegin(env, ls, n);
      BeginsAfter(rs0, LineRecords(env, ls[..n]), LineRecords(env, ls));
      BeginsTwice(rs0 + LineRecords(env, ls[..n]), rs0 + LineRecords(env, ls), RecordsOnDisk(env, datas));
      if Chained(env, RecordsOnDisk(env, datas)) {
        ChainBegins(env, rs0 + LineRecords(env, ls[..n]), RecordsOnDisk(env, datas));
      }
    }
  }

  lemma FaultInChain(env: Env, rs0: seq<Record>, ls: seq<Bytes>, n: nat, f: Fault)
    requires 1 <= n <= |ls| && !Blank(ls[n - 1]) && env.loads(ls[n - 1]).Object?
    requires FaultOf(env, rs0 + LineRecords(env, ls[..n - 1]), env.loads(ls[n - 1]), f)
    ensures !Chained(env, rs0 + LineRecords(env, ls[..n]))
  {
    hide LineRecords, Chained, Blank, Hex64, HashedByWriter, NumberedAfter, LastNumber;
    var rs, e := rs0 + LineRecords(env, ls[..n - 1]), env.loads(ls[n - 1]).rec;
    assert ls[..n] == ls[..n - 1] + [ls[n - 1]];
    LastLine(env, ls[..n - 1], ls[n - 1]);
    Associate(rs0, LineRecords(env, ls[..n - 1]), [e]);
    LinkLast(env, rs, e);
  }

  predicate Zeros(s: string) {
    |s| == 64 && forall c | c in s :: c == '0'
  }

  lemma ZerosAre(s: string)
    ensures Zeros(s) <==> s == ZeroHash()
  {
    var z := ZeroHash();
    assert forall c | c in z :: c == '0';
    if Zeros(s) {
      assert forall i | 0 <= i < 64 :: s[i] in s;
      assert s == z;
    }
  }

  /** A valid report: what its fields say of the records on disk. */
  predicate Tells(r: Report, segments: nat, rs: seq<Record>) {
    && r.error == None && r.segmentCount == segments && r.recordCount == |rs| && r.lastSequence == LastNumber(rs)
    && (rs == [] ==> Zeros(r.firstPrev) && Zeros(r.lastHash) && r.coverage == FullFromGenesis)
    && (rs != [] ==> PrevHash in rs[0] && rs[0][PrevHash] == Str(r.firstPrev))
    && (rs != [] ==> RecordHash in rs[|rs| - 1] && rs[|rs| - 1][RecordHash] == Str(r.lastHash))
    && (rs != [] ==> r.coverage == if Zeros(r.firstPrev) then FullFromGenesis else RetainedWindow)
  }

  /** The fields of a report as the verifier counted them. */
  function Counted(r: Report): Scan {
    Scan(if r.recordCount == 0 then None else Some(r.lastHash), r.firstPrev, r.lastHash, r.lastSequence, r.recordCount)
  }

  /**
   The verdict, for any bytes: a directory is reported valid if and only if it holds
   whole lines of JSON objects that form a chain as their writers make one, and the
   fields of the report describe that chain; otherwise the report names the first
   line at fault, what is wrong with it, and what was counted before it.
   */
  lemma VerdictMeaning(env: Env, datas: seq<Bytes>)
    ensures var r, rs := ReportOf(env, datas), RecordsOnDisk(env, datas);
      && (r.valid <==> ObjectsOnly(env, datas) && Chained(env, rs))
      && (r.valid ==> Tells(r, |datas|, rs))
      && (!r.valid ==> r.error.Some? && r.coverage == Unknown && r.segmentCount == |datas|)
      && (!r.valid ==> FaultyDisk(env, datas, r.error.value, Counted(r)))
  {
    hide ObjectsOnly, RecordsOnDisk, Chained, FaultyDisk, LastNumber;
    var o := WalkAll(env, datas);
    WalkAllSays(env, datas);
    ZerosAre(o.st.firstPrev);
    ZerosAre(o.st.lastHash);
    if o.stop.Some? {
      FaultExcludes(env, datas, o.stop.value, o.st);
      FaultCounts(env, datas, o.stop.value, o.st);
    }
  }

  lemma FaultCounts(env: Env, datas: seq<Bytes>, at: Place, st: Scan)
    requires FaultyDisk(env, datas, at, st)
    ensures st.prev == if st.count == 0 then None else Some(st.lastHash)
  {
    hide ObjectsOnly, RecordsOnDisk, Chained, LastNumber, LineRecords, FaultOf, Blank, SplitLines;
  }

  // ------------------------------------------------------------ the same records, token by token

  lemma OneObject(env: Env, segment: nat, ls: seq<Bytes>, l: Bytes)
    requires AllObjects(LineTokens(env, segment, ls + [l]))
    ensures AllObjects(LineTokens(env, segment, ls))
    ensures RecordsOf(LineTokens(env, segment, ls + [l])) == RecordsOf(LineTokens(env, segment, ls)) +
            if Blank(l) then [] else match env.loads(l) case Object(e) => [e] case _ => []
  {
    hide Blank;
    var all := ls + [l];
    assert all[..|all| - 1] == ls;
    var a, b := LineTokens(env, segment, ls), LineTokens(env, segment, all);
    assert forall i | 0 <= i < |a| :: a[i] == b[i];
    if !Blank(l) {
      assert b[|a|].what == Text(env.loads(l));
    }
  }

  lemma NoTokensOnLines(env: Env, segment: nat)
    ensures AllObjects(LineTokens(env, segment, [])) && RecordsOf(LineTokens(env, segment, [])) == LineRecords(env, [])
  {
  }

  lemma NoTokens(env: Env)
    ensures AllObjects(Tokens(env, [])) && RecordsOf(Tokens(env, [])) == RecordsOnDisk(env, [])
  {
  }

  lemma {:induction false} LineTokensAre(env: Env, segment: nat, ls: seq<Bytes>)
    requires AllObjects(LineTokens(env, segment, ls))
    ensures RecordsOf(LineTokens(env, segment, ls)) == LineRecords(env, ls)
  {
    hide *;
    if ls == [] {
      NoTokensOnLines(env, segment);
    } else {
      var n := |ls| - 1;
      assert ls == ls[..n] + [ls[n]];
      OneObject(env, segment, ls[..n], ls[n]);
      LineTokensAre(env, segment, ls[..n]);
      LastLine(env, ls[..n], ls[n]);
    }
  }

  lemma TornIsNone(env: Env, segment: nat, data: Bytes)
    ensures AllObjects(SegmentTokens(env, segment, data)) ==>
      SegmentTokens(env, segment, data) == LineTokens(env, segment, SplitLines(data))
  {
    hide LineTokens, SplitLines, CountBreaks;
    var torn := Token(segment, CountBreaks(data) + 1, Torn);
    assert ![torn][0].what.Text?;
  }

  lemma PartsObjects(a: seq<Token>, b: seq<Token>)
    requires AllObjects(a + b)
    ensures AllObjects(a) && AllObjects(b) && RecordsOf(a + b) == RecordsOf(a) + RecordsOf(b)
  {
    assert forall i | 0 <= i < |a| :: (a + b)[i] == a[i];
    assert forall i | 0 <= i < |b| :: (a + b)[|a| + i] == b[i];
  }

  lemma {:induction false} TokensAre(env: Env, datas: seq<Bytes>)
    requires AllObjects(Tokens(env, datas))
    ensures RecordsOf(Tokens(env, datas)) == RecordsOnDisk(env, datas)
  {
    hide *;
    if datas == [] {
      NoTokens(env);
    } else {
      var n := |datas| - 1;
      WalkUnfold(env, datas);
      PartsObjects(Tokens(env, datas[..n]), SegmentTokens(env, n, datas[n]));
      TokensAre(env, datas[..n]);
      TornIsNone(env, n, datas[n]);
      LineTokensAre(env, n, SplitLines(datas[n]));
      assert datas == datas[..n] + [datas[n]];
      LastData(env, datas[..n], datas[n]);
    }
  }

  /** The records of a valid directory, by either account. */
  lemma LoggedIsOnDisk(env: Env, datas: seq<Bytes>)
    requires ReportOf(env, datas).valid
    ensures Logged(env, datas) == RecordsOnDisk(env, datas)
  {
    hide Tokens, RecordsOnDisk, ReportOf, Accepted;
    ReportMeaning(env, datas);
    TokensAre(env, datas);
  }
}

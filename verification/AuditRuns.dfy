/**
 Every run of a shared audit log: any number of logger instances record, rotate,
 reopen and crash in any order, and the invariant of the directory survives.
 */
module AuditRuns {
  import opened Common
  import opened AuditText
  import opened AuditRecords
  import opened AuditTamper
  import opened AuditLogger

  /** What the writer needs of the JSON codec and of the digest. */
  ghost predicate Sound(env: Env) {
    && (forall e {:trigger env.dumps(e)} ::
      env.loads(env.dumps(e)) == Object(e) && Clean(env.dumps(e)) && !Blank(env.dumps(e)))
    && (forall x {:trigger env.sha(x)} :: HexHash(env.sha(x)) && env.sha(x) != ZeroHash())
  }

  // ------------------------------------------------------------ segments as records

  function Dumped(env: Env, rs: seq<Record>): seq<Bytes> {
    seq(|rs|, i requires 0 <= i < |rs| => env.dumps(rs[i]))
  }

  /** The bytes of a segment holding exactly these records. */
  function Encode(env: Env, rs: seq<Record>): Bytes {
    Render(Dumped(env, rs))
  }

  function ParsedRecord(env: Env, l: Bytes): Record {
    match env.loads(l) case Object(e) => e case _ => map[]
  }

  function Decode(env: Env, data: Bytes): seq<Record> {
    var ls := SplitLines(data);
    seq(|ls|, i requires 0 <= i < |ls| => ParsedRecord(env, ls[i]))
  }

  ghost predicate Canonical(env: Env, data: Bytes) {
    data == Encode(env, Decode(env, data))
  }

  lemma DumpedClean(env: Env, rs: seq<Record>)
    requires Sound(env)
    ensures CleanLines(Dumped(env, rs))
  {
  }

  lemma DecodeEncode(env: Env, rs: seq<Record>)
    requires Sound(env)
    ensures Decode(env, Encode(env, rs)) == rs
    ensures Canonical(env, Encode(env, rs))
  {
    DumpedClean(env, rs);
    SplitRender(Dumped(env, rs));
    var back := Decode(env, Encode(env, rs));
    forall i | 0 <= i < |rs| ensures back[i] == rs[i] {
      assert env.loads(env.dumps(rs[i])) == Object(rs[i]);
    }
    assert back == rs;
  }

  lemma EncodeSnoc(env: Env, rs: seq<Record>, e: Record)
    ensures Encode(env, rs + [e]) == Encode(env, rs) + Line(env.dumps(e))
  {
    var ls := Dumped(env, rs + [e]);
    assert ls[..|ls| - 1] == Dumped(env, rs);
  }

  lemma CanonicalSnoc(env: Env, data: Bytes, e: Record)
    requires Sound(env) && Canonical(env, data)
    ensures Canonical(env, data + Line(env.dumps(e)))
    ensures Decode(env, data + Line(env.dumps(e))) == Decode(env, data) + [e]
  {
    EncodeSnoc(env, Decode(env, data), e);
    DecodeEncode(env, Decode(env, data) + [e]);
  }

  /** The records of a list of segments, oldest first. */
  function LogOf(env: Env, datas: seq<Bytes>): seq<Record> {
    if datas == [] then []
    else LogOf(env, datas[..|datas| - 1]) + Decode(env, datas[|datas| - 1])
  }

  lemma {:induction false} LogOfConcat(env: Env, a: seq<Bytes>, b: seq<Bytes>)
    ensures LogOf(env, a + b) == LogOf(env, a) + LogOf(env, b)
  {
    if b == [] {
      assert a + b == a;
    } else {
      var n := |b| - 1;
      assert (a + b)[..|a + b| - 1] == a + b[..n];
      LogOfConcat(env, a, b[..n]);
    }
  }

  lemma LogOfOne(env: Env, data: Bytes)
    ensures LogOf(env, [data]) == Decode(env, data)
  {
    assert [data][..0] == [];
  }

  ghost predicate AllCanonical(env: Env, datas: seq<Bytes>) {
    forall i | 0 <= i < |datas| :: Canonical(env, datas[i])
  }

  // ------------------------------------------------------------ verifying canonical segments

  lemma NoLineTokens(env: Env, segment: nat)
    ensures LineTokens(env, segment, Dumped(env, [])) == []
  {
  }

  lemma LineTokensLast(env: Env, segment: nat, rs: seq<Record>)
    requires Sound(env) && rs != []
    ensures var n := |rs| - 1;
      LineTokens(env, segment, Dumped(env, rs)) ==
      LineTokens(env, segment, Dumped(env, rs[..n])) + [Token(segment, n + 1, Text(Object(rs[n])))]
  {
    hide Blank, Clean, HexHash;
    var n := |rs| - 1;
    assert Dumped(env, rs)[..n] == Dumped(env, rs[..n]);
    assert env.loads(env.dumps(rs[n])) == Object(rs[n]);
  }

  lemma ObjectsSnoc(ts: seq<Token>, t: Token, e: Record)
    requires AllObjects(ts) && t.what == Text(Object(e))
    ensures AllObjects(ts + [t]) && RecordsOf(ts + [t]) == RecordsOf(ts) + [e]
  {
  }

  lemma {:induction false} LineTokensOf(env: Env, segment: nat, rs: seq<Record>)
    requires Sound(env)
    ensures AllObjects(LineTokens(env, segment, Dumped(env, rs)))
    ensures RecordsOf(LineTokens(env, segment, Dumped(env, rs))) == rs
  {
    if rs == [] {
      NoLineTokens(env, segment);
    } else {
      hide *;
      var n := |rs| - 1;
      LineTokensOf(env, segment, rs[..n]);
      LineTokensLast(env, segment, rs);
      ObjectsSnoc(LineTokens(env, segment, Dumped(env, rs[..n])), Token(segment, n + 1, Text(Object(rs[n]))), rs[n]);
      assert rs == rs[..n] + [rs[n]];
    }
  }

  lemma SegmentTokensOf(env: Env, n: nat, data: Bytes)
    requires Sound(env) && Canonical(env, data)
    ensures AllObjects(SegmentTokens(env, n, data))
    ensures RecordsOf(SegmentTokens(env, n, data)) == Decode(env, data)
  {
    var rs := Decode(env, data);
    DumpedClean(env, rs);
    SplitRender(Dumped(env, rs));
    LineTokensOf(env, n, rs);
  }

  lemma {:induction false} CanonicalTokens(env: Env, datas: seq<Bytes>)
    requires Sound(env) && AllCanonical(env, datas)
    ensures AllObjects(Tokens(env, datas))
    ensures Logged(env, datas) == LogOf(env, datas)
  {
    hide SegmentTokens, Decode, Canonical, Sound;
    if datas != [] {
      var n := |datas| - 1;
      CanonicalTokens(env, datas[..n]);
      SegmentTokensOf(env, n, datas[n]);
      var head, last := Tokens(env, datas[..n]), SegmentTokens(env, n, datas[n]);
      assert RecordsOf(head + last) == RecordsOf(head) + RecordsOf(last);
    }
  }

  // ------------------------------------------------------------ the acknowledged history

  /** Every record ever acknowledged, in order: a chain from genesis numbered 1, 2, 3, ... */
  ghost predicate HistoryOk(env: Env, cfg: Config, hist: seq<Record>) {
    && Accepted(env, hist)
    && (forall i | 0 <= i < |hist| :: Numbered(env, cfg, hist[i], i))
    && (hist != [] ==> WellFormed(hist[0]) && PrevOf(hist[0]) == ZeroHash())
  }

  predicate Numbered(env: Env, cfg: Config, e: Record, i: int) {
    SeqOf(e) == Num(i + 1) && |Line(env.dumps(e))| <= cfg.maxRecordBytes
  }

  lemma {:induction false} SeqAfterHistory(env: Env, cfg: Config, hist: seq<Record>, k: nat, n: nat)
    requires k <= |hist| && n <= |hist| - k
    requires forall i | 0 <= i < |hist| :: Numbered(env, cfg, hist[i], i)
    ensures SeqAfter(hist[k..], n) == if n == 0 then 0 else k + n
  {
    if n > 0 {
      assert Numbered(env, cfg, hist[k + n - 1], k + n - 1);
    }
  }

  /** Any suffix of the history is a log that the verifier accepts. */
  lemma SuffixAccepted(env: Env, cfg: Config, hist: seq<Record>, k: nat)
    requires HistoryOk(env, cfg, hist) && k <= |hist|
    ensures Accepted(env, hist[k..])
  {
    forall i | 0 <= i < |hist| - k ensures RecordOk(env, hist[k..], i) {
      assert RecordOk(env, hist, k + i);
      assert Numbered(env, cfg, hist[k + i], k + i);
      SeqAfterHistory(env, cfg, hist, k, i);
    }
  }

  /** An entry built from the true tail continues the history. */
  lemma HistoryGrows(env: Env, cfg: Config, hist: seq<Record>, f: Fields)
    requires Sound(env) && HistoryOk(env, cfg, hist)
    requires |Line(env.dumps(NextEntry(env, hist, f)))| <= cfg.maxRecordBytes
    ensures HistoryOk(env, cfg, hist + [NextEntry(env, hist, f)])
  {
    assert hist != [] ==> RecordOk(env, hist, |hist| - 1);
    var m := TailOf(hist);
    var e := NextEntry(env, hist, f);
    var all := hist + [e];
    NextEntryOk(env, hist, f);
    forall i | 0 <= i < |all| ensures RecordOk(env, all, i) {
      assert all[..|hist|] == hist;
      SeqAfterPrefix(all, |hist|, Min(i, |hist|));
      if i < |hist| {
        assert RecordOk(env, hist, i);
      } else if i > 0 {
        assert Numbered(env, cfg, hist[i - 1], i - 1);
      }
    }
  }

  /** What a writer that knows the history continues from. */
  function TailOf(hist: seq<Record>): Mem {
    if hist == [] || !WellFormed(hist[|hist| - 1]) then Mem(ZeroHash(), 0)
    else Mem(HashOf(hist[|hist| - 1]), |hist|)
  }

  function NextEntry(env: Env, hist: seq<Record>, f: Fields): Record {
    BuildEntry(env, f, TailOf(hist))
  }

  lemma NextEntryOk(env: Env, hist: seq<Record>, f: Fields)
    requires Sound(env)
    requires hist != [] ==> WellFormed(hist[|hist| - 1])
    ensures var e := NextEntry(env, hist, f);
      && WellFormed(e) && HashOk(env, e)
      && PrevOf(e) == TailOf(hist).lastHash
      && SeqOf(e) == Num(|hist| + 1)
      && HashOf(e) == env.sha(env.canon(Unsigned(f, TailOf(hist))))
  {
    var m := TailOf(hist);
    var e := NextEntry(env, hist, f);
    assert Unhashed(e) == Unsigned(f, m);
    assert HexHash(env.sha(env.canon(Unsigned(f, m))));
  }

  // ------------------------------------------------------------ the tail on disk

  /** The tail read of one non-empty canonical segment shows its last record. */
  lemma TailOfSegment(env: Env, data: Bytes)
    requires Sound(env) && Canonical(env, data) && Decode(env, data) != []
    ensures var g := Decode(env, data);
      var e := g[|g| - 1];
      |Line(env.dumps(e))| <= WINDOW ==>
        TailLine(data, WINDOW) == Some(env.dumps(e)) && env.loads(env.dumps(e)) == Object(e)
  {
    var g := Decode(env, data);
    var e := g[|g| - 1];
    assert g == g[..|g| - 1] + [e];
    EncodeSnoc(env, g[..|g| - 1], e);
    TailLineExact(Encode(env, g[..|g| - 1]), env.dumps(e), WINDOW);
  }

  lemma EmptySegment(env: Env, datas: seq<Bytes>)
    requires datas != []
    requires Canonical(env, datas[|datas| - 1]) && Decode(env, datas[|datas| - 1]) == []
    ensures TailLine(datas[|datas| - 1], WINDOW) == None
    ensures LogOf(env, datas) == LogOf(env, datas[..|datas| - 1])
  {
    assert datas[|datas| - 1] == [] && Window([], WINDOW) == [];
  }

  predicate Readable(env: Env, e: Record) {
    WellFormed(e) && SeqOf(e).Num? && |Line(env.dumps(e))| <= WINDOW
  }

  lemma NoTail(env: Env, memSequence: int)
    ensures LogOf(env, []) == [] && TailFrom(env, [], memSequence) == Ok(Mem(ZeroHash(), 0))
  {
  }

  lemma LastSegment(env: Env, datas: seq<Bytes>)
    requires AllCanonical(env, datas) && datas != []
    ensures var n := |datas| - 1;
      && AllCanonical(env, datas[..n]) && Canonical(env, datas[n])
      && LogOf(env, datas) == LogOf(env, datas[..n]) + Decode(env, datas[n])
  {
    hide Canonical, Decode;
    var n := |datas| - 1;
    assert Canonical(env, datas[n]);
    assert forall i | 0 <= i < n :: datas[..n][i] == datas[i];
  }

  lemma TailLast(env: Env, datas: seq<Bytes>, memSequence: int)
    requires datas != []
    ensures var n := |datas| - 1;
      TailFrom(env, datas, memSequence) ==
      match TailLine(datas[n], WINDOW)
      case None => TailFrom(env, datas[..n], memSequence)
      case Some(l) => TailRecord(env, l, memSequence)
  {
    hide TailLine, TailRecord;
  }

  lemma ReadableFits(env: Env, e: Record)
    ensures Readable(env, e) <==> WellFormed(e) && SeqOf(e).Num? && |Line(env.dumps(e))| <= WINDOW
  {
  }

  lemma TailRecordIs(env: Env, l: Bytes, e: Record, memSequence: int)
    requires env.loads(l) == Object(e) && WellFormed(e) && SeqOf(e).Num?
    ensures TailRecord(env, l, memSequence) == Ok(Mem(HashOf(e), SeqOf(e).n))
  {
    hide HexHash;
  }

  lemma {:induction false} TailIsTrue(env: Env, datas: seq<Bytes>, memSequence: int)
    requires Sound(env) && AllCanonical(env, datas)
    requires LogOf(env, datas) != [] ==> Readable(env, LogOf(env, datas)[|LogOf(env, datas)| - 1])
    ensures var rs := LogOf(env, datas);
      TailFrom(env, datas, memSequence) ==
      if rs == [] then Ok(Mem(ZeroHash(), 0))
      else Ok(Mem(HashOf(rs[|rs| - 1]), SeqOf(rs[|rs| - 1]).n))
  {
    hide *;
    if datas == [] {
      NoTail(env, memSequence);
    } else {
      var n := |datas| - 1;
      var g := Decode(env, datas[n]);
      LastSegment(env, datas);
      TailLast(env, datas, memSequence);
      if g == [] {
        EmptySegment(env, datas);
        TailIsTrue(env, datas[..n], memSequence);
      } else {
        var e := g[|g| - 1];
        ReadableFits(env, e);
        assert LogOf(env, datas)[|LogOf(env, datas)| - 1] == e;
        TailOfSegment(env, datas[n]);
        TailRecordIs(env, env.dumps(e), e, memSequence);
      }
    }
  }

  /** No proper ending of a JSON object is JSON text, and each ends in a visible byte. */
  ghost predicate SuffixFree(env: Env) {
    forall e, k {:trigger env.dumps(e)[k..]} | 0 < k < |env.dumps(e)| ::
      env.loads(env.dumps(e)[k..]) == BadJson && !Blank(env.dumps(e)[k..])
  }

  /** The window shows the end of a longer line as if it were a line. */
  lemma TailLineLong(before: Bytes, l: Bytes, window: nat)
    requires Clean(l) && 2 <= window <= |l| && !Blank(l[|l| + 1 - window..])
    ensures TailLine(before + Line(l), window) == Some(l[|l| + 1 - window..])
  {
    var data, part := before + Line(l), l[|l| + 1 - window..];
    assert Window(data, window) == Line(part);
    SplitOne(part);
    var none: seq<Bytes> := [part][..0];
    assert none == [];
  }

  lemma LongSegment(env: Env, data: Bytes)
    requires Sound(env) && SuffixFree(env) && Canonical(env, data) && Decode(env, data) != []
    requires var g := Decode(env, data); |Line(env.dumps(g[|g| - 1]))| > WINDOW
    ensures TailLine(data, WINDOW).Some? && env.loads(TailLine(data, WINDOW).value) == BadJson
  {
    var g := Decode(env, data);
    var e := g[|g| - 1];
    var l := env.dumps(e);
    assert g == g[..|g| - 1] + [e];
    EncodeSnoc(env, g[..|g| - 1], e);
    assert env.loads(l[|l| + 1 - WINDOW..]) == BadJson && !Blank(l[|l| + 1 - WINDOW..]);
    TailLineLong(Encode(env, g[..|g| - 1]), l, WINDOW);
  }

  lemma TailRecordBad(env: Env, l: Bytes, memSequence: int)
    requires env.loads(l) == BadJson
    ensures TailRecord(env, l, memSequence) == Err(InvalidTail)
  {
  }

  /** The tail read fails on a listing whose last record does not fit the window. */
  lemma {:induction false} LongTail(env: Env, datas: seq<Bytes>, memSequence: int)
    requires Sound(env) && SuffixFree(env) && AllCanonical(env, datas) && LogOf(env, datas) != []
    requires var log := LogOf(env, datas); |Line(env.dumps(log[|log| - 1]))| > WINDOW
    ensures TailFrom(env, datas, memSequence) == Err(InvalidTail)
  {
    hide *;
    if datas == [] {
      NoTail(env, memSequence);
    } else {
      var n := |datas| - 1;
      var g := Decode(env, datas[n]);
      LastSegment(env, datas);
      TailLast(env, datas, memSequence);
      if g == [] {
        EmptySegment(env, datas);
        LongTail(env, datas[..n], memSequence);
      } else {
        assert LogOf(env, datas)[|LogOf(env, datas)| - 1] == g[|g| - 1];
        LongSegment(env, datas[n]);
        TailRecordBad(env, TailLine(datas[n], WINDOW).value, memSequence);
      }
    }
  }

  /** Whether the tail read tells a record longer than the window from the one before it. */
  ghost predicate TailDecides(env: Env, cfg: Config) {
    cfg.maxRecordBytes <= WINDOW || SuffixFree(env)
  }

  // ------------------------------------------------------------ the directory invariant

  predicate Sorted(rotated: seq<Segment>, top: nat) {
    && (forall i | 0 <= i < |rotated| :: 1 <= rotated[i].index <= top && rotated[i].data != [])
    && (forall i, j | 0 <= i < j < |rotated| :: rotated[i].index < rotated[j].index)
  }

  /** The listed bytes: canonical segments within the size bound, holding the end of the history. */
  ghost predicate DatasOk(env: Env, bound: int, datas: seq<Bytes>, hist: seq<Record>) {
    && AllCanonical(env, datas)
    && (forall i | 0 <= i < |datas| :: |datas[i]| <= bound)
    && IsSuffix(LogOf(env, datas), hist)
    && (hist != [] ==> LogOf(env, datas) != [])
  }

  function SegmentBound(cfg: Config): nat {
    Max(cfg.maxBytes, cfg.maxRecordBytes)
  }

  ghost predicate DirOk(env: Env, cfg: Config, d: Dir, hist: seq<Record>, rotations: nat) {
    && rotations < INDEX_LIMIT
    && Sorted(d.rotated, rotations)
    && DatasOk(env, SegmentBound(cfg), Listed(d), hist)
  }

  lemma SortedFront(rotated: seq<Segment>, top: nat)
    requires Sorted(rotated, top) && rotated != []
    ensures Sorted(rotated[..|rotated| - 1], top) && rotated[|rotated| - 1].index <= top
  {
  }

  lemma VisibleLast(front: seq<Segment>, last: Segment)
    requires last.index < INDEX_LIMIT
    ensures Visible(front + [last]) == Visible(front) + [last]
  {
    assert (front + [last])[..|front + [last]| - 1] == front;
  }

  lemma LastSplit(rotated: seq<Segment>)
    requires rotated != []
    ensures rotated[..|rotated| - 1] + [rotated[|rotated| - 1]] == rotated
  {
  }

  lemma {:induction false} AllVisible(rotated: seq<Segment>, top: nat)
    requires Sorted(rotated, top) && top < INDEX_LIMIT
    ensures Visible(rotated) == rotated
  {
    if rotated != [] {
      hide *;
      SortedFront(rotated, top);
      var n := |rotated| - 1;
      AllVisible(rotated[..n], top);
      VisibleLast(rotated[..n], rotated[n]);
      LastSplit(rotated);
    }
  }

  lemma {:induction false} TopIndex(rotated: seq<Segment>, top: nat)
    requires Sorted(rotated, top)
    ensures MaxIndex(rotated) <= top
    ensures forall i | 0 <= i < |rotated| :: rotated[i].index <= MaxIndex(rotated)
  {
    if rotated != [] {
      TopIndex(rotated[..|rotated| - 1], top);
    }
  }

  lemma SortedSnoc(rotated: seq<Segment>, top: nat, s: Segment)
    requires Sorted(rotated, top)
    requires s == Segment(MaxIndex(rotated) + 1, s.data) && s.data != []
    ensures Put(rotated, s) == rotated + [s] && Sorted(rotated + [s], top + 1)
  {
    TopIndex(rotated, top);
  }

  lemma DatasSnoc(r: seq<Segment>, s: Segment)
    ensures Datas(r + [s]) == Datas(r) + [s.data]
  {
  }

  lemma ListedAll(d: Dir, top: nat)
    requires Sorted(d.rotated, top) && top < INDEX_LIMIT
    ensures Listed(d) == if d.active.Some? then Datas(d.rotated) + [d.active.value] else Datas(d.rotated)
  {
    AllVisible(d.rotated, top);
  }

  lemma DropDrop<T>(r: seq<T>, keep: nat)
    requires |r| > keep
    ensures r[1..][|r| - 1 - keep..] == r[|r| - keep..]
  {
  }

  lemma NewestOf<T>(r: seq<T>, keep: nat)
    ensures |r| > keep ==> |r| - Min(keep, |r|) == |r| - keep && |r| - 1 - Min(keep, |r| - 1) == |r| - 1 - keep
    ensures |r| <= keep ==> r[|r| - Min(keep, |r|)..] == r
  {
  }

  /** Pruning leaves the newest `keep` segments. */
  lemma {:induction false} PruneCount(r: seq<Segment>, keep: nat, top: nat)
    requires Sorted(r, top) && top < INDEX_LIMIT
    ensures Prune(r, keep) == r[|r| - Min(keep, |r|)..]
    ensures Sorted(Prune(r, keep), top)
    decreases |r|
  {
    hide *;
    AllVisible(r, top);
    if |r| > keep {
      SortedFrom(r, top, 1);
      PruneCount(r[1..], keep, top);
      PruneDrops(r, keep);
      DropDrop(r, keep);
      NewestOf(r, keep);
    } else {
      PruneStays(r, keep);
      NewestOf(r, keep);
    }
  }

  lemma SortedFrom(r: seq<Segment>, top: nat, k: nat)
    requires Sorted(r, top) && k <= |r|
    ensures Sorted(r[k..], top)
  {
  }

  lemma DatasFrom(r: seq<Segment>, k: nat)
    requires k <= |r|
    ensures Datas(r[k..]) == Datas(r)[k..]
  {
  }

  /** How many segments pruning removes after a rotation in which `n` others are there already. */
  function Surplus(cfg: Config, n: nat): nat {
    n + 1 - Min(cfg.backupCount, n + 1)
  }

  /** A rotation moves the active segment to the end of the rotated ones and keeps the newest. */
  lemma RotateShape(cfg: Config, d: Dir, rotations: nat, s: Segment)
    requires Sorted(d.rotated, rotations) && rotations + 1 < INDEX_LIMIT
    requires d.active.Some? && d.active.value != []
    requires s == Segment(MaxIndex(d.rotated) + 1, d.active.value)
    ensures Sorted(d.rotated + [s], rotations + 1)
    ensures RotateStep(cfg, d) == Dir((d.rotated + [s])[Surplus(cfg, |d.rotated|)..], None, d.corrupt)
  {
    hide MaxIndex, Prune, Put, Visible, RotateStep;
    AllVisible(d.rotated, rotations);
    SortedSnoc(d.rotated, rotations, s);
    PruneCount(d.rotated + [s], cfg.backupCount, rotations + 1);
    RotateIs(cfg, d, s, d.rotated + [s]);
  }

  lemma RotateIs(cfg: Config, d: Dir, s: Segment, r: seq<Segment>)
    requires d.active.Some? && d.active.value != []
    requires s == Segment(MaxIndex(Visible(d.rotated)) + 1, d.active.value)
    requires r == Put(d.rotated, s)
    ensures RotateStep(cfg, d) == Dir(Prune(r, cfg.backupCount), None, d.corrupt)
  {
  }

  /** Rotation changes no byte of the listing, except that pruning drops the head of it. */
  lemma RotateListing(cfg: Config, d: Dir, rotations: nat)
    requires Sorted(d.rotated, rotations) && rotations + 1 < INDEX_LIMIT
    requires d.active.Some? && d.active.value != []
    ensures Sorted(RotateStep(cfg, d).rotated, rotations + 1)
    ensures |RotateStep(cfg, d).rotated| == Min(cfg.backupCount, |d.rotated| + 1)
    ensures RotateStep(cfg, d).corrupt == d.corrupt
    ensures |Listed(d)| == |d.rotated| + 1
    ensures Listed(RotateStep(cfg, d)) == Listed(d)[Surplus(cfg, |d.rotated|)..]
  {
    hide MaxIndex, Prune, Put, Visible, RotateStep, Listed, Datas;
    var s := Segment(MaxIndex(d.rotated) + 1, d.active.value);
    var k := Surplus(cfg, |d.rotated|);
    RotateShape(cfg, d, rotations, s);
    SortedFrom(d.rotated + [s], rotations + 1, k);
    ListedAll(d, rotations);
    ListedAll(RotateStep(cfg, d), rotations + 1);
    DatasSnoc(d.rotated, s);
    DatasSize(d.rotated);
    DatasFrom(d.rotated + [s], k);
  }

  function Beyond(n: nat, keep: nat): nat {
    if n > keep then n - keep else 0
  }

  /** How many segments a pruning that stopped after k removals still has to remove. */
  lemma StillToPrune(full: seq<Segment>, k: nat, keep: nat, top: nat)
    requires Sorted(full, top) && top < INDEX_LIMIT && k <= |full| && Prune(full[k..], keep) == Prune(full, keep)
    ensures full[k..] == full[|full| - Min(keep + Beyond(|full| - k, keep), |full|)..]
  {
    hide MaxIndex, Prune, Visible, Sorted;
    SortedFrom(full, top, k);
    PruneCount(full[k..], keep, top);
    PruneCount(full, keep, top);
    if |full| - k < keep {
      assert |full| - k == Min(keep, |full|);
    }
  }

  /** A rotation that fails once the rename is done is a rotation with some segments left to prune. */
  lemma StoppedIsCut(cfg: Config, d: Dir, rotations: nat, d': Dir, k: nat) returns (left: nat)
    requires Sorted(d.rotated, rotations) && rotations + 1 < INDEX_LIMIT
    requires StoppedRotation(cfg, d, d', Some(k))
    ensures d' == CutRotation(cfg, d, left)
  {
    hide *;
    var s := Segment(MaxIndex(d.rotated) + 1, ActiveBytes(d));
    var full := d.rotated + [s];
    StoppedParts(cfg, d, d', k);
    AllVisible(d.rotated, rotations);
    SortedSnoc(d.rotated, rotations, s);
    RotateIs(cfg, d, s, full);
    StillToPrune(full, k, cfg.backupCount, rotations + 1);
    left := Beyond(|full| - k, cfg.backupCount);
    CutAt(cfg, d, rotations, s, left);
  }

  lemma StoppedParts(cfg: Config, d: Dir, d': Dir, k: nat)
    requires StoppedRotation(cfg, d, d', Some(k))
    ensures d.active.Some? && d.active.value == ActiveBytes(d) != []
    ensures var full := Put(d.rotated, Segment(MaxIndex(Visible(d.rotated)) + 1, ActiveBytes(d)));
      && k <= |full| && d' == Dir(full[k..], None, d.corrupt)
      && Prune(full[k..], cfg.backupCount) == RotateStep(cfg, d).rotated
  {
    hide Prune, Put, MaxIndex, Visible, RotateStep;
  }

  lemma CutAt(cfg: Config, d: Dir, rotations: nat, s: Segment, left: nat)
    requires Sorted(d.rotated, rotations) && rotations + 1 < INDEX_LIMIT
    requires d.active.Some? && d.active.value != []
    requires s == Segment(MaxIndex(d.rotated) + 1, d.active.value)
    ensures var full := d.rotated + [s];
      CutRotation(cfg, d, left) == Dir(full[|full| - Min(cfg.backupCount + left, |full|)..], None, d.corrupt)
  {
    hide RotateStep, Sorted, MaxIndex;
    RotateShape(Keeping(cfg, left), d, rotations, s);
  }

  lemma DatasSize(r: seq<Segment>)
    ensures |Datas(r)| == |r|
  {
  }

  lemma DropHead(env: Env, datas: seq<Bytes>)
    requires datas != []
    ensures LogOf(env, datas) == Decode(env, datas[0]) + LogOf(env, datas[1..])
  {
    assert datas == [datas[0]] + datas[1..];
    LogOfConcat(env, [datas[0]], datas[1..]);
    LogOfOne(env, datas[0]);
  }

  lemma SuffixOfSuffix<T>(a: seq<T>, b: seq<T>, c: seq<T>)
    requires IsSuffix(b, c) && |a| <= |b| && a == b[|b| - |a|..]
    ensures IsSuffix(a, c)
  {
    assert c[|c| - |a|..] == c[|c| - |b|..][|b| - |a|..];
  }

  lemma LastListed(d: Dir)
    requires d.active.Some?
    ensures Listed(d) != [] && Listed(d)[|Listed(d)| - 1] == d.active.value
  {
  }

  lemma ConcatSuffix<T>(a: seq<T>, b: seq<T>, c: seq<T>)
    requires IsSuffix(a + b, c)
    ensures IsSuffix(b, c)
  {
    assert (a + b)[|a|..] == b;
    SuffixOfSuffix(b, a + b, c);
  }

  lemma LogNonEmpty(env: Env, datas: seq<Bytes>, last: Bytes)
    requires datas != [] && datas[|datas| - 1] == last
    requires Canonical(env, last) && last != []
    ensures LogOf(env, datas) != []
  {
  }

  lemma AllDrop(env: Env, bound: int, datas: seq<Bytes>)
    requires AllCanonical(env, datas) && datas != []
    requires forall i | 0 <= i < |datas| :: |datas[i]| <= bound
    ensures var tail := datas[1..]; AllCanonical(env, tail) && forall i | 0 <= i < |tail| :: |tail[i]| <= bound
  {
    var tail := datas[1..];
    forall i | 0 <= i < |tail| ensures Canonical(env, tail[i]) && |tail[i]| <= bound {
      assert tail[i] == datas[i + 1];
    }
  }

  /** Dropping the oldest of several segments. */
  lemma DropKeeps(env: Env, bound: int, datas: seq<Bytes>, hist: seq<Record>)
    requires DatasOk(env, bound, datas, hist)
    requires |datas| >= 2 && datas[|datas| - 1] != []
    ensures DatasOk(env, bound, datas[1..], hist)
  {
    hide LogOf, Decode, Canonical;
    AllDrop(env, bound, datas);
    DropHead(env, datas);
    ConcatSuffix(Decode(env, datas[0]), LogOf(env, datas[1..]), hist);
    assert Canonical(env, datas[|datas| - 1]);
    LogNonEmpty(env, datas[1..], datas[|datas| - 1]);
  }

  /** Dropping any number of the oldest, but not the last. */
  lemma {:induction false} DropManyKeep(env: Env, bound: int, datas: seq<Bytes>, hist: seq<Record>, k: nat)
    requires DatasOk(env, bound, datas, hist)
    requires k < |datas| && datas[|datas| - 1] != []
    ensures DatasOk(env, bound, datas[k..], hist)
    decreases k
  {
    hide DatasOk;
    if k == 0 {
      assert datas[0..] == datas;
    } else {
      DropKeeps(env, bound, datas, hist);
      DropManyKeep(env, bound, datas[1..], hist, k - 1);
      assert datas[1..][k - 1..] == datas[k..];
    }
  }

  /** A rotation, finished or stopped with `left` segments still to prune. */
  lemma RotateKeeps(env: Env, cfg: Config, d: Dir, hist: seq<Record>, rotations: nat, left: nat)
    requires DirOk(env, cfg, d, hist, rotations) && cfg.backupCount >= 1
    requires ActiveBytes(d) != [] ==> rotations + 1 < INDEX_LIMIT
    ensures var v := CutRotation(cfg, d, left);
      && DirOk(env, cfg, v, hist, if ActiveBytes(d) != [] then rotations + 1 else rotations)
      && (if ActiveBytes(d) != [] then |v.rotated| == Min(cfg.backupCount + left, |d.rotated| + 1) else v == d)
  {
    hide DatasOk, Listed, Sorted;
    if ActiveBytes(d) != [] {
      RotateListing(Keeping(cfg, left), d, rotations);
      LastListed(d);
      DropManyKeep(env, SegmentBound(cfg), Listed(d), hist, Surplus(Keeping(cfg, left), |d.rotated|));
    }
  }

  /** The listing with its last element, the active segment, made explicit. */
  lemma ActiveLog(env: Env, d: Dir, active: Bytes)
    requires Sound(env)
    requires AllCanonical(env, Listed(d))
    ensures var head := Datas(Visible(d.rotated));
      && Listed(d.(active := Some(active))) == head + [active]
      && LogOf(env, head + [active]) == LogOf(env, head) + Decode(env, active)
      && LogOf(env, Listed(d)) == LogOf(env, head) + Decode(env, ActiveBytes(d))
      && Canonical(env, ActiveBytes(d))
      && AllCanonical(env, head)
  {
    var head := Datas(Visible(d.rotated));
    assert (head + [active])[..|head|] == head;
    assert forall i | 0 <= i < |head| :: Listed(d)[i] == head[i];
    if d.active.Some? {
      LastListed(d);
      assert Listed(d)[..|head|] == head;
    } else {
      assert Listed(d) == head;
      DecodeEncode(env, []);
      assert Encode(env, []) == [];
    }
  }

  lemma ListedBound(d: Dir, bound: int, active: Bytes)
    requires forall i | 0 <= i < |Listed(d)| :: |Listed(d)[i]| <= bound
    requires |active| <= bound
    ensures var d' := d.(active := Some(active)); forall i | 0 <= i < |Listed(d')| :: |Listed(d')[i]| <= bound
  {
    var d' := d.(active := Some(active));
    var head := Datas(Visible(d.rotated));
    forall i | 0 <= i < |Listed(d')| ensures |Listed(d')[i]| <= bound {
      if i < |head| {
        assert Listed(d)[i] == head[i];
      }
    }
  }

  /** Appending one whole line to the active segment. */
  lemma AppendKeeps(env: Env, cfg: Config, d: Dir, hist: seq<Record>, rotations: nat, e: Record)
    requires Sound(env) && DirOk(env, cfg, d, hist, rotations)
    requires |Line(env.dumps(e))| <= cfg.maxRecordBytes
    requires ActiveBytes(d) != [] ==> |ActiveBytes(d)| + |Line(env.dumps(e))| <= cfg.maxBytes
    ensures var line := Line(env.dumps(e));
      DirOk(env, cfg, AppendCut(d, line, |line|), hist + [e], rotations)
  {
    var line := Line(env.dumps(e));
    var active := ActiveBytes(d) + line;
    assert AppendCut(d, line, |line|) == d.(active := Some(active)) by {
      assert line[..|line|] == line;
    }
    AppendDatas(env, SegmentBound(cfg), d, hist, e);
  }

  lemma AppendDatas(env: Env, bound: int, d: Dir, hist: seq<Record>, e: Record)
    requires Sound(env) && DatasOk(env, bound, Listed(d), hist)
    requires |ActiveBytes(d) + Line(env.dumps(e))| <= bound
    ensures DatasOk(env, bound, Listed(d.(active := Some(ActiveBytes(d) + Line(env.dumps(e))))), hist + [e])
  {
    var active := ActiveBytes(d) + Line(env.dumps(e));
    ActiveCanonical(env, d, e);
    ListedBound(d, bound, active);
    AppendLog(env, d, active, e);
    SuffixGrows(LogOf(env, Listed(d)), hist, e);
  }

  lemma ActiveCanonical(env: Env, d: Dir, e: Record)
    requires Sound(env) && AllCanonical(env, Listed(d))
    ensures var active := ActiveBytes(d) + Line(env.dumps(e));
      Canonical(env, active) && Decode(env, active) == Decode(env, ActiveBytes(d)) + [e]
  {
    ActiveLog(env, d, ActiveBytes(d));
    CanonicalSnoc(env, ActiveBytes(d), e);
  }

  lemma AppendLog(env: Env, d: Dir, active: Bytes, e: Record)
    requires Sound(env) && AllCanonical(env, Listed(d))
    requires Canonical(env, active) && Decode(env, active) == Decode(env, ActiveBytes(d)) + [e]
    ensures var d' := d.(active := Some(active));
      AllCanonical(env, Listed(d')) && LogOf(env, Listed(d')) == LogOf(env, Listed(d)) + [e]
  {
    ActiveLog(env, d, active);
    Associate(LogOf(env, Datas(Visible(d.rotated))), Decode(env, ActiveBytes(d)), [e]);
  }

  lemma SuffixGrows<T>(a: seq<T>, b: seq<T>, e: T)
    requires IsSuffix(a, b)
    ensures IsSuffix(a + [e], b + [e])
  {
    assert (b + [e])[|b| - |a|..] == b[|b| - |a|..] + [e];
  }

  lemma PreparedKeeps(env: Env, cfg: Config, d: Dir, hist: seq<Record>, rotations: nat, line: Bytes)
    requires DirOk(env, cfg, d, hist, rotations) && cfg.backupCount >= 1
    requires rotations + Turns(cfg, d, line) < INDEX_LIMIT
    ensures DirOk(env, cfg, Prepared(cfg, d, line), hist, rotations + Turns(cfg, d, line))
    ensures ActiveBytes(Prepared(cfg, d, line)) != [] ==>
      |ActiveBytes(Prepared(cfg, d, line))| + |line| <= cfg.maxBytes
    ensures Prepared(cfg, d, line).corrupt == d.corrupt
    ensures |Prepared(cfg, d, line).rotated| <= if Turns(cfg, d, line) == 1 then cfg.backupCount else |d.rotated|
  {
    hide DirOk, RotateStep;
    RotateInFull(cfg, d);
    if Turns(cfg, d, line) == 1 {
      RotateKeeps(env, cfg, d, hist, rotations, 0);
    }
  }

  lemma RotateInFull(cfg: Config, d: Dir)
    ensures CutRotation(cfg, d, 0) == RotateStep(cfg, d)
    ensures RotateStep(cfg, d).corrupt == d.corrupt && (ActiveBytes(d) != [] ==> RotateStep(cfg, d).active == None)
    ensures ActiveBytes(d) == [] ==> RotateStep(cfg, d) == d
  {
  }

  /** How many rotations an append of this line performs. */
  function Turns(cfg: Config, d: Dir, line: Bytes): nat {
    var size := |ActiveBytes(d)|;
    if size > 0 && size + |line| > cfg.maxBytes then 1 else 0
  }

  // ------------------------------------------------------------ crash and repair

  lemma {:induction false} ValidLengthIs(a: Bytes, frag: Bytes)
    requires Terminated(a) && Clean(frag)
    ensures ValidLength(a + frag) == |a|
    decreases |frag|
  {
    if frag == [] {
      assert a + frag == a;
    } else {
      assert (a + frag)[..|a + frag| - 1] == a + frag[..|frag| - 1];
      ValidLengthIs(a, frag[..|frag| - 1]);
    }
  }

  /**
   Crash-atomic append. Cut the write loop of an append at any byte and reopen with
   repair: the directory is the one before the append or the one after it, and
   what the repair set aside is a prefix of the torn fragment (the whole fragment
   when its single write was complete).
   */
  lemma CrashAtomic(env: Env, d: Dir, e: Record, done: nat, saved: nat)
    requires Sound(env) && Terminated(ActiveBytes(d))
    requires done <= |Line(env.dumps(e))|
    ensures Repaired(AppendCut(d, Line(env.dumps(e)), done), saved) ==
            AfterCrash(d, Line(env.dumps(e)), done, saved)
    ensures var fragment := Line(env.dumps(e))[..done];
      done < |Line(env.dumps(e))| && 0 < done <= saved ==>
        AfterCrash(d, Line(env.dumps(e)), done, saved).corrupt == d.corrupt + [TornFragment(fragment)]
  {
    var l := env.dumps(e);
    if done == |Line(l)| {
      assert Line(l)[..done] == Line(l);
    } else if done == 0 {
      assert ActiveBytes(d) + Line(l)[..0] == ActiveBytes(d);
    } else {
      RepairTorn(d, l, done, saved);
      assert saved >= done ==> Line(l)[..done][..Min(saved, done)] == Line(l)[..done];
    }
  }

  lemma RepairTorn(d: Dir, l: Bytes, done: nat, saved: nat)
    requires Terminated(ActiveBytes(d)) && Clean(l) && 0 < done <= |l|
    ensures Repaired(AppendCut(d, Line(l), done), saved) == AfterCrash(d, Line(l), done, saved)
  {
    hide ValidLength;
    TornTail(ActiveBytes(d), l, done);
  }

  /** The only two directories a crash can leave, up to the artifact. */
  function AfterCrash(d: Dir, line: Bytes, done: nat, saved: nat): Dir
    requires done <= |line|
  {
    if done == |line| then d.(active := Some(ActiveBytes(d) + line))
    else
      d.(active := Some(ActiveBytes(d)),
         corrupt := if done == 0 then d.corrupt
                    else d.corrupt + [TornFragment(line[..done][..Min(saved, done)])])
  }

  lemma TornTail(a: Bytes, l: Bytes, done: nat)
    requires Terminated(a) && Clean(l) && 0 < done <= |l|
    ensures var data := a + Line(l)[..done];
      && !Terminated(data) && ValidLength(data) == |a|
      && data[..|a|] == a && data[|a|..] == Line(l)[..done]
  {
    var frag := Line(l)[..done];
    assert forall i | 0 <= i < done :: frag[i] == l[i];
    ValidLengthIs(a, frag);
    assert (a + frag)[|a + frag| - 1] == frag[done - 1];
  }

  lemma EmptyDecodes(env: Env)
    requires Sound(env)
    ensures Canonical(env, []) && Decode(env, []) == []
  {
    DecodeEncode(env, []);
    assert Encode(env, []) == [];
  }

  lemma EmptyDataKeeps(env: Env, cap: nat, datas: seq<Bytes>, hist: seq<Record>)
    requires Sound(env) && DatasOk(env, cap, datas, hist)
    ensures DatasOk(env, cap, datas + [[]], hist) && LogOf(env, datas + [[]]) == LogOf(env, datas)
  {
    hide LogOf, Decode, Sound, Encode, Canonical;
    EmptyDecodes(env);
    LogOfConcat(env, datas, [[]]);
    LogOfOne(env, []);
  }

  /** An empty active segment is as good as none. */
  lemma EmptyActiveKeeps(env: Env, cfg: Config, d: Dir, hist: seq<Record>, rotations: nat, corrupt: seq<Artifact>)
    requires Sound(env) && DirOk(env, cfg, d, hist, rotations)
    ensures var d' := d.(active := Some(ActiveBytes(d)), corrupt := corrupt);
      DirOk(env, cfg, d', hist, rotations) && LogOf(env, Listed(d')) == LogOf(env, Listed(d))
  {
    hide LogOf, DatasOk, Sound, Sorted;
    var d' := d.(active := Some(ActiveBytes(d)), corrupt := corrupt);
    if d.active.None? {
      assert Listed(d') == Listed(d) + [[]];
      EmptyDataKeeps(env, SegmentBound(cfg), Listed(d), hist);
    } else {
      assert Listed(d') == Listed(d);
    }
  }

  // ------------------------------------------------------------ the machine

  /**
   Instances are numbered. A crash inside the write loop and the reopening that
   repairs it are one step. A failed append that wrote nothing, or the whole line
   before the sync failed, leaves the instance as it is: it goes on without reopening.
   A rotation that fails or crashes before its pruning is done leaves `left` segments
   too many; any instance may act on that directory next, reopened or not.
   */
  datatype Step =
    | DoRecord(who: nat, f: Fields)
    | DoRotate(who: nat)
    | DoRotateCut(who: nat, left: nat)
    | DoOpen(who: nat, saved: nat)
    | DoCrash(who: nat, f: Fields, cut: nat, saved: nat)
    | DoFail(who: nat, f: Fields, whole: bool)
    | DoFailInRotation(who: nat, f: Fields, renamed: Option<nat>)

  /**
   How a planned record() ends. One that fails in its rotation fails at the rename, or
   at an unlink with `renamed` segments left to prune.
   */
  datatype End =
    | Acknowledged
    | CutOff(cut: nat, saved: nat)
    | Failed(whole: bool)
    | FailedInRotation(renamed: Option<nat>)

  /**
   `hist` is every record acknowledged or wholly written so far; `mems` the in-memory
   tails; `unpruned` what the last rotation left to prune.
   */
  datatype World = World(dir: Dir, mems: map<nat, Mem>, hist: seq<Record>, rotations: nat, unpruned: nat)

  function Open(env: Env, w: World, who: nat, d: Dir, hist: seq<Record>): World {
    var r := ReportOf(env, Listed(d));
    w.(dir := d, mems := if r.valid then w.mems[who := Mem(r.lastHash, r.lastSequence)] else w.mems, hist := hist)
  }

  /** rotate() that leaves `left` segments too many. */
  function RotateIn(cfg: Config, w: World, left: nat): World {
    if ActiveBytes(w.dir) == [] then w
    else w.(dir := CutRotation(cfg, w.dir, left), rotations := w.rotations + 1, unpruned := left)
  }

  /** The rotation of record(), when the line needs one. */
  function PreparedIn(cfg: Config, w: World, line: Bytes): World {
    if Turns(cfg, w.dir, line) == 1 then RotateIn(cfg, w, 0) else w
  }

  /** record(): completed, cut off by a crash, or failed in the rotation or at one of the two ends of the line. */
  function RecordIn(env: Env, cfg: Config, w: World, who: nat, f: Fields, end: End): World
    requires who in w.mems
  {
    match Plan(env, cfg, w.dir, w.mems[who], f)
    case Err(x) => w.(mems := w.mems[who := Refused(env, w.dir, w.mems[who], x)])
    case Ok((tail, e)) =>
      var line := Line(env.dumps(e));
      var v := PreparedIn(cfg, w, line);
      match end
      case Acknowledged =>
        var h := env.sha(env.canon(Unsigned(f, tail)));
        v.(dir := Appended(env, cfg, w.dir, e, |line|), mems := w.mems[who := Mem(h, tail.lastSequence + 1)],
           hist := w.hist + [e])
      case CutOff(cut, saved) =>
        var done := Min(cut, |line|);
        var hist := if done == |line| then w.hist + [e] else w.hist;
        Open(env, v, who, Repaired(Appended(env, cfg, w.dir, e, done), saved), hist)
      case Failed(whole) =>
        v.(dir := Appended(env, cfg, w.dir, e, if whole then |line| else 0), mems := w.mems[who := tail],
           hist := if whole then w.hist + [e] else w.hist)
      case FailedInRotation(left) =>
        var u := if left.Some? && Turns(cfg, w.dir, line) == 1 then RotateIn(cfg, w, left.value) else w;
        u.(mems := w.mems[who := tail])
  }

  function Apply(env: Env, cfg: Config, w: World, s: Step): World {
    match s
    case DoOpen(who, saved) => Open(env, w, who, Repaired(w.dir, saved), w.hist)
    case DoRotate(who) => if who !in w.mems then w else RotateIn(cfg, w, 0)
    case DoRotateCut(who, left) => if who !in w.mems then w else RotateIn(cfg, w, left)
    case DoRecord(who, f) => if who !in w.mems then w else RecordIn(env, cfg, w, who, f, Acknowledged)
    case DoCrash(who, f, cut, saved) =>
      if who !in w.mems then w else RecordIn(env, cfg, w, who, f, CutOff(cut, saved))
    case DoFail(who, f, whole) => if who !in w.mems then w else RecordIn(env, cfg, w, who, f, Failed(whole))
    case DoFailInRotation(who, f, left) =>
      if who !in w.mems then w else RecordIn(env, cfg, w, who, f, FailedInRotation(left))
  }

  function Run(env: Env, cfg: Config, steps: seq<Step>): World {
    if steps == [] then World(EMPTY, map[], [], 0, 0)
    else Apply(env, cfg, Run(env, cfg, steps[..|steps| - 1]), steps[|steps| - 1])
  }

  ghost predicate Inv(env: Env, cfg: Config, w: World) {
    && HistoryOk(env, cfg, w.hist) && DirOk(env, cfg, w.dir, w.hist, w.rotations)
    && |w.dir.rotated| <= cfg.backupCount + w.unpruned
  }

  /** The last record of a listing that holds the end of the history is the last of the history. */
  lemma LastLogged(env: Env, cfg: Config, bound: int, datas: seq<Bytes>, hist: seq<Record>)
    requires HistoryOk(env, cfg, hist) && DatasOk(env, bound, datas, hist) && hist != []
    ensures var log, e := LogOf(env, datas), hist[|hist| - 1];
      && log != [] && log[|log| - 1] == e && WellFormed(e) && SeqOf(e) == Num(|hist|)
      && |Line(env.dumps(e))| <= cfg.maxRecordBytes
  {
    hide LogOf, AllCanonical;
    var n := |hist| - 1;
    assert RecordOk(env, hist, n) && Numbered(env, cfg, hist[n], n);
  }

  lemma NothingLogged(env: Env, bound: int, datas: seq<Bytes>)
    requires DatasOk(env, bound, datas, [])
    ensures LogOf(env, datas) == [] && AllCanonical(env, datas)
  {
    hide LogOf, AllCanonical;
  }

  lemma AllCanonicalIn(env: Env, bound: int, datas: seq<Bytes>, hist: seq<Record>)
    requires DatasOk(env, bound, datas, hist)
    ensures AllCanonical(env, datas)
  {
    hide LogOf, AllCanonical;
  }

  lemma TailIsLast(env: Env, cfg: Config, bound: int, datas: seq<Bytes>, hist: seq<Record>, memSequence: int)
    requires Sound(env) && HistoryOk(env, cfg, hist) && DatasOk(env, bound, datas, hist)
    requires hist != [] ==> |Line(env.dumps(hist[|hist| - 1]))| <= WINDOW
    ensures TailFrom(env, datas, memSequence) == Ok(TailOf(hist))
    ensures hist != [] ==> WellFormed(hist[|hist| - 1])
  {
    hide LogOf, TailFrom, Sound, Canonical, HistoryOk, DatasOk, Line, AllCanonical;
    AllCanonicalIn(env, bound, datas, hist);
    if hist != [] {
      LastLogged(env, cfg, bound, datas, hist);
    } else {
      NothingLogged(env, bound, datas);
    }
    TailIsTrue(env, datas, memSequence);
  }

  /** A listing whose last record can be read back is continued from the true end of its history. */
  lemma PlanFrom(env: Env, cfg: Config, bound: int, d: Dir, hist: seq<Record>, m: Mem, f: Fields)
    requires Sound(env) && HistoryOk(env, cfg, hist) && DatasOk(env, bound, Listed(d), hist)
    requires hist != [] ==> |Line(env.dumps(hist[|hist| - 1]))| <= WINDOW
    ensures hist != [] ==> WellFormed(hist[|hist| - 1])
    ensures var e := NextEntry(env, hist, f);
      Plan(env, cfg, d, m, f) ==
      if |Line(env.dumps(e))| > cfg.maxRecordBytes then Err(RecordTooLarge) else Ok((TailOf(hist), e))
  {
    hide TailFrom, TailOf, BuildEntry, Sound, HistoryOk, DatasOk, Listed, Line;
    TailIsLast(env, cfg, bound, Listed(d), hist, m.lastSequence);
  }

  /** The writer always plans from the true end of the history, whatever it remembers. */
  lemma PlanFollows(env: Env, cfg: Config, w: World, m: Mem, f: Fields)
    requires Sound(env) && Inv(env, cfg, w) && cfg.maxRecordBytes <= WINDOW
    ensures w.hist != [] ==> WellFormed(w.hist[|w.hist| - 1])
    ensures var e := NextEntry(env, w.hist, f);
      Plan(env, cfg, w.dir, m, f) ==
      if |Line(env.dumps(e))| > cfg.maxRecordBytes then Err(RecordTooLarge) else Ok((TailOf(w.hist), e))
  {
    hide HistoryOk, DatasOk, Sound, Plan, NextEntry;
    if w.hist != [] {
      LastLogged(env, cfg, SegmentBound(cfg), Listed(w.dir), w.hist);
    }
    PlanFrom(env, cfg, SegmentBound(cfg), w.dir, w.hist, m, f);
  }

  /** With records of any size: a plan that is made at all follows the true end of the history. */
  lemma PlanSound(env: Env, cfg: Config, w: World, m: Mem, f: Fields)
    requires Sound(env) && Inv(env, cfg, w) && TailDecides(env, cfg)
    ensures w.hist != [] ==> WellFormed(w.hist[|w.hist| - 1])
    ensures var plan := Plan(env, cfg, w.dir, m, f);
      plan.Ok? ==> plan == Ok((TailOf(w.hist), NextEntry(env, w.hist, f))) && Fits(env, cfg, plan.value.1)
  {
    hide HistoryOk, DatasOk, Sound, SuffixFree, Plan, NextEntry, LogOf;
    if w.hist != [] {
      LastLogged(env, cfg, SegmentBound(cfg), Listed(w.dir), w.hist);
    }
    if w.hist != [] && |Line(env.dumps(w.hist[|w.hist| - 1]))| > WINDOW {
      AllCanonicalIn(env, SegmentBound(cfg), Listed(w.dir), w.hist);
      LongTail(env, Listed(w.dir), m.lastSequence);
      PlanFails(env, cfg, w.dir, m, f);
    } else {
      PlanFrom(env, cfg, SegmentBound(cfg), w.dir, w.hist, m, f);
    }
  }

  predicate Fits(env: Env, cfg: Config, e: Record) {
    |Line(env.dumps(e))| <= cfg.maxRecordBytes
  }

  lemma PlanFails(env: Env, cfg: Config, d: Dir, m: Mem, f: Fields)
    requires TailFrom(env, Listed(d), m.lastSequence) == Err(InvalidTail)
    ensures Plan(env, cfg, d, m, f) == Err(InvalidTail)
  {
    hide TailFrom, Listed;
  }

  lemma RecordKeeps(env: Env, cfg: Config, w: World, who: nat, f: Fields, end: End)
    requires Sound(env) && Inv(env, cfg, w)
    requires cfg.backupCount >= 1 && TailDecides(env, cfg)
    requires who in w.mems && RecordIn(env, cfg, w, who, f, end).rotations < INDEX_LIMIT
    ensures Inv(env, cfg, RecordIn(env, cfg, w, who, f, end))
  {
    hide Plan, DirOk, HistoryOk, Sound, NextEntry, Appended, Repaired, Refused, TailDecides, CutRotation, Turns;
    PlanSound(env, cfg, w, w.mems[who], f);
    if Plan(env, cfg, w.dir, w.mems[who], f).Ok? {
      var e := NextEntry(env, w.hist, f);
      var line := Line(env.dumps(e));
      HistoryGrows(env, cfg, w.hist, f);
      NeedsActive(cfg, w.dir, line);
      match end {
        case Acknowledged => AppendedKeeps(env, cfg, w.dir, w.hist, w.rotations, e, |line|, 0);
        case CutOff(cut, saved) =>
          AppendedKeeps(env, cfg, w.dir, w.hist, w.rotations, e, Min(cut, |line|), saved);
        case Failed(whole) =>
          AppendedKeeps(env, cfg, w.dir, w.hist, w.rotations, e, if whole then |line| else 0, 0);
        case FailedInRotation(left) =>
          if left.Some? && Turns(cfg, w.dir, line) == 1 {
            RotateKeeps(env, cfg, w.dir, w.hist, w.rotations, left.value);
          }
      }
    }
  }

  lemma NeedsActive(cfg: Config, d: Dir, line: Bytes)
    ensures Turns(cfg, d, line) <= 1 && (Turns(cfg, d, line) == 1 ==> ActiveBytes(d) != [])
  {
  }

  lemma AppendedKeeps(env: Env, cfg: Config, d: Dir, hist: seq<Record>, rotations: nat, e: Record,
                      done: nat, saved: nat)
    requires Sound(env) && DirOk(env, cfg, d, hist, rotations) && cfg.backupCount >= 1
    requires done <= |Line(env.dumps(e))| <= cfg.maxRecordBytes
    requires rotations + Turns(cfg, d, Line(env.dumps(e))) < INDEX_LIMIT
    ensures var line := Line(env.dumps(e));
      var after := Repaired(Appended(env, cfg, d, e, done), saved);
      && DirOk(env, cfg, after, if done == |line| then hist + [e] else hist, rotations + Turns(cfg, d, line))
      && (done == 0 || done == |line| ==> after == Appended(env, cfg, d, e, done))
      && |after.rotated| <= (if Turns(cfg, d, line) == 1 then cfg.backupCount else |d.rotated|)
  {
    hide DirOk, Sound, Prepared, Turns;
    var line := Line(env.dumps(e));
    PreparedKeeps(env, cfg, d, hist, rotations, line);
    CutKeeps(env, cfg, Prepared(cfg, d, line), hist, rotations + Turns(cfg, d, line), e, done, saved);
  }

  /** A cut append followed by repair keeps the directory invariant, for the old or the grown history. */
  lemma CutKeeps(env: Env, cfg: Config, d: Dir, hist: seq<Record>, rotations: nat, e: Record, done: nat, saved: nat)
    requires Sound(env) && DirOk(env, cfg, d, hist, rotations)
    requires done <= |Line(env.dumps(e))| <= cfg.maxRecordBytes
    requires ActiveBytes(d) != [] ==> |ActiveBytes(d)| + |Line(env.dumps(e))| <= cfg.maxBytes
    ensures var line := Line(env.dumps(e));
      var after := Repaired(AppendCut(d, line, done), saved);
      && DirOk(env, cfg, after, if done == |line| then hist + [e] else hist, rotations)
      && (done == 0 || done == |line| ==> after == AppendCut(d, line, done))
  {
    var line := Line(env.dumps(e));
    ActiveTerminated(env, cfg, d, hist, rotations);
    CrashAtomic(env, d, e, done, saved);
    assert ActiveBytes(d) + line[..0] == ActiveBytes(d);
    if done == |line| {
      assert line[..|line|] == line;
      AppendKeeps(env, cfg, d, hist, rotations, e);
    } else {
      EmptyActiveKeeps(env, cfg, d, hist, rotations, AfterCrash(d, line, done, saved).corrupt);
    }
  }

  lemma ActiveTerminated(env: Env, cfg: Config, d: Dir, hist: seq<Record>, rotations: nat)
    requires DirOk(env, cfg, d, hist, rotations)
    ensures Terminated(ActiveBytes(d))
  {
    if d.active.Some? {
      var n := |Listed(d)| - 1;
      assert Listed(d)[n] == d.active.value && Canonical(env, Listed(d)[n]);
    }
  }

  lemma RotateInKeeps(env: Env, cfg: Config, w: World, left: nat)
    requires Inv(env, cfg, w) && cfg.backupCount >= 1 && RotateIn(cfg, w, left).rotations < INDEX_LIMIT
    ensures Inv(env, cfg, RotateIn(cfg, w, left))
  {
    hide DirOk, HistoryOk, CutRotation;
    RotateKeeps(env, cfg, w.dir, w.hist, w.rotations, left);
  }

  lemma OpenKeeps(env: Env, cfg: Config, w: World, who: nat, saved: nat)
    requires Inv(env, cfg, w)
    ensures Inv(env, cfg, Open(env, w, who, Repaired(w.dir, saved), w.hist))
  {
    hide DatasOk, HistoryOk, ReportOf, Sorted;
    ActiveTerminated(env, cfg, w.dir, w.hist, w.rotations);
  }

  lemma StepKeeps(env: Env, cfg: Config, w: World, s: Step)
    requires Sound(env) && Inv(env, cfg, w)
    requires cfg.backupCount >= 1 && TailDecides(env, cfg)
    requires Apply(env, cfg, w, s).rotations < INDEX_LIMIT
    ensures Inv(env, cfg, Apply(env, cfg, w, s))
  {
    hide Inv, RecordIn, RotateIn, Open, Sound, TailDecides, Repaired;
    match s {
      case DoOpen(who, saved) => OpenKeeps(env, cfg, w, who, saved);
      case DoRotate(who) =>
        if who in w.mems {
          RotateInKeeps(env, cfg, w, 0);
        }
      case DoRotateCut(who, left) =>
        if who in w.mems {
          RotateInKeeps(env, cfg, w, left);
        }
      case DoRecord(who, f) =>
        if who in w.mems {
          RecordKeeps(env, cfg, w, who, f, Acknowledged);
        }
      case DoCrash(who, f, cut, saved) =>
        if who in w.mems {
          RecordKeeps(env, cfg, w, who, f, CutOff(cut, saved));
        }
      case DoFail(who, f, whole) =>
        if who in w.mems {
          RecordKeeps(env, cfg, w, who, f, Failed(whole));
        }
      case DoFailInRotation(who, f, left) =>
        if who in w.mems {
          RecordKeeps(env, cfg, w, who, f, FailedInRotation(left));
        }
    }
  }

  lemma StartsOk(env: Env, cfg: Config)
    ensures Inv(env, cfg, World(EMPTY, map[], [], 0, 0)) && Listed(EMPTY) == [] && Repaired(EMPTY, 0) == EMPTY
  {
    assert Listed(EMPTY) == [];
  }

  /** No step takes a rotation back. */
  lemma RotationsRise(env: Env, cfg: Config, w: World, s: Step)
    ensures Apply(env, cfg, w, s).rotations >= w.rotations
  {
    hide Plan, CutRotation, Appended, Repaired, ReportOf, Turns, Refused;
  }

  lemma {:induction false} RunKeeps(env: Env, cfg: Config, steps: seq<Step>)
    requires Sound(env) && cfg.backupCount >= 1 && TailDecides(env, cfg)
    requires Run(env, cfg, steps).rotations < INDEX_LIMIT
    ensures Inv(env, cfg, Run(env, cfg, steps))
  {
    if steps == [] {
      StartsOk(env, cfg);
    } else {
      hide Inv, Apply, Sound, TailDecides;
      var w := Run(env, cfg, steps[..|steps| - 1]);
      RotationsRise(env, cfg, w, steps[|steps| - 1]);
      RunKeeps(env, cfg, steps[..|steps| - 1]);
      StepKeeps(env, cfg, w, steps[|steps| - 1]);
    }
  }

  /**
   The shared-log theorem: after any run the verifier accepts, what is retained is
   the tail end of everything acknowledged, numbered consecutively, and coverage is
   full exactly when nothing has been pruned. More segments than configured are
   there only while the last rotation's pruning is unfinished.
   */
  lemma SharedLog(env: Env, cfg: Config, steps: seq<Step>)
    requires Sound(env) && cfg.backupCount >= 1 && TailDecides(env, cfg)
    requires Run(env, cfg, steps).rotations < INDEX_LIMIT
    ensures var w := Run(env, cfg, steps);
      && ReportOf(env, Listed(w.dir)).valid
      && ReportTells(env, ReportOf(env, Listed(w.dir)), Logged(env, Listed(w.dir)), w.hist)
      && |w.dir.rotated| <= cfg.backupCount + w.unpruned
      && (forall i | 0 <= i < |Listed(w.dir)| :: |Listed(w.dir)[i]| <= SegmentBound(cfg))
  {
    hide Run, ReportOf, ReportTells, HistoryOk, Sound, TailDecides, LogOf, AllCanonical;
    RunKeeps(env, cfg, steps);
    var w := Run(env, cfg, steps);
    ReportOfInv(env, cfg, w);
  }

  lemma ReportOfInv(env: Env, cfg: Config, w: World)
    requires Sound(env) && Inv(env, cfg, w)
    ensures ReportOf(env, Listed(w.dir)).valid
    ensures ReportTells(env, ReportOf(env, Listed(w.dir)), Logged(env, Listed(w.dir)), w.hist)
  {
    hide HistoryOk, DatasOk, Sound, ReportTells;
    ReportOfDatas(env, cfg, SegmentBound(cfg), Listed(w.dir), w.hist);
  }

  /** The verifier accepts any canonical listing that holds the end of a history, and describes that history. */
  lemma ReportOfDatas(env: Env, cfg: Config, bound: int, datas: seq<Bytes>, hist: seq<Record>)
    requires Sound(env) && HistoryOk(env, cfg, hist) && DatasOk(env, bound, datas, hist)
    ensures ReportOf(env, datas).valid
    ensures ReportTells(env, ReportOf(env, datas), Logged(env, datas), hist)
  {
    var kept := LogOf(env, datas);
    var k := |hist| - |kept|;
    CanonicalTokens(env, datas);
    SuffixAccepted(env, cfg, hist, k);
    ReportMeaning(env, datas);
    DescribesSuffix(env, cfg, hist, k, ReportOf(env, datas));
  }

  /** What a report says about the records kept, relative to the whole history. */
  ghost predicate ReportTells(env: Env, r: Report, kept: seq<Record>, hist: seq<Record>) {
    && IsSuffix(kept, hist)
    && (forall i | 0 <= i < |kept| :: SeqOf(kept[i]) == Num(|hist| - |kept| + i + 1))
    && r.recordCount == |kept|
    && r.lastSequence == |hist|
    && (hist != [] ==> WellFormed(hist[|hist| - 1]) && r.lastHash == HashOf(hist[|hist| - 1]))
    && (r.coverage == FullFromGenesis <==> kept == hist)
    && (r.coverage == RetainedWindow <==> kept != hist)
  }

  /** Where the kept records stop short of genesis, the report says so. */
  lemma FirstLink(env: Env, hist: seq<Record>, k: nat)
    requires Sound(env) && Accepted(env, hist) && 0 < k < |hist|
    ensures WellFormed(hist[k]) && PrevOf(hist[k]) != ZeroHash()
  {
    assert RecordOk(env, hist, k) && RecordOk(env, hist, k - 1);
    assert PrevOf(hist[k]) == env.sha(HashInput(env, Unhashed(hist[k - 1])));
  }

  lemma DescribesSuffix(env: Env, cfg: Config, hist: seq<Record>, k: nat, r: Report)
    requires Sound(env) && HistoryOk(env, cfg, hist) && k <= |hist|
    requires hist != [] ==> k < |hist|
    requires Describes(env, r, hist[k..])
    ensures ReportTells(env, r, hist[k..], hist)
  {
    hide Sound, WellFormed, HashOf, PrevOf, SeqOf, RecordOk, SeqAfter, ZeroHash;
    var kept := hist[k..];
    SeqAfterHistory(env, cfg, hist, k, |kept|);
    forall i | 0 <= i < |kept| ensures SeqOf(kept[i]) == Num(k + i + 1) {
      assert Numbered(env, cfg, hist[k + i], k + i);
    }
    if k > 0 {
      FirstLink(env, hist, k);
    } else if hist != [] {
      assert kept == hist;
    }
  }
}

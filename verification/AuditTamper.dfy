/**
 Tamper evidence. Nothing is assumed of SHA-256: each theorem either gives the
 promised conclusion or hands back the two texts that collide.
 */
module AuditTamper {
  import opened Common
  import opened AuditText
  import opened AuditRecords

  /** The two JSON printers tell records apart, and canonical text opens with a brace. */
  ghost predicate PrintsInjectively(env: Env) {
    && (forall e, f {:trigger env.canon(e), env.canon(f)} :: env.canon(e) == env.canon(f) ==> e == f)
    && (forall e, f {:trigger env.legacy(e), env.legacy(f)} :: env.legacy(e) == env.legacy(f) ==> e == f)
    && (forall e {:trigger env.canon(e)} :: |env.canon(e)| > 0 && env.canon(e)[0] == '{')
  }

  ghost predicate Collision(env: Env, x: string, y: string) {
    x != y && env.sha(x) == env.sha(y)
  }

  predicate IsSuffix<T(==)>(a: seq<T>, b: seq<T>) {
    |a| <= |b| && a == b[|b| - |a|..]
  }

  /** Legacy text opens with a hexadecimal digit, v2 text with a brace. */
  lemma SchemaShows(env: Env, e: Record)
    requires PrintsInjectively(env) && HexField(e, PrevHash)
    ensures HashInput(env, e) != []
    ensures HashInput(env, e)[0] == '{' <==> IsV2(e)
  {
    if !IsV2(e) {
      assert HashInput(env, e)[0] == e[PrevHash].s[0];
    }
  }

  /** A legacy text never equals a v2 text, and within one schema the text fixes the record. */
  lemma HashInputInjective(env: Env, e: Record, f: Record)
    requires PrintsInjectively(env)
    requires HexField(e, PrevHash) && HexField(f, PrevHash)
    requires HashInput(env, e) == HashInput(env, f)
    ensures e == f
  {
    SchemaShows(env, e);
    SchemaShows(env, f);
    if !IsV2(e) {
      assert HashInput(env, e)[64..] == env.legacy(e) && HashInput(env, f)[64..] == env.legacy(f);
    }
  }

  lemma SameHashSameRecord(env: Env, a: Record, b: Record) returns (x: string, y: string)
    requires PrintsInjectively(env)
    requires WellFormed(a) && WellFormed(b) && HashOk(env, a) && HashOk(env, b)
    requires HashOf(a) == HashOf(b)
    ensures a == b || Collision(env, x, y)
  {
    x, y := HashInput(env, Unhashed(a)), HashInput(env, Unhashed(b));
    if x == y {
      HashInputInjective(env, Unhashed(a), Unhashed(b));
      assert a == Unhashed(a)[RecordHash := a[RecordHash]];
      assert b == Unhashed(b)[RecordHash := b[RecordHash]];
    }
  }

  /** The last record of a longer chain points to the last of the chain before it. */
  lemma LinkBack(env: Env, rs: seq<Record>)
    requires Accepted(env, rs) && |rs| > 1
    ensures var n := |rs| - 1;
      && Accepted(env, rs[..n]) && RecordOk(env, rs[..n], n - 1)
      && WellFormed(rs[n]) && WellFormed(rs[n - 1]) && PrevOf(rs[n]) == HashOf(rs[n - 1])
  {
    var n := |rs| - 1;
    AcceptedPrefix(env, rs, n);
    assert RecordOk(env, rs[..n], n - 1) && RecordOk(env, rs, n);
  }

  /** Two chains that end in the same hash agree as far back as the shorter one reaches. */
  lemma {:induction false} ChainsAgree(env: Env, a: seq<Record>, b: seq<Record>) returns (x: string, y: string)
    requires PrintsInjectively(env) && Accepted(env, a) && Accepted(env, b)
    requires a != [] && b != []
    requires RecordOk(env, a, |a| - 1) && RecordOk(env, b, |b| - 1)
    requires HashOf(a[|a| - 1]) == HashOf(b[|b| - 1])
    ensures IsSuffix(a, b) || IsSuffix(b, a) || Collision(env, x, y)
    decreases |a|
  {
    hide Accepted, PrintsInjectively, HashOk, HashInput, WellFormed, HashOf, PrevOf, SeqOf, SeqAfter;
    var m, n := |a| - 1, |b| - 1;
    x, y := SameHashSameRecord(env, a[m], b[n]);
    if !Collision(env, x, y) && m > 0 && n > 0 {
      LinkBack(env, a);
      LinkBack(env, b);
      x, y := ChainsAgree(env, a[..m], b[..n]);
      if !Collision(env, x, y) {
        SuffixSnoc(a, b);
      }
    } else if !Collision(env, x, y) {
      if m == 0 {
        assert a == b[n..];
      } else {
        assert b == a[m..];
      }
    }
  }

  lemma SuffixSnoc<T>(a: seq<T>, b: seq<T>)
    requires a != [] && b != [] && a[|a| - 1] == b[|b| - 1]
    requires IsSuffix(a[..|a| - 1], b[..|b| - 1]) || IsSuffix(b[..|b| - 1], a[..|a| - 1])
    ensures IsSuffix(a, b) || IsSuffix(b, a)
  {
    var a', b' := a[..|a| - 1], b[..|b| - 1];
    if IsSuffix(a', b') {
      assert b[|b| - |a|..] == b'[|b'| - |a'|..] + [b[|b| - 1]];
      assert a == a' + [a[|a| - 1]];
    } else {
      assert a[|a| - |b|..] == a'[|a'| - |b'|..] + [a[|a| - 1]];
      assert b == b' + [b[|b| - 1]];
    }
  }

  /** The records of a directory whose every non-blank line is a JSON object. */
  function Logged(env: Env, datas: seq<Bytes>): seq<Record> {
    var ts := Tokens(env, datas);
    if AllObjects(ts) then RecordsOf(ts) else []
  }

  /** What a valid report says about the records on disk. */
  lemma ReportMeaning(env: Env, datas: seq<Bytes>)
    ensures ReportOf(env, datas).valid <==>
            AllObjects(Tokens(env, datas)) && Accepted(env, Logged(env, datas))
    ensures ReportOf(env, datas).valid ==> Describes(env, ReportOf(env, datas), Logged(env, datas))
  {
    WalkAllFlat(env, datas);
    var ts := Tokens(env, datas);
    WalkAccepts(env, ts);
    if ReportOf(env, datas).valid && ts != [] {
      assert RecordOk(env, RecordsOf(ts), 0) && RecordOk(env, RecordsOf(ts), |ts| - 1);
    }
  }

  ghost predicate Describes(env: Env, r: Report, rs: seq<Record>) {
    && r.recordCount == |rs|
    && Accepted(env, rs)
    && (rs == [] ==> r.firstPrev == ZeroHash() && r.lastHash == ZeroHash())
    && (rs != [] ==> WellFormed(rs[0]) && r.firstPrev == PrevOf(rs[0]))
    && (rs != [] ==> WellFormed(rs[|rs| - 1]) && r.lastHash == HashOf(rs[|rs| - 1]))
    && r.lastSequence == SeqAfter(rs, |rs|)
    && r.coverage == if r.firstPrev == ZeroHash() then FullFromGenesis else RetainedWindow
  }

  /**
   Two directories that verify and report the same last hash hold the same
   records, except that one may retain fewer of the oldest ones.
   */
  lemma TamperEvidence(env: Env, d1: seq<Bytes>, d2: seq<Bytes>) returns (x: string, y: string)
    requires PrintsInjectively(env)
    requires ReportOf(env, d1).valid && ReportOf(env, d2).valid
    requires ReportOf(env, d1).recordCount > 0 && ReportOf(env, d2).recordCount > 0
    requires ReportOf(env, d1).lastHash == ReportOf(env, d2).lastHash
    ensures
      || IsSuffix(Logged(env, d1), Logged(env, d2))
      || IsSuffix(Logged(env, d2), Logged(env, d1))
      || Collision(env, x, y)
    ensures ReportOf(env, d1).recordCount == ReportOf(env, d2).recordCount ==>
      Logged(env, d1) == Logged(env, d2) || Collision(env, x, y)
  {
    ReportMeaning(env, d1);
    ReportMeaning(env, d2);
    x, y := ChainsAgree(env, Logged(env, d1), Logged(env, d2));
  }

  /**
   Two full-coverage directories with the same last hash hold exactly the same
   records, or exhibit a collision or a text that hashes to the genesis value.
   */
  lemma FullCoverageDetermined(env: Env, d1: seq<Bytes>, d2: seq<Bytes>) returns (x: string, y: string)
    requires PrintsInjectively(env)
    requires ReportOf(env, d1).valid && ReportOf(env, d2).valid
    requires ReportOf(env, d1).coverage == FullFromGenesis && ReportOf(env, d2).coverage == FullFromGenesis
    requires ReportOf(env, d1).lastHash == ReportOf(env, d2).lastHash
    ensures Logged(env, d1) == Logged(env, d2) || Collision(env, x, y) || env.sha(x) == ZeroHash()
  {
    ReportMeaning(env, d1);
    ReportMeaning(env, d2);
    x, y := GenesisChainsAgree(env, Logged(env, d1), Logged(env, d2), ReportOf(env, d1), ReportOf(env, d2));
  }

  lemma GenesisChainsAgree(env: Env, a: seq<Record>, b: seq<Record>, ra: Report, rb: Report)
    returns (x: string, y: string)
    requires PrintsInjectively(env)
    requires Describes(env, ra, a) && Describes(env, rb, b)
    requires ra.firstPrev == rb.firstPrev == ZeroHash() && ra.lastHash == rb.lastHash
    ensures a == b || Collision(env, x, y) || env.sha(x) == ZeroHash()
  {
    x, y := "", "";
    if a == [] && b != [] {
      assert RecordOk(env, b, |b| - 1);
      x := HashInput(env, Unhashed(b[|b| - 1]));
    } else if a != [] && b == [] {
      assert RecordOk(env, a, |a| - 1);
      x := HashInput(env, Unhashed(a[|a| - 1]));
    } else if a != [] {
      x, y := ChainsAgree(env, a, b);
      if !Collision(env, x, y) && |a| < |b| {
        x := GenesisInside(env, a, b);
      } else if !Collision(env, x, y) && |b| < |a| {
        x := GenesisInside(env, b, a);
      }
    }
  }

  /** A genesis link in the middle of a chain is a preimage of the genesis value. */
  lemma GenesisInside(env: Env, a: seq<Record>, b: seq<Record>) returns (x: string)
    requires a != [] && Accepted(env, b) && IsSuffix(a, b) && |a| < |b|
    requires WellFormed(a[0]) && PrevOf(a[0]) == ZeroHash()
    ensures env.sha(x) == ZeroHash()
  {
    var k := |b| - |a|;
    assert RecordOk(env, b, k) && RecordOk(env, b, k - 1);
    x := HashInput(env, Unhashed(b[k - 1]));
  }
}

/**
 The bounded PE inspector: every field it unpacks lies inside what it read, its
 read budget cannot run out, and a valid image has disjoint raw ranges.
 */
module Pe {
  import opened Common
  import opened LittleEndian

  const MAX_PE_HEADER_OFFSET := 1048576
  const MAX_OPTIONAL_HEADER_SIZE := 4096
  const MAX_SECTIONS := 96
  const SECTION_HEADER_SIZE := 40
  const MAX_INSPECTION_BYTES := 64 + 4 + 20 + MAX_OPTIONAL_HEADER_SIZE + MAX_SECTIONS * 40

  datatype Code =
    | DosHeaderTruncated | HeaderOutOfBounds | HeaderOffsetLimit | SignatureTruncated | SignatureMissing
    | CoffHeaderTruncated | NoSections | SectionCountLimit | OptionalHeaderTruncated | OptionalHeaderLimit
    | OptionalHeaderUnsupported | DataDirectoriesTruncated | SectionTableTruncated | HeadersSizeInvalid
    | SectionRawRangeInvalid | SectionRawOverlap | CertificateRangeInvalid | CertificateSectionOverlap | ReadLimit

  datatype Stop = Issue(code: Code, unsupported: bool) | ReadError

  datatype Section = Section(virtualAddress: nat, virtualSize: nat, rawOffset: nat, rawSize: nat, characteristics: nat)

  datatype Anomaly = Stopped(code: Code) | WritableExecutable(index: nat)

  datatype Status = NotPe | Incomplete | Unsupported | Error | Complete

  datatype Range = Range(start: nat, end: nat, index: nat)

  /** What the headers say about the layout of the file. */
  datatype Headers = Headers(tableOffset: nat, count: nat, headersSize: nat, certOffset: nat, certSize: nat)

  function SectionAt(row: Bytes): Section
    requires |row| == SECTION_HEADER_SIZE
  {
    Section(U32(row, 12), U32(row, 8), U32(row, 20), U32(row, 16), U32(row, 36))
  }

  predicate Bit(flags: nat, weight: nat)
    requires weight > 0
  {
    flags / weight % 2 == 1
  }

  // ------------------------------------------------------------ disjoint ranges

  predicate Apart(a: Range, b: Range) {
    a.end <= b.start || b.end <= a.start
  }

  predicate AllApart(rs: seq<Range>) {
    forall i, j | 0 <= i < j < |rs| :: Apart(rs[i], rs[j])
  }

  predicate NonEmpty(rs: seq<Range>) {
    forall i | 0 <= i < |rs| :: rs[i].start < rs[i].end
  }

  /** Tuples compare by start, then end, then index. */
  predicate AtMost(a: Range, b: Range) {
    a.start < b.start || (a.start == b.start && (a.end < b.end || (a.end == b.end && a.index <= b.index)))
  }

  predicate InOrder(rs: seq<Range>) {
    forall i, j | 0 <= i < j < |rs| :: AtMost(rs[i], rs[j])
  }

  predicate NeighboursApart(rs: seq<Range>) {
    forall i | 0 < i < |rs| :: rs[i].start >= rs[i - 1].end
  }

  function Insert(rs: seq<Range>, x: Range): seq<Range> {
    if rs == [] || AtMost(x, rs[0]) then [x] + rs else [rs[0]] + Insert(rs[1..], x)
  }

  function Sort(rs: seq<Range>): seq<Range> {
    if rs == [] then [] else Insert(Sort(rs[1..]), rs[0])
  }

  lemma InsertStep(rs: seq<Range>, x: Range)
    requires rs != [] && !AtMost(x, rs[0])
    ensures Insert(rs, x) == [rs[0]] + Insert(rs[1..], x) && AtMost(rs[0], x)
  {
  }

  lemma TailInOrder(rs: seq<Range>)
    requires InOrder(rs) && rs != []
    ensures InOrder(rs[1..]) && forall r | r in rs[1..] :: AtMost(rs[0], r)
  {
    hide AtMost;
  }

  lemma ConsInOrder(a: Range, x: Range, rs: seq<Range>, t: seq<Range>)
    requires InOrder(t) && AtMost(a, x) && (forall r | r in t :: r == x || r in rs)
    requires forall r | r in rs :: AtMost(a, r)
    ensures InOrder([a] + t)
  {
    hide AtMost;
    assert forall k | 0 <= k < |t| :: t[k] in t;
  }

  lemma FrontInOrder(rs: seq<Range>, x: Range)
    requires InOrder(rs) && (rs == [] || AtMost(x, rs[0]))
    ensures InOrder([x] + rs)
  {
    assert forall k | 0 <= k < |rs| :: AtMost(x, rs[k]);
  }

  lemma {:induction false} InsertMeaning(rs: seq<Range>, x: Range)
    requires InOrder(rs)
    ensures InOrder(Insert(rs, x)) && multiset(Insert(rs, x)) == multiset(rs) + multiset{x}
    ensures forall r | r in Insert(rs, x) :: r == x || r in rs
  {
    if rs != [] && !AtMost(x, rs[0]) {
      hide Insert, AtMost;
      InsertStep(rs, x);
      TailInOrder(rs);
      InsertMeaning(rs[1..], x);
      ConsInOrder(rs[0], x, rs[1..], Insert(rs[1..], x));
      assert rs == [rs[0]] + rs[1..];
    } else {
      hide AtMost;
      FrontInOrder(rs, x);
    }
  }

  lemma {:induction false} SortMeaning(rs: seq<Range>)
    ensures InOrder(Sort(rs)) && multiset(Sort(rs)) == multiset(rs)
  {
    if rs != [] {
      SortMeaning(rs[1..]);
      InsertMeaning(Sort(rs[1..]), rs[0]);
      assert rs == [rs[0]] + rs[1..];
    }
  }

  lemma {:induction false} ChainApart(rs: seq<Range>, i: nat, j: nat)
    requires NonEmpty(rs) && NeighboursApart(rs) && i < j < |rs|
    ensures rs[i].end <= rs[j].start
    decreases j - i
  {
    if i < j - 1 {
      ChainApart(rs, i, j - 1);
    }
  }

  /** On a sorted list of non-empty ranges, comparing neighbours is as good as comparing every pair. */
  lemma NeighboursEnough(rs: seq<Range>)
    requires InOrder(rs) && NonEmpty(rs)
    ensures NeighboursApart(rs) <==> AllApart(rs)
  {
    if NeighboursApart(rs) {
      forall i, j | 0 <= i < j < |rs| ensures Apart(rs[i], rs[j]) {
        ChainApart(rs, i, j);
      }
    }
    if AllApart(rs) {
      forall i | 0 < i < |rs| ensures rs[i].start >= rs[i - 1].end {
        assert Apart(rs[i - 1], rs[i]) && AtMost(rs[i - 1], rs[i]);
      }
    }
  }

  predicate Distinct(rs: seq<Range>) {
    forall i, j | 0 <= i < j < |rs| :: rs[i].index != rs[j].index
  }

  lemma Occurs(a: seq<Range>, b: seq<Range>, i: nat)
    requires multiset(a) == multiset(b) && i < |a|
    ensures exists k | 0 <= k < |b| :: b[k] == a[i]
  {
    assert a[i] in multiset(a);
    assert a[i] in multiset(b);
  }

  lemma NotTwice(a: seq<Range>, b: seq<Range>, i: nat, j: nat)
    requires multiset(a) == multiset(b) && i < j < |a| && Distinct(b)
    ensures a[i] != a[j]
  {
    if a[i] == a[j] {
      Occurs(a, b, i);
      var k :| 0 <= k < |b| && b[k] == a[i];
      CountOnce(b, k);
      CountTwice(a, i, j);
    }
  }

  lemma CountOnce(b: seq<Range>, k: nat)
    requires Distinct(b) && k < |b|
    ensures multiset(b)[b[k]] == 1
  {
    assert b == b[..k] + [b[k]] + b[k + 1..];
    assert b[k] !in b[..k] && b[k] !in b[k + 1..];
    assert multiset(b) == multiset(b[..k]) + multiset{b[k]} + multiset(b[k + 1..]);
  }

  lemma CountTwice(a: seq<Range>, i: nat, j: nat)
    requires i < j < |a| && a[i] == a[j]
    ensures multiset(a)[a[i]] >= 2
  {
    assert a == a[..i] + [a[i]] + a[i + 1..];
    assert a[i + 1..][j - i - 1] == a[j];
    assert a[j] in multiset(a[i + 1..]);
    assert multiset(a) == multiset(a[..i]) + multiset{a[i]} + multiset(a[i + 1..]);
  }

  /** Pairwise disjointness does not depend on the order of the list. */
  lemma ApartPermutes(a: seq<Range>, b: seq<Range>)
    requires multiset(a) == multiset(b) && Distinct(b) && AllApart(b)
    ensures AllApart(a)
  {
    forall i, j | 0 <= i < j < |a| ensures Apart(a[i], a[j]) {
      Occurs(a, b, i);
      Occurs(a, b, j);
      var k :| 0 <= k < |b| && b[k] == a[i];
      var m :| 0 <= m < |b| && b[m] == a[j];
      NotTwice(a, b, i, j);
    }
  }

  lemma SortKeeps(rs: seq<Range>)
    requires NonEmpty(rs) && Distinct(rs)
    ensures NonEmpty(Sort(rs)) && Distinct(Sort(rs))
  {
    SortMeaning(rs);
    var s := Sort(rs);
    forall i | 0 <= i < |s| ensures s[i].start < s[i].end {
      Occurs(s, rs, i);
    }
    forall i, j | 0 <= i < j < |s| ensures s[i].index != s[j].index {
      Occurs(s, rs, i);
      Occurs(s, rs, j);
      NotTwice(s, rs, i, j);
    }
  }

  /** Sorting and comparing neighbours decides pairwise disjointness. */
  lemma SortDecides(rs: seq<Range>)
    requires NonEmpty(rs) && Distinct(rs)
    ensures NeighboursApart(Sort(rs)) <==> AllApart(rs)
  {
    SortMeaning(rs);
    SortKeeps(rs);
    NeighboursEnough(Sort(rs));
    if AllApart(rs) {
      ApartPermutes(Sort(rs), rs);
    }
    if AllApart(Sort(rs)) {
      ApartPermutes(rs, Sort(rs));
    }
  }

  // ------------------------------------------------------------ what a valid image satisfies

  predicate RawInside(s: Section, headersSize: nat, fileSize: nat) {
    s.rawSize > 0 ==> headersSize <= s.rawOffset && s.rawOffset + s.rawSize <= fileSize
  }

  predicate SectionsApart(ss: seq<Section>) {
    forall i, j | 0 <= i < j < |ss| && ss[i].rawSize > 0 && ss[j].rawSize > 0 ::
      ss[i].rawOffset + ss[i].rawSize <= ss[j].rawOffset || ss[j].rawOffset + ss[j].rawSize <= ss[i].rawOffset
  }

  /** No certificate, or one inside the file, after the headers and clear of every section. */
  predicate CertificateOk(h: Headers, ss: seq<Section>, fileSize: nat) {
    (h.certOffset == 0 && h.certSize == 0) ||
    (&& h.certOffset > 0 && h.certSize > 0
     && h.headersSize <= h.certOffset && h.certOffset + h.certSize <= fileSize
     && forall i | 0 <= i < |ss| && ss[i].rawSize > 0 ::
       ss[i].rawOffset + ss[i].rawSize <= h.certOffset || h.certOffset + h.certSize <= ss[i].rawOffset)
  }

  predicate WellLaidOut(h: Headers, ss: seq<Section>, fileSize: nat) {
    && |ss| == h.count
    && h.tableOffset + h.count * SECTION_HEADER_SIZE <= h.headersSize <= fileSize
    && (forall i | 0 <= i < |ss| :: RawInside(ss[i], h.headersSize, fileSize))
    && SectionsApart(ss)
    && CertificateOk(h, ss, fileSize)
  }

  /** The non-empty raw ranges, in section order. */
  function RangesOf(ss: seq<Section>): seq<Range> {
    if ss == [] then []
    else
      var n := |ss| - 1;
      var s := ss[n];
      RangesOf(ss[..n]) + if s.rawSize > 0 then [Range(s.rawOffset, s.rawOffset + s.rawSize, n)] else []
  }

  predicate Owns(ss: seq<Section>, r: Range) {
    && r.index < |ss| && ss[r.index].rawSize > 0
    && r.start == ss[r.index].rawOffset && r.end == r.start + ss[r.index].rawSize
  }

  lemma {:induction false} RangesOwn(ss: seq<Section>)
    ensures forall k | 0 <= k < |RangesOf(ss)| :: Owns(ss, RangesOf(ss)[k])
    ensures Distinct(RangesOf(ss))
  {
    if ss != [] {
      var n := |ss| - 1;
      var init := RangesOf(ss[..n]);
      RangesOwn(ss[..n]);
      forall k | 0 <= k < |init| ensures Owns(ss, init[k]) && init[k].index < n {
        assert Owns(ss[..n], init[k]);
      }
    }
  }

  lemma {:induction false} RangesHave(ss: seq<Section>, i: nat)
    requires i < |ss| && ss[i].rawSize > 0
    ensures Range(ss[i].rawOffset, ss[i].rawOffset + ss[i].rawSize, i) in RangesOf(ss)
  {
    if i < |ss| - 1 {
      RangesHave(ss[..|ss| - 1], i);
    }
  }

  lemma RangesMeaning(ss: seq<Section>)
    ensures forall k | 0 <= k < |RangesOf(ss)| :: Owns(ss, RangesOf(ss)[k])
    ensures NonEmpty(RangesOf(ss)) && Distinct(RangesOf(ss))
    ensures forall i | 0 <= i < |ss| && ss[i].rawSize > 0 ::
      Range(ss[i].rawOffset, ss[i].rawOffset + ss[i].rawSize, i) in RangesOf(ss)
  {
    hide RangesOf, Distinct;
    RangesOwn(ss);
    forall k | 0 <= k < |RangesOf(ss)| ensures RangesOf(ss)[k].start < RangesOf(ss)[k].end {
      assert Owns(ss, RangesOf(ss)[k]);
    }
    forall i | 0 <= i < |ss| && ss[i].rawSize > 0
      ensures Range(ss[i].rawOffset, ss[i].rawOffset + ss[i].rawSize, i) in RangesOf(ss)
    {
      RangesHave(ss, i);
    }
  }

  lemma InsideIs(s: Section, headersSize: nat, fileSize: nat)
    ensures RawInside(s, headersSize, fileSize) <==>
      !(s.rawSize > 0 && (s.rawOffset < headersSize || s.rawOffset + s.rawSize > fileSize))
  {
  }

  function RangeOf(s: Section, i: nat): Range {
    Range(s.rawOffset, s.rawOffset + s.rawSize, i)
  }

  lemma ApartInList(rs: seq<Range>, a: Range, b: Range)
    requires AllApart(rs) && a in rs && b in rs && a != b
    ensures Apart(a, b)
  {
    var k :| 0 <= k < |rs| && rs[k] == a;
    var m :| 0 <= m < |rs| && rs[m] == b;
  }

  lemma RangesDecide(ss: seq<Section>)
    ensures AllApart(RangesOf(ss)) <==> SectionsApart(ss)
  {
    hide RangesOf, Distinct, AllApart;
    var rs := RangesOf(ss);
    RangesOwn(ss);
    if AllApart(rs) {
      forall i, j | 0 <= i < j < |ss| && ss[i].rawSize > 0 && ss[j].rawSize > 0
        ensures ss[i].rawOffset + ss[i].rawSize <= ss[j].rawOffset || ss[j].rawOffset + ss[j].rawSize <= ss[i].rawOffset
      {
        RangesHave(ss, i);
        RangesHave(ss, j);
        ApartInList(rs, RangeOf(ss[i], i), RangeOf(ss[j], j));
      }
    }
    if SectionsApart(ss) {
      SectionsApartRanges(ss, rs);
    }
  }

  lemma SectionsApartRanges(ss: seq<Section>, rs: seq<Range>)
    requires SectionsApart(ss) && Distinct(rs) && forall k | 0 <= k < |rs| :: Owns(ss, rs[k])
    ensures AllApart(rs)
  {
    forall k, m | 0 <= k < m < |rs| ensures Apart(rs[k], rs[m]) {
      assert Owns(ss, rs[k]) && Owns(ss, rs[m]) && rs[k].index != rs[m].index;
    }
  }

  /** sort, then compare each range with the one before it. */
  method CheckOverlap(ss: seq<Section>) returns (ok: bool)
    ensures ok <==> SectionsApart(ss)
  {
    hide SectionsApart, AllApart, Distinct, NonEmpty;
    RangesMeaning(ss);
    RangesDecide(ss);
    SortDecides(RangesOf(ss));
    var rs := Sort(RangesOf(ss));
    var i := 1;
    while i < |rs|
      invariant 1 <= i
      invariant forall k | 0 < k < i && k < |rs| :: rs[k].start >= rs[k - 1].end
    {
      if rs[i].start < rs[i - 1].end {
        return false;
      }
      i := i + 1;
    }
    return true;
  }

  method CheckCertificate(h: Headers, ss: seq<Section>, fileSize: nat) returns (stop: Option<Stop>)
    ensures stop.None? <==> CertificateOk(h, ss, fileSize)
    ensures stop.Some? ==>
      stop.value == if CertificateMisplaced(h, fileSize) then Issue(CertificateRangeInvalid, false)
                    else Issue(CertificateSectionOverlap, false)
  {
    if h.certOffset == 0 && h.certSize == 0 {
      return None;
    }
    if h.certOffset == 0 || h.certSize == 0 || h.certOffset < h.headersSize || h.certOffset + h.certSize > fileSize {
      return Some(Issue(CertificateRangeInvalid, false));
    }
    RangesMeaning(ss);
    var rs := RangesOf(ss);
    var i := 0;
    while i < |rs|
      invariant i <= |rs|
      invariant forall k | 0 <= k < i :: rs[k].end <= h.certOffset || h.certOffset + h.certSize <= rs[k].start
    {
      if h.certOffset < rs[i].end && rs[i].start < h.certOffset + h.certSize {
        assert Owns(ss, rs[i]);
        return Some(Issue(CertificateSectionOverlap, false));
      }
      i := i + 1;
    }
    forall k | 0 <= k < |ss| && ss[k].rawSize > 0
      ensures ss[k].rawOffset + ss[k].rawSize <= h.certOffset || h.certOffset + h.certSize <= ss[k].rawOffset
    {
      var m :| 0 <= m < |rs| && rs[m] == Range(ss[k].rawOffset, ss[k].rawOffset + ss[k].rawSize, k);
    }
    return None;
  }

  // ------------------------------------------------------------ the inspector

  function Row(table: Bytes, i: nat): Bytes
    requires (i + 1) * SECTION_HEADER_SIZE <= |table|
  {
    table[i * SECTION_HEADER_SIZE..(i + 1) * SECTION_HEADER_SIZE]
  }

  function SectionsIn(table: Bytes, count: nat): (ss: seq<Section>)
    requires count * SECTION_HEADER_SIZE <= |table|
    ensures |ss| == count
  {
    seq(count, i requires 0 <= i < count => SectionAt(Row(table, i)))
  }

  // ------------------------------------------------------------ what a file says

  /** Reads as the inspector sees them: some bytes at some offset, or a failure. */
  type Disk = (nat, nat) -> Option<Bytes>

  /** The whole of a range, if it lies in the file and a read delivers all of it. */
  function Fetch(fileSize: nat, disk: Disk, offset: nat, size: nat): (r: Option<Bytes>)
    ensures r.Some? ==> |r.value| == size && offset + size <= fileSize
  {
    var got := disk(offset, size);
    if offset + size > fileSize || got.None? || |got.value| < size then None else Some(got.value[..size])
  }

  predicate Mz(b: Bytes) {
    |b| >= 2 && b[0] == 77 && b[1] == 90
  }

  /** The file starts with something else than MZ. */
  predicate Foreign(fileSize: nat, disk: Disk) {
    var start := Fetch(fileSize, disk, 0, Min(64, fileSize));
    start.Some? && !Mz(start.value)
  }

  /** e_lfanew of an acceptable DOS header. */
  function PeOffset(fileSize: nat, disk: Disk): Option<nat> {
    var dos := Fetch(fileSize, disk, 0, 64);
    if dos.None? || !Mz(dos.value) then None
    else if 64 <= U32(dos.value, 60) <= MAX_PE_HEADER_OFFSET && U32(dos.value, 60) + 24 <= fileSize
    then Some(U32(dos.value, 60)) else None
  }

  /** NumberOfSections and SizeOfOptionalHeader of an acceptable COFF header. */
  function CoffFields(fileSize: nat, disk: Disk, at: nat): Option<(nat, nat)> {
    var coff := Fetch(fileSize, disk, at + 4, 20);
    if Fetch(fileSize, disk, at, 4) != Some([80, 69, 0, 0]) || coff.None? then None
    else if 1 <= U16(coff.value, 2) <= MAX_SECTIONS && 2 <= U16(coff.value, 16) <= MAX_OPTIONAL_HEADER_SIZE
    then Some((U16(coff.value, 2), U16(coff.value, 16))) else None
  }

  /** Where the data directories start: PE32+ or PE32. */
  function DirectoryBase(magic: nat): nat {
    if magic == 0x20B then 112 else 96
  }

  predicate OptionalOk(b: Bytes) {
    && |b| >= 2 && (U16(b, 0) == 0x10B || U16(b, 0) == 0x20B) && |b| >= DirectoryBase(U16(b, 0))
    && DirectoryBase(U16(b, 0)) + 8 * U32(b, DirectoryBase(U16(b, 0)) - 4) <= |b|
  }

  /** The certificate directory is the fifth one, if that many are declared. */
  function CertificateOf(b: Bytes): (nat, nat)
    requires OptionalOk(b)
  {
    var base := DirectoryBase(U16(b, 0));
    if U32(b, base - 4) >= 5 then (U32(b, base + 32), U32(b, base + 36)) else (0, 0)
  }

  function OptionalFieldsIn(fileSize: nat, b: Bytes, at: nat, count: nat): Option<Headers> {
    if !OptionalOk(b) then None
    else
      var table := at + 24 + |b|;
      var cert := CertificateOf(b);
      if table + count * SECTION_HEADER_SIZE <= U32(b, 60) <= fileSize
      then Some(Headers(table, count, U32(b, 60), cert.0, cert.1)) else None
  }

  function OptionalFields(fileSize: nat, disk: Disk, at: nat, count: nat, size: nat): Option<Headers> {
    var b := Fetch(fileSize, disk, at + 24, size);
    if b.None? then None else OptionalFieldsIn(fileSize, b.value, at, count)
  }

  /** The headers of a file whose DOS, COFF and optional headers are all acceptable. */
  function HeadersOf(fileSize: nat, disk: Disk): Option<Headers> {
    match PeOffset(fileSize, disk)
    case None => None
    case Some(at) =>
      match CoffFields(fileSize, disk, at)
      case None => None
      case Some((count, size)) => OptionalFields(fileSize, disk, at, count, size)
  }

  /** The section table those headers point at. */
  function TableOf(fileSize: nat, disk: Disk, h: Headers): (r: Option<Bytes>)
    ensures r.Some? ==> |r.value| == h.count * SECTION_HEADER_SIZE
  {
    Fetch(fileSize, disk, h.tableOffset, h.count * SECTION_HEADER_SIZE)
  }

  /** Acceptable headers, a table that can be read, and a layout without overlap. */
  predicate ValidImage(fileSize: nat, disk: Disk) {
    var h := HeadersOf(fileSize, disk);
    && h.Some? && TableOf(fileSize, disk, h.value).Some?
    && WellLaidOut(h.value, SectionsIn(TableOf(fileSize, disk, h.value).value, h.value.count), fileSize)
  }

  // ------------------------------------------------------------ what is wrong with a file

  /** Why a range cannot be read, under the code for that range. */
  function ReadStop(fileSize: nat, disk: Disk, offset: nat, size: nat, code: Code): (r: Option<Stop>)
    ensures r.None? <==> Fetch(fileSize, disk, offset, size).Some?
  {
    if offset + size > fileSize then Some(Issue(code, false))
    else match disk(offset, size)
      case None => Some(ReadError)
      case Some(b) => if |b| < size then Some(Issue(code, false)) else None
  }

  function DosStop(fileSize: nat, disk: Disk): Option<Stop> {
    var start := ReadStop(fileSize, disk, 0, Min(64, fileSize), DosHeaderTruncated);
    if start.Some? then start
    else if Foreign(fileSize, disk) then None
    else if fileSize < 64 then Some(Issue(DosHeaderTruncated, false))
    else
      var at := U32(Fetch(fileSize, disk, 0, 64).value, 60);
      if at < 64 || at + 24 > fileSize then Some(Issue(HeaderOutOfBounds, false))
      else if at > 1048576 then Some(Issue(HeaderOffsetLimit, true))
      else None
  }

  function CoffStop(fileSize: nat, disk: Disk, at: nat): Option<Stop> {
    var signature, coff := ReadStop(fileSize, disk, at, 4, SignatureTruncated),
                           ReadStop(fileSize, disk, at + 4, 20, CoffHeaderTruncated);
    if signature.Some? then signature
    else if Fetch(fileSize, disk, at, 4).value != [80, 69, 0, 0] then Some(Issue(SignatureMissing, false))
    else if coff.Some? then coff
    else
      var head := Fetch(fileSize, disk, at + 4, 20).value;
      var count, size := U16(head, 2), U16(head, 16);
      if count == 0 then Some(Issue(NoSections, false))
      else if count > 96 then Some(Issue(SectionCountLimit, true))
      else if size < 2 then Some(Issue(OptionalHeaderTruncated, false))
      else if size > 4096 then Some(Issue(OptionalHeaderLimit, true))
      else None
  }

  function OptionalStopIn(fileSize: nat, b: Bytes, at: nat, count: nat): Option<Stop> {
    var end := at + 24 + |b| + count * 40;
    if |b| < 2 then Some(Issue(OptionalHeaderTruncated, false))
    else if U16(b, 0) != 0x20B && U16(b, 0) != 0x10B then Some(Issue(OptionalHeaderUnsupported, true))
    else
      var base := if U16(b, 0) == 0x20B then 112 else 96;
      if |b| < base then Some(Issue(OptionalHeaderTruncated, false))
      else if base + 8 * U32(b, base - 4) > |b| then Some(Issue(DataDirectoriesTruncated, false))
      else if end > fileSize then Some(Issue(SectionTableTruncated, false))
      else if U32(b, 60) < end || U32(b, 60) > fileSize then Some(Issue(HeadersSizeInvalid, false))
      else None
  }

  function OptionalStop(fileSize: nat, disk: Disk, at: nat, count: nat, size: nat): Option<Stop> {
    var read := ReadStop(fileSize, disk, at + 24, size, OptionalHeaderTruncated);
    if read.Some? then read else OptionalStopIn(fileSize, Fetch(fileSize, disk, at + 24, size).value, at, count)
  }

  predicate CertificateMisplaced(h: Headers, fileSize: nat) {
    && !(h.certOffset == 0 && h.certSize == 0)
    && (h.certOffset == 0 || h.certSize == 0 || h.certOffset < h.headersSize || h.certOffset + h.certSize > fileSize)
  }

  function LayoutStop(h: Headers, ss: seq<Section>, fileSize: nat): Option<Stop> {
    if exists i | 0 <= i < |ss| :: !RawInside(ss[i], h.headersSize, fileSize) then
      Some(Issue(SectionRawRangeInvalid, false))
    else if !SectionsApart(ss) then Some(Issue(SectionRawOverlap, false))
    else if CertificateMisplaced(h, fileSize) then Some(Issue(CertificateRangeInvalid, false))
    else if !CertificateOk(h, ss, fileSize) then Some(Issue(CertificateSectionOverlap, false))
    else None
  }

  /** What stops the reading of the headers of a file that starts with MZ, if anything does. */
  function HeadersStop(fileSize: nat, disk: Disk): Option<Stop> {
    var dos, at := DosStop(fileSize, disk), PeOffset(fileSize, disk);
    if dos.Some? || at.None? then dos
    else
      var coff, fields := CoffStop(fileSize, disk, at.value), CoffFields(fileSize, disk, at.value);
      if coff.Some? || fields.None? then coff
      else OptionalStop(fileSize, disk, at.value, fields.value.0, fields.value.1)
  }

  /** What stops the inspection of such a file. */
  function FileStop(fileSize: nat, disk: Disk): Option<Stop> {
    var stop, h := HeadersStop(fileSize, disk), HeadersOf(fileSize, disk);
    if stop.Some? || h.None? then stop else TableStop(fileSize, disk, h.value)
  }

  function TableStop(fileSize: nat, disk: Disk, h: Headers): Option<Stop> {
    var table := ReadStop(fileSize, disk, h.tableOffset, h.count * 40, SectionTableTruncated);
    if table.Some? || TableOf(fileSize, disk, h).None? then table
    else LayoutStop(h, SectionsIn(TableOf(fileSize, disk, h).value, h.count), fileSize)
  }

  /** The sections that are both writable and executable. */
  function Flagged(ss: seq<Section>): seq<Anomaly> {
    if ss == [] then []
    else
      var n := |ss| - 1;
      Flagged(ss[..n]) +
      if ss[n].characteristics / 0x8000_0000 % 2 == 1 && ss[n].characteristics / 0x2000_0000 % 2 == 1
      then [WritableExecutable(n)] else []
  }

  lemma LayoutNotBudget(h: Headers, ss: seq<Section>, fileSize: nat)
    ensures var r := LayoutStop(h, ss, fileSize); r.Some? ==> NotBudget(r.value)
  {
  }

  lemma NothingFlagged()
    ensures Flagged([]) == []
  {
  }

  lemma FlaggedSnoc(ss: seq<Section>, i: nat)
    requires i < |ss|
    ensures Flagged(ss[..i + 1]) == Flagged(ss[..i]) +
      if Bit(ss[i].characteristics, 0x8000_0000) && Bit(ss[i].characteristics, 0x2000_0000)
      then [WritableExecutable(i)] else []
  {
    assert ss[..i + 1][..i] == ss[..i];
  }

  lemma CertificatePlaced(h: Headers, ss: seq<Section>, fileSize: nat)
    ensures CertificateOk(h, ss, fileSize) ==> !CertificateMisplaced(h, fileSize)
  {
  }

  /** A stop that is not the read budget running out. */
  predicate NotBudget(s: Stop) {
    s.Issue? ==> s.code != ReadLimit
  }

  class Inspector {
    const fileSize: nat
    /** What a read of some bytes at some offset delivers, if it does not fail. */
    const disk: Disk
    var bytesRead: nat
    var isPe: bool
    var valid: Option<bool>
    var status: Status
    var headers: Headers
    var sections: seq<Section>
    var anomalies: seq<Anomaly>

    constructor (fileSize: nat, disk: Disk)
      ensures this.fileSize == fileSize && this.disk == disk && Blank()
    {
      this.fileSize, this.disk := fileSize, disk;
      bytesRead, isPe, valid, status := 0, false, None, NotPe;
      headers, sections, anomalies := Headers(0, 0, 0, 0, 0), [], [];
    }

    predicate Blank()
      reads this
    {
      bytesRead == 0 && !isPe && valid == None && status == NotPe && sections == [] && anomalies == []
    }

    method Read(offset: nat, size: nat, code: Code) returns (r: Result<Bytes, Stop>)
      requires code != ReadLimit
      modifies this`bytesRead
      ensures old(bytesRead) <= bytesRead <= old(bytesRead) + size
      ensures r.Ok? ==> Fetch(fileSize, disk, offset, size) == Some(r.value)
      ensures old(bytesRead) + size <= MAX_INSPECTION_BYTES && r.Err? ==> Fetch(fileSize, disk, offset, size) == None
      ensures r.Err? ==> r.error == ReadError || r.error == Issue(code, false) || r.error == Issue(ReadLimit, true)
      ensures old(bytesRead) + size <= MAX_INSPECTION_BYTES ==>
        ReadStop(fileSize, disk, offset, size, code) == if r.Err? then Some(r.error) else None
      ensures r == Err(Issue(ReadLimit, true)) <==>
        offset + size <= fileSize && old(bytesRead) + size > MAX_INSPECTION_BYTES
    {
      if offset + size > fileSize {
        return Err(Issue(code, false));
      }
      if bytesRead + size > MAX_INSPECTION_BYTES {
        return Err(Issue(ReadLimit, true));
      }
      var got := disk(offset, size);
      if got.None? {
        return Err(ReadError);
      }
      var data := got.value[..Min(|got.value|, size)];
      bytesRead := bytesRead + |data|;
      if |data| != size {
        return Err(Issue(code, false));
      }
      return Ok(data);
    }

    /** The DOS header: no MZ, or where the PE header is. */
    method ReadDos() returns (r: Result<Option<nat>, Stop>)
      requires Blank()
      modifies this`bytesRead, this`status
      ensures bytesRead <= 64
      ensures r.Err? ==> NotBudget(r.error)
      ensures r == Ok(None) <==> Foreign(fileSize, disk)
      ensures r == Ok(None) ==> status == NotPe
      ensures r.Ok? && r.value.Some? ==> PeOffset(fileSize, disk) == r.value && status == Incomplete
      ensures r.Err? ==> PeOffset(fileSize, disk) == None
      ensures DosStop(fileSize, disk) == if r.Err? then Some(r.error) else None
    {
      var got := Read(0, Min(64, fileSize), DosHeaderTruncated);
      if got.Err? {
        return Err(got.error);
      }
      var dos := got.value;
      if !Mz(dos) {
        return Ok(None);
      }
      status := Incomplete;
      if |dos| < 64 {
        return Err(Issue(DosHeaderTruncated, false));
      }
      var at := U32(dos, 60);
      if at < 64 || at + 24 > fileSize {
        return Err(Issue(HeaderOutOfBounds, false));
      }
      if at > MAX_PE_HEADER_OFFSET {
        return Err(Issue(HeaderOffsetLimit, true));
      }
      return Ok(Some(at));
    }

    /** Signature and COFF header: the number of sections and the size of the optional header. */
    method ReadCoff(at: nat) returns (r: Result<(nat, nat), Stop>)
      requires bytesRead <= 64
      modifies this`bytesRead, this`isPe
      ensures bytesRead <= 88
      ensures r.Err? ==> NotBudget(r.error)
      ensures r.Ok? ==> isPe && CoffFields(fileSize, disk, at) == Some(r.value)
      ensures r.Err? ==> CoffFields(fileSize, disk, at) == None
      ensures CoffStop(fileSize, disk, at) == if r.Err? then Some(r.error) else None
    {
      hide Fetch, ReadStop;
      var signature := Read(at, 4, SignatureTruncated);
      if signature.Err? {
        return Err(signature.error);
      }
      if signature.value != [80, 69, 0, 0] {
        return Err(Issue(SignatureMissing, false));
      }
      isPe := true;
      var coff := Read(at + 4, 20, CoffHeaderTruncated);
      if coff.Err? {
        return Err(coff.error);
      }
      var count, size := U16(coff.value, 2), U16(coff.value, 16);
      if count == 0 {
        return Err(Issue(NoSections, false));
      }
      if count > MAX_SECTIONS {
        return Err(Issue(SectionCountLimit, true));
      }
      if size < 2 {
        return Err(Issue(OptionalHeaderTruncated, false));
      }
      if size > MAX_OPTIONAL_HEADER_SIZE {
        return Err(Issue(OptionalHeaderLimit, true));
      }
      return Ok((count, size));
    }

    /** The optional header: SizeOfHeaders, the certificate directory and where the section table is. */
    method ReadOptional(at: nat, count: nat, size: nat) returns (r: Result<Headers, Stop>)
      requires bytesRead <= 88 && 2 <= size <= MAX_OPTIONAL_HEADER_SIZE
      modifies this`bytesRead
      ensures bytesRead <= 88 + size
      ensures r.Err? ==> NotBudget(r.error)
      ensures r.Ok? ==> OptionalFields(fileSize, disk, at, count, size) == Some(r.value)
      ensures r.Err? ==> OptionalFields(fileSize, disk, at, count, size) == None
      ensures OptionalStop(fileSize, disk, at, count, size) == if r.Err? then Some(r.error) else None
    {
      hide Fetch, ReadStop, OptionalFieldsIn, OptionalStopIn;
      var got := Read(at + 24, size, OptionalHeaderTruncated);
      if got.Err? {
        return Err(got.error);
      }
      r := CheckOptional(got.value, at, count);
    }

    method CheckOptional(optional: Bytes, at: nat, count: nat) returns (r: Result<Headers, Stop>)
      requires |optional| >= 2
      ensures r.Err? ==> NotBudget(r.error)
      ensures OptionalFieldsIn(fileSize, optional, at, count) == if r.Ok? then Some(r.value) else None
      ensures OptionalStopIn(fileSize, optional, at, count) == if r.Err? then Some(r.error) else None
    {
      hide U16, U32;
      var magic := U16(optional, 0);
      if magic != 0x10B && magic != 0x20B {
        return Err(Issue(OptionalHeaderUnsupported, true));
      }
      var base := if magic == 0x20B then 112 else 96;
      if |optional| < base {
        return Err(Issue(OptionalHeaderTruncated, false));
      }
      var headersSize, directories := U32(optional, 60), U32(optional, base - 4);
      if directories > (|optional| - base) / 8 {
        return Err(Issue(DataDirectoriesTruncated, false));
      }
      var certOffset, certSize := 0, 0;
      if Min(directories, 16) > 4 {
        certOffset, certSize := U32(optional, base + 32), U32(optional, base + 36);
      }
      var table := at + 24 + |optional|;
      if table + count * SECTION_HEADER_SIZE > fileSize {
        return Err(Issue(SectionTableTruncated, false));
      }
      if headersSize < table + count * SECTION_HEADER_SIZE || headersSize > fileSize {
        return Err(Issue(HeadersSizeInvalid, false));
      }
      return Ok(Headers(table, count, headersSize, certOffset, certSize));
    }

    /** Read the rows of the section table one by one; the first misplaced one stops. */
    method ReadRows(h: Headers, table: Bytes) returns (stop: Option<Stop>)
      requires |table| == h.count * SECTION_HEADER_SIZE && sections == [] && anomalies == []
      modifies this`sections, this`anomalies
      ensures stop.None? <==>
        forall i | 0 <= i < h.count :: RawInside(SectionsIn(table, h.count)[i], h.headersSize, fileSize)
      ensures stop.None? ==> sections == SectionsIn(table, h.count) && anomalies == Flagged(sections)
      ensures stop.Some? ==> stop == Some(Issue(SectionRawRangeInvalid, false))
      ensures stop.Some? ==> Misplaced(h, SectionsIn(table, h.count))
    {
      hide RawInside, Flagged;
      var all := SectionsIn(table, h.count);
      var i := 0;
      NothingFlagged();
      assert all[..0] == [];
      while i < h.count
        invariant i <= h.count && sections == all[..i] && anomalies == Flagged(all[..i])
        invariant forall k | 0 <= k < i :: RawInside(all[k], h.headersSize, fileSize)
      {
        var s := SectionAt(Row(table, i));
        assert all[i] == s && all[..i + 1] == all[..i] + [s];
        sections := sections + [s];
        InsideIs(s, h.headersSize, fileSize);
        if s.rawSize > 0 && (s.rawOffset < h.headersSize || s.rawOffset + s.rawSize > fileSize) {
          assert sections[..i] == all[..i] && sections[i] == s;
          return Some(Issue(SectionRawRangeInvalid, false));
        }
        FlaggedSnoc(all, i);
        if Bit(s.characteristics, 0x8000_0000) && Bit(s.characteristics, 0x2000_0000) {
          anomalies := anomalies + [WritableExecutable(i)];
        }
        i := i + 1;
      }
      assert all[..i] == all;
      return None;
    }

    /** The rows up to the first misplaced one, and the flags of those before it. */
    predicate Misplaced(h: Headers, all: seq<Section>)
      reads this
    {
      var n := |sections| - 1;
      && 0 <= n < |all| && sections == all[..n + 1] && !RawInside(all[n], h.headersSize, fileSize)
      && anomalies == Flagged(all[..n]) && forall k | 0 <= k < n :: RawInside(all[k], h.headersSize, fileSize)
    }

    /** The layout checks accept a section table exactly when it is well laid out. */
    method LayOut(h: Headers, table: Bytes) returns (stop: Option<Stop>)
      requires |table| == h.count * SECTION_HEADER_SIZE && sections == [] && anomalies == []
      requires h.tableOffset + h.count * SECTION_HEADER_SIZE <= h.headersSize <= fileSize
      modifies this`sections, this`anomalies
      ensures stop.None? <==> WellLaidOut(h, SectionsIn(table, h.count), fileSize)
      ensures stop == LayoutStop(h, SectionsIn(table, h.count), fileSize)
      ensures if stop == Some(Issue(SectionRawRangeInvalid, false)) then Misplaced(h, SectionsIn(table, h.count))
              else sections == SectionsIn(table, h.count) && anomalies == Flagged(sections)
    {
      hide SectionsApart, CertificateOk, RawInside, Flagged, CertificateMisplaced, Misplaced;
      var all := SectionsIn(table, h.count);
      CertificatePlaced(h, all, fileSize);
      stop := ReadRows(h, table);
      if stop.Some? {
        return;
      }
      assert forall i | 0 <= i < |all| :: RawInside(all[i], h.headersSize, fileSize);
      var apart := CheckOverlap(sections);
      if !apart {
        return Some(Issue(SectionRawOverlap, false));
      }
      stop := CheckCertificate(h, sections, fileSize);
    }

    predicate NoCandidate()
      reads this
    {
      valid == None && status == NotPe && !isPe && anomalies == []
    }

    /** What the inspector holds is what the file says. */
    predicate Accepted()
      reads this
    {
      && valid == Some(true) && status == Complete && isPe
      && HeadersOf(fileSize, disk) == Some(headers) && TableOf(fileSize, disk, headers).Some?
      && sections == SectionsIn(TableOf(fileSize, disk, headers).value, headers.count)
    }

    /** Read the headers; nothing when the file is no candidate. */
    method ReadHeaders() returns (r: Result<Option<Headers>, Stop>)
      requires Blank()
      modifies this`bytesRead, this`status, this`isPe
      ensures bytesRead <= 88 + MAX_OPTIONAL_HEADER_SIZE
      ensures r.Err? ==> NotBudget(r.error) && HeadersOf(fileSize, disk) == None && !Foreign(fileSize, disk)
      ensures r == Ok(None) <==> Foreign(fileSize, disk)
      ensures r == Ok(None) ==> status == NotPe && !isPe && HeadersOf(fileSize, disk) == None
      ensures HeadersStop(fileSize, disk) == if r.Err? then Some(r.error) else None
      ensures r.Ok? && r.value.Some? ==> HeadersOf(fileSize, disk) == r.value && isPe
    {
      hide OptionalFields, CoffFields, PeOffset, Foreign, DosStop, CoffStop, OptionalStop;
      ForeignHasNone(fileSize, disk);
      var dos := ReadDos();
      if dos.Err? {
        return Err(dos.error);
      }
      if dos.value.None? {
        return Ok(None);
      }
      var at := dos.value.value;
      var coff := ReadCoff(at);
      if coff.Err? {
        return Err(coff.error);
      }
      CoffBounds(fileSize, disk, at);
      var optional := ReadOptional(at, coff.value.0, coff.value.1);
      if optional.Err? {
        return Err(optional.error);
      }
      return Ok(Some(optional.value));
    }

    /** The sections read so far, without the one that stopped the reading of the table. */
    function Passed(stop: Option<Stop>): seq<Section>
      reads this
    {
      if stop == Some(Issue(SectionRawRangeInvalid, false)) && sections != [] then
        sections[..|sections| - 1]
      else sections
    }

    method Inspect() returns (stop: Option<Stop>)
      requires Blank()
      modifies this
      ensures bytesRead <= MAX_INSPECTION_BYTES
      ensures stop.Some? ==> valid == None && !ValidImage(fileSize, disk)
      ensures stop.Some? ==> !Foreign(fileSize, disk)
      ensures stop == FileStop(fileSize, disk) && (stop.Some? ==> NotBudget(stop.value))
      ensures anomalies == Flagged(Passed(stop))
      ensures stop.None? ==> if Foreign(fileSize, disk) then NoCandidate() else Accepted() && ValidImage(fileSize, disk)
      ensures Foreign(fileSize, disk) ==> !ValidImage(fileSize, disk)
    {
      hide WellLaidOut, HeadersOf, Foreign, Fetch, HeadersStop, LayoutStop, Flagged, ReadStop, SectionAt, RawInside;
      NothingFlagged();
      var got := ReadHeaders();
      if got.Err? {
        return Some(got.error);
      }
      if got.value.None? {
        return None;
      }
      headers := got.value.value;
      HeadersBounds(fileSize, disk);
      var table := Read(headers.tableOffset, headers.count * SECTION_HEADER_SIZE, SectionTableTruncated);
      if table.Err? {
        return Some(table.error);
      }
      LayoutNotBudget(headers, SectionsIn(table.value, headers.count), fileSize);
      stop := LayOut(headers, table.value);
      if stop == Some(Issue(SectionRawRangeInvalid, false)) {
        var n := |sections| - 1;
        assert sections[..n] == SectionsIn(table.value, headers.count)[..n];
      }
      if stop.None? {
        valid := Some(true);
        status := Complete;
      }
    }

    /** How the inspection ends for what stopped it: the verdict, the status and the anomalies reported. */
    predicate Diagnosed(stop: Option<Stop>)
      reads this
    {
      match stop
      case None => valid == Some(true) && status == Complete && anomalies == Flagged(sections)
      case Some(ReadError) => valid == None && status == Error && anomalies == Flagged(sections)
      case Some(Issue(code, unsupported)) =>
        && code != ReadLimit
        && valid == (if unsupported then None else Some(false))
        && status == (if unsupported then Unsupported else Incomplete)
        && anomalies == Flagged(Passed(stop)) + [Stopped(code)]
    }

    /**
     The inspection never reads more than its budget, so the budget error cannot
     occur. The verdict is "valid" exactly when the file's own headers are
     acceptable and its section table is well laid out, and then headers and
     sections are those of the file; otherwise the first failing check is reported.
     */
    method Analyze(head: Option<Bytes>)
      requires Blank()
      modifies this
      ensures bytesRead <= MAX_INSPECTION_BYTES
      ensures valid == Some(true) <==> (head.Some? ==> Mz(head.value)) && ValidImage(fileSize, disk)
      ensures valid == Some(true) ==> Accepted()
      ensures valid == Some(true) <==> status == Complete
      ensures valid == Some(false) ==> status == Incomplete && anomalies != []
      ensures status == NotPe <==> (head.Some? && !Mz(head.value)) || Foreign(fileSize, disk)
      ensures status == NotPe ==> NoCandidate()
      ensures !(head.Some? && !Mz(head.value)) && !Foreign(fileSize, disk) ==> Diagnosed(FileStop(fileSize, disk))
    {
      hide ValidImage, Foreign, HeadersOf, TableOf, FileStop, Flagged;
      if head.Some? && !Mz(head.value) {
        return;
      }
      var stop := Inspect();
      if stop.None? {
        return;
      }
      if stop.value.ReadError? {
        valid, status := None, Error;
        return;
      }
      valid := if stop.value.unsupported then None else Some(false);
      status := if stop.value.unsupported then Unsupported else Incomplete;
      anomalies := anomalies + [Stopped(stop.value.code)];
    }
  }

  lemma ForeignHasNone(fileSize: nat, disk: Disk)
    ensures Foreign(fileSize, disk) ==> HeadersOf(fileSize, disk) == None && PeOffset(fileSize, disk) == None
  {
    hide OptionalFields, CoffFields;
  }

  lemma CoffBounds(fileSize: nat, disk: Disk, at: nat)
    ensures var r := CoffFields(fileSize, disk, at);
      r.Some? ==> 1 <= r.value.0 <= MAX_SECTIONS && 2 <= r.value.1 <= MAX_OPTIONAL_HEADER_SIZE
  {
  }

  /** Headers of a file leave room in the read budget for the section table, which ends before SizeOfHeaders. */
  lemma HeadersBounds(fileSize: nat, disk: Disk)
    ensures var r := HeadersOf(fileSize, disk);
      r.Some? ==>
        r.value.count <= MAX_SECTIONS &&
        r.value.tableOffset + r.value.count * SECTION_HEADER_SIZE <= r.value.headersSize <= fileSize
  {
  }
}

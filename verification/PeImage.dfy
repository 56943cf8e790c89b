/**
 The PE format written out field by field, and read back: the inspector's headers and
 sections are those that the format puts into an image.
 */
module PeImage {
  import opened Common
  import opened LittleEndian
  import opened Pe

  // ------------------------------------------------------------ the format

  /** One section header: name, sizes and places, relocation and line fields, characteristics. */
  function PrintSection(name: Bytes, s: Section, other: Bytes): (b: Bytes)
    requires |name| == 8 && |other| == 12 && Small(s)
    ensures |b| == 40
  {
    name + P32(s.virtualSize) + P32(s.virtualAddress) + P32(s.rawSize) + P32(s.rawOffset) + other +
    P32(s.characteristics)
  }

  predicate Small(s: Section) {
    s.virtualAddress < 0x1_0000_0000 && s.virtualSize < 0x1_0000_0000 && s.rawOffset < 0x1_0000_0000 &&
    s.rawSize < 0x1_0000_0000 && s.characteristics < 0x1_0000_0000
  }

  /** The DOS header: MZ, fields that do not matter here, and e_lfanew. */
  function PrintDos(fields: Bytes, at: nat): (b: Bytes)
    requires |fields| == 58 && at < 0x1_0000_0000
    ensures |b| == 64
  {
    [77, 90] + fields + P32(at)
  }

  /** The COFF header: machine, number of sections, time stamp and symbols, size of the optional header, flags. */
  function PrintCoff(machine: nat, count: nat, symbols: Bytes, size: nat, flags: nat): (b: Bytes)
    requires machine < 0x1_0000 && count < 0x1_0000 && |symbols| == 12 && size < 0x1_0000 && flags < 0x1_0000
    ensures |b| == 20
  {
    P16(machine) + P16(count) + symbols + P16(size) + P16(flags)
  }

  /** The optional header of PE32 or PE32+: magic, SizeOfHeaders at 60, the directories after the Windows fields. */
  function PrintOptional(
    plus: bool, a: Bytes, headersSize: nat, b: Bytes, directories: seq<(nat, nat)>, rest: Bytes
  ): Bytes
    requires |a| == 58 && |b| == (if plus then 44 else 28) && headersSize < 0x1_0000_0000
    requires |directories| < 0x1_0000_0000 && AllSmall(directories)
  {
    P16(if plus then 0x20B else 0x10B) + a + P32(headersSize) + b + P32(|directories|) +
    PrintDirectories(directories) + rest
  }

  predicate AllSmall(directories: seq<(nat, nat)>) {
    forall i | 0 <= i < |directories| :: directories[i].0 < 0x1_0000_0000 && directories[i].1 < 0x1_0000_0000
  }

  function PrintDirectories(ds: seq<(nat, nat)>): (b: Bytes)
    requires AllSmall(ds)
    ensures |b| == 8 * |ds|
  {
    if ds == [] then [] else P32(ds[0].0) + P32(ds[0].1) + PrintDirectories(ds[1..])
  }

  // ------------------------------------------------------------ reading it back

  lemma SectionReadsBack(name: Bytes, s: Section, other: Bytes)
    requires |name| == 8 && |other| == 12 && Small(s)
    ensures SectionAt(PrintSection(name, s, other)) == s
  {
    var b := PrintSection(name, s, other);
    var p1, p2, p3, p4, p5 :=
      P32(s.virtualSize), P32(s.virtualAddress), P32(s.rawSize), P32(s.rawOffset), P32(s.characteristics);
    assert b == name + p1 + (p2 + p3 + p4 + other + p5);
    U32At(name, s.virtualSize, p2 + p3 + p4 + other + p5);
    assert b == (name + p1) + p2 + (p3 + p4 + other + p5);
    U32At(name + p1, s.virtualAddress, p3 + p4 + other + p5);
    assert b == (name + p1 + p2) + p3 + (p4 + other + p5);
    U32At(name + p1 + p2, s.rawSize, p4 + other + p5);
    assert b == (name + p1 + p2 + p3) + p4 + (other + p5);
    U32At(name + p1 + p2 + p3, s.rawOffset, other + p5);
    assert b == (name + p1 + p2 + p3 + p4 + other) + p5 + [];
    U32At(name + p1 + p2 + p3 + p4 + other, s.characteristics, []);
  }

  lemma DosReadsBack(fields: Bytes, at: nat)
    requires |fields| == 58 && at < 0x1_0000_0000
    ensures Mz(PrintDos(fields, at)) && U32(PrintDos(fields, at), 60) == at
  {
    var b := PrintDos(fields, at);
    assert b == ([77, 90] + fields) + P32(at) + [];
    U32At([77, 90] + fields, at, []);
  }

  lemma CoffReadsBack(machine: nat, count: nat, symbols: Bytes, size: nat, flags: nat)
    requires machine < 0x1_0000 && count < 0x1_0000 && |symbols| == 12 && size < 0x1_0000 && flags < 0x1_0000
    ensures var b := PrintCoff(machine, count, symbols, size, flags); U16(b, 2) == count && U16(b, 16) == size
  {
    var b := PrintCoff(machine, count, symbols, size, flags);
    assert b == P16(machine) + P16(count) + (symbols + P16(size) + P16(flags));
    U16At(P16(machine), count, symbols + P16(size) + P16(flags));
    assert b == (P16(machine) + P16(count) + symbols) + P16(size) + P16(flags);
    U16At(P16(machine) + P16(count) + symbols, size, P16(flags));
  }

  lemma {:induction false} DirectoryReadsBack(ds: seq<(nat, nat)>, i: nat, before: Bytes, rest: Bytes)
    requires AllSmall(ds) && i < |ds|
    ensures var b := before + PrintDirectories(ds) + rest;
      U32(b, |before| + 8 * i) == ds[i].0 && U32(b, |before| + 8 * i + 4) == ds[i].1
    decreases i
  {
    var b := before + PrintDirectories(ds) + rest;
    var p, q, tail := P32(ds[0].0), P32(ds[0].1), PrintDirectories(ds[1..]);
    if i == 0 {
      assert b == before + p + (q + tail + rest);
      U32At(before, ds[0].0, q + tail + rest);
      assert b == (before + p) + q + (tail + rest);
      U32At(before + p, ds[0].1, tail + rest);
    } else {
      assert b == (before + p + q) + tail + rest;
      DirectoryReadsBack(ds[1..], i - 1, before + p + q, rest);
    }
  }

  lemma OptionalReadsBack(plus: bool, a: Bytes, headersSize: nat, b: Bytes, ds: seq<(nat, nat)>, rest: Bytes)
    requires |a| == 58 && |b| == (if plus then 44 else 28) && headersSize < 0x1_0000_0000
    requires |ds| < 0x1_0000_0000 && AllSmall(ds)
    ensures var o := PrintOptional(plus, a, headersSize, b, ds, rest);
      && OptionalOk(o) && U32(o, 60) == headersSize
      && CertificateOf(o) == if |ds| >= 5 then ds[4] else (0, 0)
  {
    hide P16, P32, U16, U32, PrintDirectories;
    var magic: nat := if plus then 0x20B else 0x10B;
    var m, h, n, d := P16(magic), P32(headersSize), P32(|ds|), PrintDirectories(ds);
    var o := m + a + h + b + n + d + rest;
    assert o == [] + m + (a + h + b + n + d + rest);
    U16At([], magic, a + h + b + n + d + rest);
    assert o == (m + a) + h + (b + n + d + rest);
    U32At(m + a, headersSize, b + n + d + rest);
    assert o == (m + a + h + b) + n + (d + rest);
    U32At(m + a + h + b, |ds|, d + rest);
    if |ds| >= 5 {
      DirectoryReadsBack(ds, 4, m + a + h + b + n, rest);
    }
  }

  // ------------------------------------------------------------ a whole image

  /** A file whose reads deliver what it holds. */
  function Exact(file: Bytes): Disk {
    (offset: nat, size: nat) => if offset + size <= |file| then Some(file[offset..offset + size]) else None
  }

  lemma FetchPart(a: Bytes, b: Bytes, c: Bytes)
    ensures Fetch(|a + b + c|, Exact(a + b + c), |a|, |b|) == Some(b)
  {
    var file := a + b + c;
    assert file[|a|..|a| + |b|] == b;
    assert b[..|b|] == b;
  }

  /** The parts of an image in the order in which they stand. */
  datatype Parts = Parts(dosFields: Bytes, gap: Bytes, machine: nat, symbols: Bytes, flags: nat,
                         plus: bool, a: Bytes, b: Bytes, directories: seq<(nat, nat)>, rest: Bytes,
                         names: seq<Bytes>, sections: seq<Section>, others: seq<Bytes>, headersSize: nat, body: Bytes)

  function OptionalPart(p: Parts): Bytes
    requires Sizes(p)
  {
    PrintOptional(p.plus, p.a, p.headersSize, p.b, p.directories, p.rest)
  }

  predicate Sizes(p: Parts) {
    && |p.dosFields| == 58 && p.machine < 0x1_0000 && |p.symbols| == 12 && p.flags < 0x1_0000
    && |p.a| == 58 && |p.b| == (if p.plus then 44 else 28) && p.headersSize < 0x1_0000_0000
    && |p.directories| < 0x1_0000_0000 && AllSmall(p.directories)
    && |p.names| == |p.sections| == |p.others|
    && forall i | 0 <= i < |p.sections| :: |p.names[i]| == 8 && |p.others[i]| == 12 && Small(p.sections[i])
  }

  function PrintTable(p: Parts, n: nat): (t: Bytes)
    requires Sizes(p) && n <= |p.sections|
    ensures |t| == 40 * n
  {
    if n == 0 then []
    else PrintTable(p, n - 1) + PrintSection(p.names[n - 1], p.sections[n - 1], p.others[n - 1])
  }

  /** The limits of the format as the inspector takes them. */
  predicate WithinLimits(p: Parts) {
    && Sizes(p)
    && |p.gap| + 64 <= 1048576 && 1 <= |p.sections| <= 96 && 2 <= |OptionalPart(p)| <= 4096
  }

  function Head(p: Parts): Bytes
    requires WithinLimits(p)
  {
    PrintDos(p.dosFields, 64 + |p.gap|) + p.gap
  }

  function CoffPart(p: Parts): Bytes
    requires WithinLimits(p)
  {
    PrintCoff(p.machine, |p.sections|, p.symbols, |OptionalPart(p)|, p.flags)
  }

  function Image(p: Parts): Bytes
    requires WithinLimits(p)
  {
    Head(p) + [80, 69, 0, 0] + CoffPart(p) + OptionalPart(p) + PrintTable(p, |p.sections|) + p.body
  }

  lemma TableSnoc(p: Parts, n: nat)
    requires Sizes(p) && 0 < n <= |p.sections|
    ensures PrintTable(p, n) == PrintTable(p, n - 1) + PrintSection(p.names[n - 1], p.sections[n - 1], p.others[n - 1])
  {
    hide PrintSection;
  }

  lemma LastRow(t: Bytes, row: Bytes, i: nat)
    requires |t| == 40 * i && |row| == 40
    ensures Row(t + row, i) == row
  {
  }

  lemma EarlierRow(t: Bytes, row: Bytes, i: nat)
    requires (i + 1) * 40 <= |t|
    ensures Row(t + row, i) == Row(t, i)
  {
  }

  lemma {:induction false} TableReadsBack(p: Parts, n: nat, i: nat)
    requires Sizes(p) && i < n <= |p.sections|
    ensures SectionAt(Row(PrintTable(p, n), i)) == p.sections[i]
    decreases n
  {
    hide SectionAt, PrintSection, Row, PrintTable;
    var row := PrintSection(p.names[n - 1], p.sections[n - 1], p.others[n - 1]);
    TableSnoc(p, n);
    if i == n - 1 {
      LastRow(PrintTable(p, n - 1), row, i);
      SectionReadsBack(p.names[i], p.sections[i], p.others[i]);
    } else {
      TableReadsBack(p, n - 1, i);
      EarlierRow(PrintTable(p, n - 1), row, i);
    }
  }

  lemma SectionsReadBack(p: Parts)
    requires Sizes(p)
    ensures SectionsIn(PrintTable(p, |p.sections|), |p.sections|) == p.sections
  {
    var n := |p.sections|;
    forall i | 0 <= i < n ensures SectionsIn(PrintTable(p, n), n)[i] == p.sections[i] {
      TableReadsBack(p, n, i);
    }
  }

  /** Where the parts of an image stand. */
  lemma PartsFetched(p: Parts)
    requires WithinLimits(p)
    ensures var file, at, o := Image(p), 64 + |p.gap|, OptionalPart(p);
      && |file| == at + 24 + |o| + 40 * |p.sections| + |p.body|
      && Fetch(|file|, Exact(file), 0, 64) == Some(PrintDos(p.dosFields, at))
      && Fetch(|file|, Exact(file), at, 4) == Some([80, 69, 0, 0])
      && Fetch(|file|, Exact(file), at + 4, 20) == Some(CoffPart(p))
      && Fetch(|file|, Exact(file), at + 24, |o|) == Some(o)
      && Fetch(|file|, Exact(file), at + 24 + |o|, 40 * |p.sections|) == Some(PrintTable(p, |p.sections|))
  {
    hide PrintDos, PrintCoff, PrintOptional, PrintTable, Fetch, Exact;
    var file, at := Image(p), 64 + |p.gap|;
    var dos, sig, coff, o, t: Bytes :=
      PrintDos(p.dosFields, at), [80, 69, 0, 0], CoffPart(p), OptionalPart(p), PrintTable(p, |p.sections|);
    assert file == [] + dos + (p.gap + sig + coff + o + t + p.body);
    FetchPart([], dos, p.gap + sig + coff + o + t + p.body);
    assert file == Head(p) + sig + (coff + o + t + p.body);
    FetchPart(Head(p), sig, coff + o + t + p.body);
    assert file == (Head(p) + sig) + coff + (o + t + p.body);
    FetchPart(Head(p) + sig, coff, o + t + p.body);
    assert file == (Head(p) + sig + coff) + o + (t + p.body);
    FetchPart(Head(p) + sig + coff, o, t + p.body);
    FetchPart(Head(p) + sig + coff + o, t, p.body);
  }

  /** The headers of an image whose SizeOfHeaders covers the section table and lies in the file. */
  function HeadersIn(p: Parts): Headers
    requires WithinLimits(p)
  {
    var cert := if |p.directories| >= 5 then p.directories[4] else (0, 0);
    Headers(64 + |p.gap| + 24 + |OptionalPart(p)|, |p.sections|, p.headersSize, cert.0, cert.1)
  }

  lemma OptionalIs(p: Parts)
    requires WithinLimits(p)
    ensures var o := OptionalPart(p);
      && OptionalOk(o) && U32(o, 60) == p.headersSize
      && CertificateOf(o) == if |p.directories| >= 5 then p.directories[4] else (0, 0)
  {
    hide PrintOptional;
    OptionalReadsBack(p.plus, p.a, p.headersSize, p.b, p.directories, p.rest);
  }

  /** Any image the format can print within the limits is read back: its headers and its sections. */
  lemma ImageReadsBack(p: Parts)
    requires WithinLimits(p)
    requires 64 + |p.gap| + 24 + |OptionalPart(p)| + 40 * |p.sections| <= p.headersSize <= |Image(p)|
    ensures var file, h := Image(p), HeadersIn(p);
      && HeadersOf(|file|, Exact(file)) == Some(h)
      && TableOf(|file|, Exact(file), h) == Some(PrintTable(p, |p.sections|))
      && SectionsIn(PrintTable(p, |p.sections|), |p.sections|) == p.sections
      && (ValidImage(|file|, Exact(file)) <==> WellLaidOut(h, p.sections, |file|))
  {
    hide PrintDos, PrintCoff, PrintTable, Fetch, Exact;
    hide Image, OptionalPart, OptionalOk, CertificateOf, SectionsIn, WellLaidOut;
    PartsFetched(p);
    DosReadsBack(p.dosFields, 64 + |p.gap|);
    CoffReadsBack(p.machine, |p.sections|, p.symbols, |OptionalPart(p)|, p.flags);
    OptionalIs(p);
    SectionsReadBack(p);
  }

  /** A file is a candidate exactly when it starts with the two bytes "MZ". */
  lemma ForeignMeaning(file: Bytes)
    ensures Foreign(|file|, Exact(file)) <==> |file| < 2 || file[..2] != [77, 90]
  {
    var start := file[0..Min(64, |file|)];
    assert |file| >= 2 ==> file[..2] == [file[0], file[1]];
    assert start[..|start|] == start;
  }
}

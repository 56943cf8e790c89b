/**
 The streaming entropy analyser: whatever sizes the reads return, the blocks are
 those of the whole file, and the sampled report is bounded.
 */
module Entropy {
  import opened Common

  /** `entropy` stands for the Shannon entropy of a block of bytes. */
  datatype Config = Config(blockSize: int, readSize: int, threshold: real, maxReported: int, entropy: Bytes -> real)
  {
    predicate Valid() {
      && blockSize > 0 && readSize >= blockSize && readSize % blockSize == 0
      && 0.0 <= threshold <= 8.0 && maxReported > 0
    }
  }

  datatype Sample = Sample(index: nat, offset: nat, size: nat, entropy: real, above: bool)

  datatype Report = Report(
    fileSize: nat, blockCount: nat, highCount: nat, entropies: seq<real>, histogram: seq<nat>,
    reported: seq<Sample>, truncated: bool, stride: nat)

  datatype Failure = CannotRead | SizeChanged

  // ------------------------------------------------------------ the simple form

  function Flatten(parts: seq<Bytes>): Bytes {
    if parts == [] then [] else Flatten(parts[..|parts| - 1]) + parts[|parts| - 1]
  }

  /** The file cut from the front into blocks, the last one possibly short. */
  function Blocks(data: Bytes, size: int): seq<Bytes>
    requires size > 0
    decreases |data|
  {
    if data == [] then []
    else if |data| <= size then [data]
    else [data[..size]] + Blocks(data[size..], size)
  }

  function CeilDiv(a: nat, b: int): nat
    requires b > 0
  {
    (a + b - 1) / b
  }

  function Stride(c: Config, fileSize: nat): (k: nat)
    requires c.Valid()
    ensures k >= 1
  {
    Max(1, CeilDiv(CeilDiv(fileSize, c.blockSize), c.maxReported))
  }

  function Count(data: Bytes, b: nat): nat {
    if data == [] then 0 else Count(data[..|data| - 1], b) + if data[|data| - 1] as int == b then 1 else 0
  }

  function Histogram(data: Bytes): seq<nat> {
    seq(256, b requires 0 <= b < 256 => Count(data, b))
  }

  /** What the loop carries from block to block. */
  datatype Tally = Tally(entropies: seq<real>, high: nat, reported: seq<Sample>)

  function SampleOf(c: Config, index: nat, block: Bytes): Sample
    requires c.Valid()
  {
    var e := c.entropy(block);
    Sample(index, index * c.blockSize, |block|, e, e >= c.threshold)
  }

  function WithBlock(c: Config, stride: nat, t: Tally, block: Bytes): Tally
    requires c.Valid() && stride > 0
  {
    var e := c.entropy(block);
    var i := |t.entropies|;
    Tally(t.entropies + [e], t.high + (if e >= c.threshold then 1 else 0),
          if i % stride == 0 then t.reported + [SampleOf(c, i, block)] else t.reported)
  }

  function TallyOf(c: Config, stride: nat, blocks: seq<Bytes>): Tally
    requires c.Valid() && stride > 0
  {
    if blocks == [] then Tally([], 0, [])
    else WithBlock(c, stride, TallyOf(c, stride, blocks[..|blocks| - 1]), blocks[|blocks| - 1])
  }

  /** The report of a whole file held in memory. */
  function ReportOf(c: Config, data: Bytes): Report
    requires c.Valid()
  {
    var stride := Stride(c, |data|);
    var t := TallyOf(c, stride, Blocks(data, c.blockSize));
    Report(|data|, |t.entropies|, t.high, t.entropies, Histogram(data), t.reported,
           |t.reported| < |t.entropies|, stride)
  }

  /** What the reads deliver up to the first empty one, unless one fails before it. */
  function Delivered(input: seq<Option<Bytes>>): Option<Bytes> {
    if input == [] || input[0] == Some([]) then Some([])
    else if input[0].None? then None
    else
      match Delivered(input[1..])
      case None => None
      case Some(rest) => Some(input[0].value + rest)
  }

  // ------------------------------------------------------------ the streaming form

  /** np.bincount of one chunk, added in place. */
  method AddCounts(h: array<nat>, chunk: Bytes)
    requires h.Length == 256
    modifies h
    ensures forall b | 0 <= b < 256 :: h[b] == old(h[b]) + Count(chunk, b)
  {
    var i := 0;
    while i < |chunk|
      invariant i <= |chunk|
      invariant forall b | 0 <= b < 256 :: h[b] == old(h[b]) + Count(chunk[..i], b)
    {
      assert chunk[..i + 1][..i] == chunk[..i];
      h[chunk[i] as int] := h[chunk[i] as int] + 1;
      i := i + 1;
    }
    assert chunk[..i] == chunk;
  }

  predicate AllFull(parts: seq<Bytes>, size: int) {
    forall i | 0 <= i < |parts| :: |parts[i]| == size
  }

  lemma TakenOne(c: Config, stride: nat, done: seq<Bytes>, block: Bytes)
    requires c.Valid() && stride > 0 && AllFull(done, c.blockSize) && |block| == c.blockSize
    ensures TallyOf(c, stride, done + [block]) == WithBlock(c, stride, TallyOf(c, stride, done), block)
    ensures Flatten(done + [block]) == Flatten(done) + block && AllFull(done + [block], c.blockSize)
  {
    hide WithBlock;
    assert (done + [block])[..|done + [block]| - 1] == done;
  }

  /** Cut every complete block off the buffer; the rest is carried to the next read. */
  method TakeBlocks(c: Config, stride: nat, buffer: Bytes, t0: Tally, ghost done0: seq<Bytes>)
    returns (t: Tally, carry: Bytes, ghost done: seq<Bytes>)
    requires c.Valid() && stride > 0 && t0 == TallyOf(c, stride, done0) && AllFull(done0, c.blockSize)
    ensures t == TallyOf(c, stride, done) && AllFull(done, c.blockSize) && |carry| < c.blockSize
    ensures Flatten(done) + carry == Flatten(done0) + buffer
  {
    hide Flatten, TallyOf, WithBlock;
    t, done := t0, done0;
    var size := c.blockSize;
    assert buffer[0..] == buffer;
    var complete := |buffer| / size * size;
    Floor(|buffer|, size);
    var start, k := 0, 0;
    while start < complete
      invariant 0 <= start <= complete && start == k * size && k >= 0
      invariant t == TallyOf(c, stride, done) && AllFull(done, size)
      invariant Flatten(done) + buffer[start..] == Flatten(done0) + buffer
    {
      NextBlock(k, |buffer| / size, size);
      var block := buffer[start..start + size];
      TakenOne(c, stride, done, block);
      Regroup(Flatten(done), buffer, start, start + size);
      t := WithBlock(c, stride, t, block);
      done := done + [block];
      start, k := start + size, k + 1;
    }
    carry := buffer[complete..];
  }

  lemma MulMono(a: int, b: int, c: int)
    requires a <= b && c >= 0
    ensures a * c <= b * c
  {
    assert b * c - a * c == (b - a) * c;
  }

  lemma DivBounds(x: nat, size: int)
    requires size > 0
    ensures x / size * size <= x < x / size * size + size
  {
  }

  lemma Floor(n: nat, size: int)
    requires size > 0
    ensures 0 <= n / size * size <= n && n - n / size * size < size
  {
  }

  lemma NextBlock(k: nat, q: nat, size: int)
    requires size > 0 && k * size < q * size
    ensures k * size + size == (k + 1) * size <= q * size
  {
    if q <= k {
      MulMono(q, k, size);
    }
    MulMono(k + 1, q, size);
    Successor(k, size);
  }

  lemma Successor(k: int, size: int)
    ensures (k + 1) * size == k * size + size && (k - 1) * size == k * size - size
  {
  }

  lemma Regroup(a: Bytes, b: Bytes, i: nat, j: nat)
    requires i <= j <= |b|
    ensures a + b[i..] == a + b[i..j] + b[j..]
  {
  }

  predicate Counted(h: array<nat>, data: Bytes)
    reads h
  {
    h.Length == 256 && forall b | 0 <= b < 256 :: h[b] == Count(data, b)
  }

  method CountChunk(h: array<nat>, chunk: Bytes, ghost all: Bytes)
    requires Counted(h, all)
    modifies h
    ensures Counted(h, all + chunk)
  {
    forall b: nat { CountConcat(all, chunk, b); }
    AddCounts(h, chunk);
  }

  /** The blocks of everything read: full ones cut so far and a shorter rest. */
  predicate Cut(c: Config, stride: nat, t: Tally, done: seq<Bytes>, carry: Bytes, all: Bytes)
    requires c.Valid() && stride > 0
  {
    && t == TallyOf(c, stride, done) && AllFull(done, c.blockSize) && |carry| < c.blockSize
    && Flatten(done) + carry == all
  }

  lemma CutAll(c: Config, stride: nat, t: Tally, done: seq<Bytes>, carry: Bytes, all: Bytes)
    requires c.Valid() && stride > 0 && Cut(c, stride, t, done, carry, all)
    ensures TallyOf(c, stride, Blocks(all, c.blockSize)) == if carry == [] then t else WithBlock(c, stride, t, carry)
  {
    hide Flatten, WithBlock;
    BlocksOf(done, carry, c.blockSize);
    assert (done + [carry])[..|done + [carry]| - 1] == done;
  }

  /** What has been read is followed by what the remaining reads deliver. */
  predicate Joins(input: seq<Option<Bytes>>, i: nat, all: Bytes)
    requires i <= |input|
  {
    Delivered(input) == match Delivered(input[i..]) case None => None case Some(rest) => Some(all + rest)
  }

  lemma JoinsStart(input: seq<Option<Bytes>>)
    ensures Joins(input, 0, [])
  {
    assert input[0..] == input;
    assert Delivered(input).Some? ==> [] + Delivered(input).value == Delivered(input).value;
  }

  lemma JoinsNext(input: seq<Option<Bytes>>, i: nat, all: Bytes)
    requires i < |input| && input[i].Some? && input[i].value != [] && Joins(input, i, all)
    ensures Joins(input, i + 1, all + input[i].value)
  {
    assert input[i..][0] == input[i] && input[i..][1..] == input[i + 1..];
    var rest := Delivered(input[i + 1..]);
    assert rest.Some? ==> all + (input[i].value + rest.value) == (all + input[i].value) + rest.value;
  }

  lemma JoinsEnd(input: seq<Option<Bytes>>, i: nat, all: Bytes)
    requires i <= |input| && Joins(input, i, all)
    requires i < |input| ==> input[i].None? || input[i].value == []
    ensures Delivered(input) == if i < |input| && input[i].None? then None else Some(all)
  {
    assert i < |input| ==> input[i..][0] == input[i];
    assert all + [] == all;
  }

  /** The whole analysis over any sequence of short or full reads. */
  method AnalyzeStream(c: Config, input: seq<Option<Bytes>>, fileSize: nat) returns (r: Result<Report, Failure>)
    requires c.Valid()
    ensures Delivered(input) == None ==> r == Err(CannotRead)
    ensures Delivered(input).Some? && |Delivered(input).value| != fileSize ==> r == Err(SizeChanged)
    ensures Delivered(input).Some? && |Delivered(input).value| == fileSize ==>
      r == Ok(ReportOf(c, Delivered(input).value))
  {
    hide Delivered, Joins, TallyOf, WithBlock, Flatten, AllFull, Count, Config.Valid, Blocks;
    var stride := Stride(c, fileSize);
    var h := new nat[256](_ => 0);
    var t := Tally([], 0, []);
    ghost var done: seq<Bytes> := [];
    ghost var all: Bytes := [];
    var analyzed, carry := 0, [];
    var i := 0;
    JoinsStart(input);
    NothingCut(c, stride);
    NothingCounted();
    while i < |input| && input[i] != Some([])
      invariant i <= |input| && Cut(c, stride, t, done, carry, all) && Joins(input, i, all)
      invariant analyzed == |all| && Counted(h, all)
    {
      if input[i].None? {
        JoinsEnd(input, i, all);
        return Err(CannotRead);
      }
      var chunk := input[i].value;
      JoinsNext(input, i, all);
      analyzed := analyzed + |chunk|;
      CountChunk(h, chunk, all);
      Associate(Flatten(done), carry, chunk);
      t, carry, done := TakeBlocks(c, stride, carry + chunk, t, done);
      all := all + chunk;
      i := i + 1;
    }
    JoinsEnd(input, i, all);
    CutAll(c, stride, t, done, carry, all);
    if carry != [] {
      t := WithBlock(c, stride, t, carry);
    }
    if analyzed != fileSize {
      return Err(SizeChanged);
    }
    assert h[..] == Histogram(all);
    var truncated := |t.reported| < |t.entropies|;
    r := Ok(Report(fileSize, |t.entropies|, t.high, t.entropies, h[..], t.reported, truncated, stride));
  }

  lemma NothingCut(c: Config, stride: nat)
    requires c.Valid() && stride > 0
    ensures Cut(c, stride, Tally([], 0, []), [], [], [])
  {
  }

  lemma NothingCounted()
    ensures forall b: nat :: Count([], b) == 0
  {
  }

  lemma {:induction false} CountConcat(a: Bytes, b: Bytes, v: nat)
    ensures Count(a + b, v) == Count(a, v) + Count(b, v)
  {
    if b == [] {
      assert a + b == a;
    } else {
      var n := |b| - 1;
      assert (a + b)[..|a + b| - 1] == a + b[..n];
      CountConcat(a, b[..n], v);
    }
  }

  lemma CarryOnly(carry: Bytes, size: int)
    requires |carry| < size
    ensures Blocks(Flatten([]) + carry, size) == if carry == [] then [] else [carry]
  {
    assert Flatten([]) + carry == carry;
  }

  /** Full blocks and a shorter rest are exactly the blocks of their concatenation. */
  lemma {:induction false} BlocksOf(done: seq<Bytes>, carry: Bytes, size: int)
    requires size > 0 && AllFull(done, size) && |carry| < size
    ensures Blocks(Flatten(done) + carry, size) == if carry == [] then done else done + [carry]
    decreases |done|
  {
    if done == [] {
      CarryOnly(carry, size);
    } else {
      hide Flatten, Blocks;
      FlattenFront(done);
      BlocksOf(done[1..], carry, size);
      Associate(done[0], Flatten(done[1..]), carry);
      FirstBlock(done[0], Flatten(done[1..]) + carry, size);
      assert done == [done[0]] + done[1..];
      assert [done[0]] + (done[1..] + [carry]) == done + [carry];
    }
  }

  lemma FirstBlock(first: Bytes, rest: Bytes, size: int)
    requires size > 0 && |first| == size
    ensures Blocks(first + rest, size) == [first] + Blocks(rest, size)
  {
    var all := first + rest;
    assert all[..size] == first && all[size..] == rest;
    if rest == [] {
      assert all == first;
      assert [first] + Blocks(rest, size) == [first];
    }
  }

  lemma {:induction false} FlattenFront(parts: seq<Bytes>)
    requires parts != []
    ensures Flatten(parts) == parts[0] + Flatten(parts[1..])
  {
    var n := |parts| - 1;
    if n > 0 {
      FlattenFront(parts[..n]);
      assert parts[..n][1..] == parts[1..][..n - 1];
    } else {
      assert parts[..0] == [];
    }
  }

  // ------------------------------------------------------------ what the blocks are

  /** There are ceil(n / size) blocks; block i is bytes i*size up to (i+1)*size or the end. */
  lemma {:induction false} BlockBounds(data: Bytes, size: int, i: nat)
    requires size > 0 && i < |Blocks(data, size)|
    ensures i * size < |data| && Blocks(data, size)[i] == data[i * size..Min((i + 1) * size, |data|)]
    decreases |data|
  {
    if |data| > size && i > 0 {
      BlockBounds(data[size..], size, i - 1);
      assert (i - 1) * size + size == i * size;
      Shifted(data, size, (i - 1) * size, Min(i * size, |data| - size));
    }
  }

  lemma Shifted(data: Bytes, n: nat, a: nat, b: nat)
    requires n <= |data| && a <= b <= |data| - n
    ensures data[n..][a..b] == data[n + a..n + b]
  {
  }

  lemma {:induction false} BlockCount(data: Bytes, size: int)
    requires size > 0
    ensures |Blocks(data, size)| == CeilDiv(|data|, size)
    decreases |data|
  {
    if |data| > size {
      BlockCount(data[size..], size);
      CeilStep(|data|, size);
    } else {
      CeilSmall(|data|, size);
    }
  }

  lemma CeilStep(n: nat, size: int)
    requires n > size > 0
    ensures CeilDiv(n, size) == CeilDiv(n - size, size) + 1
  {
    hide CeilDiv;
    var q := CeilDiv(n - size, size);
    CeilMeaning(n - size, size);
    Successor(q, size);
    CeilUnique(n, size, q + 1);
  }

  lemma CeilSmall(n: nat, size: int)
    requires size > 0 && n <= size
    ensures CeilDiv(n, size) == if n == 0 then 0 else 1
  {
    hide CeilDiv;
    CeilUnique(n, size, if n == 0 then 0 else 1);
  }

  /** The ceiling is the only k whose multiple reaches n while the one before does not. */
  lemma CeilUnique(n: nat, size: int, k: nat)
    requires size > 0 && k * size >= n && (k > 0 ==> (k - 1) * size < n)
    ensures CeilDiv(n, size) == k
  {
    hide CeilDiv;
    var q := CeilDiv(n, size);
    CeilMeaning(n, size);
    if q < k {
      MulMono(q, k - 1, size);
    }
    if k < q {
      MulMono(k, q - 1, size);
    }
  }

  lemma CeilMeaning(n: nat, size: int)
    requires size > 0
    ensures CeilDiv(n, size) * size >= n && (CeilDiv(n, size) > 0 ==> (CeilDiv(n, size) - 1) * size < n)
  {
    DivBounds(n + size - 1, size);
    Successor(CeilDiv(n, size), size);
  }

  lemma BlocksStep(data: Bytes, size: int)
    requires 0 < size < |data|
    ensures Blocks(data, size) == [data[..size]] + Blocks(data[size..], size)
  {
  }

  lemma FlattenCons(a: Bytes, parts: seq<Bytes>)
    ensures Flatten([a] + parts) == a + Flatten(parts)
  {
    hide Flatten;
    assert ([a] + parts)[1..] == parts;
    FlattenFront([a] + parts);
  }

  lemma CutRejoins(data: Bytes, i: nat)
    requires i <= |data|
    ensures data[..i] + data[i..] == data
  {
  }

  lemma {:induction false} BlocksJoin(data: Bytes, size: int)
    requires size > 0
    ensures Flatten(Blocks(data, size)) == data
    decreases |data|
  {
    if |data| > size {
      hide *;
      BlocksStep(data, size);
      BlocksJoin(data[size..], size);
      FlattenCons(data[..size], Blocks(data[size..], size));
      CutRejoins(data, size);
    } else if data != [] {
      assert [data][..0] == [];
    }
  }

  function SumOver(blocks: seq<Bytes>, b: nat): nat {
    if blocks == [] then 0 else SumOver(blocks[..|blocks| - 1], b) + Count(blocks[|blocks| - 1], b)
  }

  lemma {:induction false} CountFlatten(blocks: seq<Bytes>, b: nat)
    ensures Count(Flatten(blocks), b) == SumOver(blocks, b)
  {
    if blocks != [] {
      var n := |blocks| - 1;
      CountFlatten(blocks[..n], b);
      CountConcat(Flatten(blocks[..n]), blocks[n], b);
    }
  }

  /** The whole-file histogram is the sum of the block histograms. */
  lemma HistogramAdds(data: Bytes, size: int, b: nat)
    requires size > 0 && b < 256
    ensures Histogram(data)[b] == SumOver(Blocks(data, size), b)
  {
    BlocksJoin(data, size);
    CountFlatten(Blocks(data, size), b);
  }

  // ------------------------------------------------------------ the report

  lemma {:induction false} TallyShape(c: Config, stride: nat, blocks: seq<Bytes>)
    requires c.Valid() && stride > 0
    ensures var t := TallyOf(c, stride, blocks);
      && |t.entropies| == |blocks| && |t.reported| == CeilDiv(|blocks|, stride)
    ensures forall i | 0 <= i < |blocks| :: TallyOf(c, stride, blocks).entropies[i] == c.entropy(blocks[i])
  {
    if blocks == [] {
      CeilSmall(0, stride);
    } else {
      var n := |blocks| - 1;
      TallyShape(c, stride, blocks[..n]);
      CeilNext(n, stride);
    }
  }

  lemma Remainder(n: nat, stride: nat)
    requires stride > 0
    ensures n % stride == n - n / stride * stride
  {
  }

  lemma CeilNext(n: nat, stride: nat)
    requires stride > 0
    ensures CeilDiv(n + 1, stride) == CeilDiv(n, stride) + if n % stride == 0 then 1 else 0
  {
    hide CeilDiv;
    var q := n / stride;
    DivBounds(n, stride);
    Remainder(n, stride);
    Successor(q, stride);
    CeilUnique(n + 1, stride, q + 1);
    CeilUnique(n, stride, if n % stride == 0 then q else q + 1);
  }

  /** The reported samples are exactly the blocks whose index is a multiple of the stride, in order. */
  lemma {:induction false} ReportedExactly(c: Config, stride: nat, blocks: seq<Bytes>, k: nat)
    requires c.Valid() && stride > 0 && k < |TallyOf(c, stride, blocks).reported|
    ensures k * stride < |blocks|
    ensures TallyOf(c, stride, blocks).reported[k] == SampleOf(c, k * stride, blocks[k * stride])
  {
    var n := |blocks| - 1;
    var before := TallyOf(c, stride, blocks[..n]);
    TallyShape(c, stride, blocks[..n]);
    if k < |before.reported| {
      ReportedExactly(c, stride, blocks[..n], k);
    } else {
      CeilExact(n, stride);
    }
  }

  lemma CeilExact(n: nat, stride: nat)
    requires stride > 0 && n % stride == 0
    ensures CeilDiv(n, stride) * stride == n
  {
    hide CeilDiv;
    Remainder(n, stride);
    Successor(n / stride, stride);
    CeilUnique(n, stride, n / stride);
  }

  /** Never more than the configured number of samples, and truncated exactly when the stride skips blocks. */
  lemma ReportBounded(c: Config, data: Bytes)
    requires c.Valid()
    ensures |ReportOf(c, data).reported| <= c.maxReported
    ensures ReportOf(c, data).truncated <==> ReportOf(c, data).stride > 1
    ensures ReportOf(c, data).blockCount == CeilDiv(|data|, c.blockSize)
  {
    var n, k := CeilDiv(|data|, c.blockSize), Stride(c, |data|);
    BlockCount(data, c.blockSize);
    TallyShape(c, k, Blocks(data, c.blockSize));
    StrideFits(n, c.maxReported);
    if k == 1 {
      CeilUnique(n, 1, n);
    } else {
      StrideSkips(n, k, c.maxReported);
    }
  }

  lemma StrideFits(n: nat, most: int)
    requires most > 0
    ensures CeilDiv(n, Max(1, CeilDiv(n, most))) <= most
  {
    hide CeilDiv;
    var k := Max(1, CeilDiv(n, most));
    var q := CeilDiv(n, k);
    CeilMeaning(n, most);
    CeilMeaning(n, k);
    MulMono(CeilDiv(n, most), k, most);
    if q > most {
      MulMono(most, q - 1, k);
    }
  }

  lemma StrideSkips(n: nat, k: nat, most: int)
    requires most > 0 && k == Max(1, CeilDiv(n, most)) && k > 1
    ensures CeilDiv(n, k) < n
  {
    hide CeilDiv;
    var q := CeilDiv(n, k);
    CeilMeaning(n, most);
    CeilMeaning(n, k);
    MulMono(1, k - 1, most);
    if q >= n {
      MulMono(n - 1, q - 1, k);
      MulMono(2, k, n - 1);
    }
  }

  // ------------------------------------------------------------ what the report says

  /** The blocks whose entropy reaches the threshold. */
  function HighBlocks(c: Config, blocks: seq<Bytes>): set<nat> {
    set i: nat | i < |blocks| && c.threshold <= c.entropy(blocks[i])
  }

  lemma HighSnoc(c: Config, blocks: seq<Bytes>)
    requires blocks != []
    ensures var n := |blocks| - 1;
      |HighBlocks(c, blocks)| == |HighBlocks(c, blocks[..n])| + if c.threshold <= c.entropy(blocks[n]) then 1 else 0
  {
    var n := |blocks| - 1;
    var before := HighBlocks(c, blocks[..n]);
    assert n !in before;
    assert HighBlocks(c, blocks) == if c.threshold <= c.entropy(blocks[n]) then before + {n} else before;
  }

  lemma {:induction false} HighMeaning(c: Config, stride: nat, blocks: seq<Bytes>)
    requires c.Valid() && stride > 0
    ensures var t := TallyOf(c, stride, blocks);
      && |t.entropies| == |blocks| && (forall i | 0 <= i < |blocks| :: t.entropies[i] == c.entropy(blocks[i]))
      && t.high == |HighBlocks(c, blocks)|
  {
    if blocks == [] {
      assert HighBlocks(c, blocks) == {};
    } else {
      hide HighBlocks;
      HighMeaning(c, stride, blocks[..|blocks| - 1]);
      HighSnoc(c, blocks);
    }
  }

  lemma {:induction false} CountMeaning(data: Bytes, b: Byte)
    ensures Count(data, b as nat) == multiset(data)[b]
  {
    if data != [] {
      var n := |data| - 1;
      CountMeaning(data[..n], b);
      assert data == data[..n] + [data[n]];
    }
  }

  /** The stride is the least one with which the samples fit. */
  lemma StrideLeast(c: Config, fileSize: nat, k: nat)
    requires c.Valid() && 1 <= k < Stride(c, fileSize)
    ensures k * c.maxReported < CeilDiv(fileSize, c.blockSize)
  {
    hide CeilDiv;
    var n := CeilDiv(fileSize, c.blockSize);
    CeilMeaning(n, c.maxReported);
    MulMono(k, CeilDiv(n, c.maxReported) - 1, c.maxReported);
  }

  /** A sample that stands for the block at this position of the file. */
  predicate Samples(c: Config, data: Bytes, s: Sample, i: nat)
    requires c.Valid()
  {
    var at := i * c.blockSize;
    && s.index == i && s.offset == at && at < |data|
    && s.size == (if |data| - at < c.blockSize then |data| - at else c.blockSize)
    && s.entropy == c.entropy(data[at..at + s.size])
    && (s.above <==> c.threshold <= s.entropy)
  }

  lemma SampleIs(c: Config, data: Bytes, stride: nat, k: nat)
    requires c.Valid() && stride > 0 && k < |TallyOf(c, stride, Blocks(data, c.blockSize)).reported|
    ensures Samples(c, data, TallyOf(c, stride, Blocks(data, c.blockSize)).reported[k], k * stride)
  {
    hide TallyOf, Blocks;
    ReportedExactly(c, stride, Blocks(data, c.blockSize), k);
    BlockBounds(data, c.blockSize, k * stride);
  }

  /**
   The whole report, of the bytes of the file: every block's entropy, how many reach the
   threshold, how often each byte occurs, and each sample at its place.
   */
  lemma ReportMeaning(c: Config, data: Bytes)
    requires c.Valid()
    ensures var r, blocks := ReportOf(c, data), Blocks(data, c.blockSize);
      && r.fileSize == |data| && r.blockCount == |blocks| && |r.entropies| == |blocks|
      && (forall i | 0 <= i < |blocks| :: r.entropies[i] == c.entropy(blocks[i]))
      && r.highCount == |HighBlocks(c, blocks)|
      && |r.histogram| == 256 && (forall b: Byte :: r.histogram[b] == multiset(data)[b])
      && (forall k | 0 <= k < |r.reported| :: Samples(c, data, r.reported[k], k * r.stride))
  {
    hide TallyOf, Blocks, Count, Stride, Samples;
    var stride, blocks := Stride(c, |data|), Blocks(data, c.blockSize);
    HighMeaning(c, stride, blocks);
    forall b: Byte ensures Histogram(data)[b] == multiset(data)[b] {
      CountMeaning(data, b);
    }
    var t := TallyOf(c, stride, blocks);
    forall k | 0 <= k < |t.reported| ensures Samples(c, data, t.reported[k], k * stride) {
      SampleIs(c, data, stride, k);
    }
  }
}

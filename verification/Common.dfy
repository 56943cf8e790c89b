/** Small datatypes shared by every module of the model. */
module Common {

  datatype Option<+T> = None | Some(value: T)

  datatype Result<+T, +E> = Ok(value: T) | Err(error: E)

  /** One octet of a file, a socket or a kernel buffer. */
  type Byte = b: int | 0 <= b < 256

  type Bytes = seq<Byte>

  function Min(a: int, b: int): int {
    if a <= b then a else b
  }

  function Max(a: int, b: int): int {
    if a <= b then b else a
  }

  // ------------------------------------------------------------ lists

  /** The first element that satisfies p, or the length when none does. */
  function FirstWhere<T>(s: seq<T>, p: T -> bool): (i: nat)
    ensures i <= |s|
    ensures i < |s| ==> p(s[i])
    ensures forall j | 0 <= j < i :: !p(s[j])
  {
    if s == [] || p(s[0]) then 0
    else
      var i := 1 + FirstWhere(s[1..], p);
      assert forall j | 1 <= j < |s| :: s[j] == s[1..][j - 1];
      i
  }

  /** The first of the elements with the least key, as Python's min returns it. */
  function LeastBy<T>(s: seq<T>, key: T -> real): (i: nat)
    requires s != []
    ensures i < |s|
    ensures forall j | 0 <= j < |s| :: key(s[i]) <= key(s[j])
    ensures forall j | 0 <= j < i :: key(s[i]) < key(s[j])
  {
    var n := |s| - 1;
    if n == 0 then 0
    else
      var i := LeastBy(s[..n], key);
      if key(s[n]) < key(s[i]) then n else i
  }

  function RemoveAt<T>(s: seq<T>, i: nat): seq<T>
    requires i < |s|
  {
    s[..i] + s[i + 1..]
  }

  lemma Associate<T>(a: seq<T>, b: seq<T>, c: seq<T>)
    ensures a + (b + c) == (a + b) + c
  {
  }
}

/** Little-endian unsigned fields, as Python's struct reads and writes them. */
module LittleEndian {
  import opened Common

  function U16(b: Bytes, i: nat): (n: nat)
    requires i + 2 <= |b|
    ensures n < 0x1_0000
  {
    b[i] as nat + 256 * b[i + 1] as nat
  }

  function U32(b: Bytes, i: nat): (n: nat)
    requires i + 4 <= |b|
    ensures n < 0x1_0000_0000
  {
    U16(b, i) + 0x1_0000 * U16(b, i + 2)
  }

  function P16(n: nat): (b: Bytes)
    requires n < 0x1_0000
    ensures |b| == 2 && U16(b, 0) == n
  {
    [n % 256, n / 256]
  }

  function P32(n: nat): (b: Bytes)
    requires n < 0x1_0000_0000
    ensures |b| == 4 && U32(b, 0) == n
  {
    P16(n % 0x1_0000) + P16(n / 0x1_0000)
  }

  /** A field is read the same wherever its bytes stand. */
  lemma U32At(a: Bytes, n: nat, rest: Bytes)
    requires n < 0x1_0000_0000
    ensures U32(a + P32(n) + rest, |a|) == n
  {
    var all := a + P32(n) + rest;
    assert forall k | 0 <= k < 4 :: all[|a| + k] == P32(n)[k];
  }

  lemma U16At(a: Bytes, n: nat, rest: Bytes)
    requires n < 0x1_0000
    ensures U16(a + P16(n) + rest, |a|) == n
  {
    var all := a + P16(n) + rest;
    assert forall k | 0 <= k < 2 :: all[|a| + k] == P16(n)[k];
  }
}

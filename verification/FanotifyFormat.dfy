/** The kernel's event records written out field by field, and read back. */
module FanotifyFormat {
  import opened Common
  import opened LittleEndian
  import opened Fanotify

  /** struct fanotify_event_metadata, followed by whatever the record's length adds. */
  datatype Raw = Raw(version: Byte, reserved: Byte, maskLow: nat, maskHigh: nat, fd: int, pid: int, extra: Bytes)

  predicate InRange(r: Raw) {
    && r.maskLow < 0x1_0000_0000 && r.maskHigh < 0x1_0000_0000
    && -0x8000_0000 <= r.fd < 0x8000_0000 && -0x8000_0000 <= r.pid < 0x8000_0000
    && |r.extra| + 24 < 0x1_0000_0000
  }

  /** A signed field in two's complement. */
  function PS32(n: int): Bytes
    requires -0x8000_0000 <= n < 0x8000_0000
  {
    P32(if n < 0 then n + 0x1_0000_0000 else n)
  }

  function Print(r: Raw): (b: Bytes)
    requires InRange(r)
    ensures |b| == 24 + |r.extra|
  {
    P32(24 + |r.extra|) + [r.version, r.reserved] + P16(24) + P32(r.maskLow) + P32(r.maskHigh) + PS32(r.fd) +
    PS32(r.pid) + r.extra
  }

  function PrintAll(rs: seq<Raw>): Bytes
    requires forall i | 0 <= i < |rs| :: InRange(rs[i])
  {
    if rs == [] then [] else Print(rs[0]) + PrintAll(rs[1..])
  }

  /** The event that a record of whole length stands for. */
  function Meant(r: Raw, path: int -> Option<string>): Event
    requires InRange(r)
  {
    var link := if r.fd >= 0 then path(r.fd) else None;
    Event(r.fd, r.pid, link, r.maskLow + 0x1_0000_0000 * r.maskHigh, 24 + |r.extra|,
          if r.version != 3 then Some(UnsupportedVersion)
          else if r.fd >= 0 && link == None then Some(PathUnavailable)
          else None)
  }

  function MeantAll(rs: seq<Raw>, path: int -> Option<string>): seq<Event>
    requires forall i | 0 <= i < |rs| :: InRange(rs[i])
  {
    if rs == [] then [] else [Meant(rs[0], path)] + MeantAll(rs[1..], path)
  }

  lemma SignedReadsBack(a: Bytes, n: int, rest: Bytes)
    requires -0x8000_0000 <= n < 0x8000_0000
    ensures S32(a + PS32(n) + rest, |a|) == n
  {
    U32At(a, if n < 0 then n + 0x1_0000_0000 else n, rest);
  }

  lemma FirstHalf(length: nat, v: Bytes, m: nat, low: nat, tail: Bytes)
    requires length < 0x1_0000_0000 && |v| == 2 && m < 0x1_0000 && low < 0x1_0000_0000
    ensures var b := P32(length) + v + P16(m) + P32(low) + tail;
      U32(b, 0) == length && b[4] == v[0] && U16(b, 6) == m && U32(b, 8) == low
  {
    hide P16, P32, U16, U32;
    var l, p, q := P32(length), P16(m), P32(low);
    var b := l + v + p + q + tail;
    assert b == [] + l + (v + p + q + tail);
    U32At([], length, v + p + q + tail);
    assert b == (l + v) + p + (q + tail);
    U16At(l + v, m, q + tail);
    U32At(l + v + p, low, tail);
  }

  lemma SecondHalf(head: Bytes, high: nat, fd: int, pid: int, tail: Bytes)
    requires |head| == 12 && high < 0x1_0000_0000
    requires -0x8000_0000 <= fd < 0x8000_0000 && -0x8000_0000 <= pid < 0x8000_0000
    ensures var b := head + P32(high) + PS32(fd) + PS32(pid) + tail;
      && |b| >= 24 && U32(b, 12) == high && S32(b, 16) == fd && S32(b, 20) == pid
  {
    hide P32, PS32, S32, U32;
    var h, f, p := P32(high), PS32(fd), PS32(pid);
    SignedSize(fd);
    SignedSize(pid);
    var b := head + h + f + p + tail;
    assert b == head + h + (f + p + tail);
    U32At(head, high, f + p + tail);
    assert b == (head + h) + f + (p + tail);
    SignedReadsBack(head + h, fd, p + tail);
    SignedReadsBack(head + h + f, pid, tail);
  }

  /** Every field of a record is read from its place, whatever follows the record. */
  lemma FieldsReadBack(r: Raw, rest: Bytes)
    requires InRange(r)
    ensures var b := Print(r) + rest;
      && U32(b, 0) == 24 + |r.extra| && b[4] == r.version && U16(b, 6) == 24
      && U32(b, 8) == r.maskLow && U32(b, 12) == r.maskHigh && S32(b, 16) == r.fd && S32(b, 20) == r.pid
  {
    hide P16, P32, PS32, U16, U32, S32;
    var v: Bytes := [r.version, r.reserved];
    var head := P32(24 + |r.extra|) + v + P16(24) + P32(r.maskLow);
    var more := P32(r.maskHigh) + PS32(r.fd) + PS32(r.pid) + (r.extra + rest);
    FirstHalf(24 + |r.extra|, v, 24, r.maskLow, more);
    SecondHalf(head, r.maskHigh, r.fd, r.pid, r.extra + rest);
    assert Print(r) + rest == head + more;
    assert Print(r) + rest == head + P32(r.maskHigh) + PS32(r.fd) + PS32(r.pid) + (r.extra + rest);
  }

  lemma SignedSize(n: int)
    requires -0x8000_0000 <= n < 0x8000_0000
    ensures |PS32(n)| == 4
  {
  }

  lemma FirstReadsBack(r: Raw, rest: Bytes, path: int -> Option<string>)
    requires InRange(r)
    ensures var b := Print(r) + rest;
      FirstEvent(b, path) == Meant(r, path) && Advance(b) == 24 + |r.extra| && b[Advance(b)..] == rest
  {
    hide Print, U16, U32, S32;
    FieldsReadBack(r, rest);
  }

  /** A buffer of whole records is parsed into the events they stand for. */
  lemma {:induction false} EventsReadBack(rs: seq<Raw>, path: int -> Option<string>)
    requires forall i | 0 <= i < |rs| :: InRange(rs[i])
    ensures Parsed(PrintAll(rs), path) == MeantAll(rs, path)
  {
    if rs != [] {
      hide Print, FirstEvent, Advance, Meant;
      FirstReadsBack(rs[0], PrintAll(rs[1..]), path);
      EventsReadBack(rs[1..], path);
    }
  }

  /** Which events are permission requests, and which report an overflow: single bits of the mask. */
  lemma MaskMeaning(e: Event)
    ensures Overflow(e) <==> e.mask / 16384 % 2 == 1
    ensures Permission(e) <==> e.mask / 262144 % 2 == 1 && e.mask / 16384 % 2 == 0 && e.fd >= 0
  {
  }

  /**
   What any buffer of at least one header begins with, whole or not: the first of an unknown
   version, a length below the header's, a length beyond the buffer and an
   unreadable link is the event's error, and the event takes what is there.
   */
  lemma FirstMeaning(b: Bytes, path: int -> Option<string>)
    requires |b| >= 24
    ensures var e, length := FirstEvent(b, path), U32(b, 0);
      var small := length < 24 || U16(b, 6) < 24;
      && e.length == Advance(b) == (if small then 24 else if length > |b| then |b| else length)
      && e.path == (if e.fd >= 0 then path(e.fd) else None)
      && e.error == if b[4] != 3 then Some(UnsupportedVersion)
                    else if small then Some(InvalidLength)
                    else if length > |b| then Some(Truncated)
                    else if e.fd >= 0 && path(e.fd) == None then Some(PathUnavailable)
                    else None
  {
    hide U32, U16, S32, U64;
  }
}

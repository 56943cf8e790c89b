/** Newline framing on the daemon's socket: how the stream is cut must not matter. */
module Ipc {
  import opened Common

  const MAX_REQUEST_BYTES: nat := 65536
  const RECEIVE_BYTES: nat := 4096
  const LF: Byte := 10

  /** How a connection ends: the peer closes, a receive times out or is reset, or the server stops. */
  datatype Ending = Closed | TimedOut | Reset | Stopped

  /**
   One response: to a request line, or one of the framing errors. `TooLargeAfterLine`
   sends what `TooLarge` sends; the name marks the check that sends it.
   */
  datatype Event = Line(raw: Bytes) | TooLarge | TooLargeAfterLine | Incomplete | Timeout

  // ------------------------------------------------------------ the newline-split stream

  function NewlineAt(s: Bytes): (n: nat)
    ensures n <= |s|
    ensures forall i | 0 <= i < n :: s[i] != LF
    ensures n < |s| ==> s[n] == LF
  {
    if s == [] || s[0] == LF then 0
    else
      var n := 1 + NewlineAt(s[1..]);
      assert forall i | 1 <= i < |s| :: s[i] == s[1..][i - 1];
      n
  }

  predicate HasNewline(s: Bytes) {
    NewlineAt(s) < |s|
  }

  function Lines(s: Bytes): seq<Bytes>
    decreases |s|
  {
    var n := NewlineAt(s);
    if n == |s| then [] else [s[..n]] + Lines(s[n + 1..])
  }

  function Rest(s: Bytes): Bytes
    decreases |s|
  {
    var n := NewlineAt(s);
    if n == |s| then s else Rest(s[n + 1..])
  }

  /** The response to a complete line: the decoder refuses one over the limit with the words of the framing. */
  function Answer(raw: Bytes): Event {
    if |raw| > MAX_REQUEST_BYTES then TooLarge else Line(raw)
  }

  function Requests(lines: seq<Bytes>): seq<Event> {
    seq(|lines|, i requires 0 <= i < |lines| => Answer(lines[i]))
  }

  function AtEnd(rest: Bytes, ending: Ending): seq<Event> {
    match ending
    case Closed => if rest == [] then [] else [Incomplete]
    case TimedOut => [Timeout]
    case Reset => []
    case Stopped => []
  }

  /** The responses a stream deserves, whatever chunks it came in. */
  function Whole(data: Bytes, ending: Ending): seq<Event> {
    Requests(Lines(data)) + AtEnd(Rest(data), ending)
  }

  predicate WithinLimits(data: Bytes) {
    |Rest(data)| <= MAX_REQUEST_BYTES && forall l | l in Lines(data) :: |l| <= MAX_REQUEST_BYTES
  }

  function Flatten(chunks: seq<Bytes>): Bytes {
    if chunks == [] then [] else chunks[0] + Flatten(chunks[1..])
  }

  predicate Received(chunks: seq<Bytes>) {
    forall i | 0 <= i < |chunks| :: 1 <= |chunks[i]| <= RECEIVE_BYTES
  }

  // ------------------------------------------------------------ chunk by chunk

  /** The responses chunk by chunk, as if every send succeeded. */
  function Framed(buffer: Bytes, chunks: seq<Bytes>, ending: Ending): seq<Event>
    decreases |chunks|
  {
    if chunks == [] then AtEnd(buffer, ending)
    else
      var b := buffer + chunks[0];
      if |b| > MAX_REQUEST_BYTES && !HasNewline(b) then [TooLarge]
      else Requests(Lines(b)) + Framed(Rest(b), chunks[1..], ending)
  }

  /** The conversation stops after the first response that cannot be sent. */
  function Sent(events: seq<Event>, delivers: nat -> bool): seq<Event> {
    if events == [] then []
    else
      var n := |events| - 1;
      var before := Sent(events[..n], delivers);
      if |before| == n && (n > 0 ==> delivers(n - 1)) then events else before
  }

  predicate AllSent(k: nat, delivers: nat -> bool) {
    forall i: nat | i < k :: delivers(i)
  }

  lemma {:induction false} SentAll(events: seq<Event>, delivers: nat -> bool)
    requires events == [] || AllSent(|events| - 1, delivers)
    ensures Sent(events, delivers) == events
  {
    if |events| > 0 {
      SentAll(events[..|events| - 1], delivers);
    }
  }

  /** Nothing follows the first failure. */
  lemma {:induction false} SentStops(events: seq<Event>, rest: seq<Event>, delivers: nat -> bool)
    requires events != [] && AllSent(|events| - 1, delivers) && !delivers(|events| - 1)
    ensures Sent(events + rest, delivers) == events
  {
    if rest == [] {
      assert events + rest == events;
      SentAll(events, delivers);
    } else {
      var n := |rest| - 1;
      SentStops(events, rest[..n], delivers);
      assert (events + rest)[..|events + rest| - 1] == events + rest[..n];
    }
  }

  // ------------------------------------------------------------ the connection loop

  /** Answer every complete line in the buffer, as the inner loop does. */
  method AnswerLines(buffer0: Bytes, events0: seq<Event>, delivers: nat -> bool, ghost later: seq<Event>)
    returns (buffer: Bytes, events: seq<Event>, open: bool)
    requires AllSent(|events0|, delivers)
    requires HasNewline(buffer0) ==> |buffer0| - NewlineAt(buffer0) <= RECEIVE_BYTES
    ensures open ==> events == events0 + Requests(Lines(buffer0)) && buffer == Rest(buffer0) && !HasNewline(buffer)
    ensures open ==> AllSent(|events|, delivers)
    ensures !open ==> events == Sent(events0 + Requests(Lines(buffer0)) + later, delivers)
    ensures TooLargeAfterLine !in events0 ==> TooLargeAfterLine !in events
  {
    hide Lines, Rest, Requests, Sent, AllSent;
    buffer, events, open := buffer0, events0, true;
    while HasNewline(buffer)
      invariant events0 + Requests(Lines(buffer0)) == events + Requests(Lines(buffer))
      invariant Rest(buffer) == Rest(buffer0) && AllSent(|events|, delivers)
      invariant HasNewline(buffer) ==> |buffer| - NewlineAt(buffer) <= RECEIVE_BYTES
      invariant TooLargeAfterLine !in events0 ==> TooLargeAfterLine !in events
      decreases |buffer|
    {
      var n := NewlineAt(buffer);
      var raw, remainder := buffer[..n], buffer[n + 1..];
      FirstRequest(buffer);
      Associate(events, [Answer(raw)], Requests(Lines(remainder)));
      AllSentNext(|events|, delivers);
      events := events + [Answer(raw)];
      buffer := remainder;
      if !delivers(|events| - 1) {
        Associate(events, Requests(Lines(remainder)), later);
        SentStops(events, Requests(Lines(remainder)) + later, delivers);
        return buffer, events, false;
      }
      if |buffer| > MAX_REQUEST_BYTES {
        events := events + [TooLargeAfterLine];
        return buffer, events, false;
      }
    }
    NoLines(buffer);
    assert events + [] == events;
  }

  lemma AllSentNext(k: nat, delivers: nat -> bool)
    requires AllSent(k, delivers)
    ensures delivers(k) ==> AllSent(k + 1, delivers)
  {
  }

  lemma NoLines(s: Bytes)
    requires !HasNewline(s)
    ensures Lines(s) == [] && Requests(Lines(s)) == [] && Rest(s) == s
  {
  }

  lemma FirstRequest(s: Bytes)
    requires HasNewline(s)
    ensures var n := NewlineAt(s);
      Requests(Lines(s)) == [Answer(s[..n])] + Requests(Lines(s[n + 1..])) && Rest(s) == Rest(s[n + 1..])
  {
    hide Requests;
    RequestsFront(s[..NewlineAt(s)], Lines(s[NewlineAt(s) + 1..]));
  }

  lemma RequestsFront(l: Bytes, ls: seq<Bytes>)
    ensures Requests([l] + ls) == [Answer(l)] + Requests(ls)
  {
  }

  /**
   One client connection. The buffer never exceeds the limit by more than one
   receive, the size check after a line never fires, and the responses are those
   of the chunk-by-chunk form up to the first one that cannot be sent.
   */
  method HandleClient(chunks: seq<Bytes>, ending: Ending, delivers: nat -> bool) returns (events: seq<Event>)
    requires Received(chunks)
    ensures events == Sent(Framed([], chunks, ending), delivers)
    ensures TooLargeAfterLine !in events
  {
    hide Sent, Lines, Rest, Requests, AllSent;
    var buffer: Bytes := [];
    events := [];
    var i := 0;
    NothingSent(delivers);
    assert chunks[0..] == chunks;
    assert events + Framed([], chunks, ending) == Framed([], chunks, ending);
    while i < |chunks|
      invariant i <= |chunks| && !HasNewline(buffer) && |buffer| <= MAX_REQUEST_BYTES
      invariant AllSent(|events|, delivers) && TooLargeAfterLine !in events
      invariant Framed([], chunks, ending) == events + Framed(buffer, chunks[i..], ending)
    {
      var chunk := chunks[i];
      assert chunks[i..][0] == chunk && chunks[i..][1..] == chunks[i + 1..];
      ghost var before := buffer;
      buffer := buffer + chunk;
      assert |buffer| <= MAX_REQUEST_BYTES + RECEIVE_BYTES;
      if |buffer| > MAX_REQUEST_BYTES && !HasNewline(buffer) {
        SentLast(events, TooLarge, delivers);
        return events + [TooLarge];
      }
      LateNewline(before, chunk);
      ghost var later := Framed(Rest(buffer), chunks[i + 1..], ending);
      assert events + (Requests(Lines(buffer)) + later) == events + Requests(Lines(buffer)) + later;
      RestBound(buffer);
      var open;
      buffer, events, open := AnswerLines(buffer, events, delivers, later);
      if !open {
        return;
      }
      i := i + 1;
    }
    assert chunks[i..] == [];
    if ending.Closed? && buffer != [] {
      SentLast(events, Incomplete, delivers);
      return events + [Incomplete];
    }
    if ending.TimedOut? {
      SentLast(events, Timeout, delivers);
      return events + [Timeout];
    }
    assert events + [] == events;
    SentEnough(events, delivers);
  }

  lemma NothingSent(delivers: nat -> bool)
    ensures AllSent(0, delivers)
  {
  }

  lemma SentLast(events: seq<Event>, e: Event, delivers: nat -> bool)
    requires AllSent(|events|, delivers)
    ensures Sent(events + [e], delivers) == events + [e]
  {
    SentAll(events + [e], delivers);
  }

  lemma SentEnough(events: seq<Event>, delivers: nat -> bool)
    requires AllSent(|events|, delivers)
    ensures Sent(events, delivers) == events
  {
    SentAll(events, delivers);
  }

  /** A newline that was not in the old buffer is in the new chunk. */
  lemma LateNewline(buffer: Bytes, chunk: Bytes)
    requires !HasNewline(buffer) && |chunk| <= RECEIVE_BYTES
    ensures HasNewline(buffer + chunk) ==> |buffer + chunk| - NewlineAt(buffer + chunk) <= RECEIVE_BYTES
  {
    NewlineConcat(buffer, chunk);
  }

  /** What remains unanswered is short: all of the buffer if it holds no newline, else part of the last receive. */
  lemma {:induction false} RestBound(s: Bytes)
    requires HasNewline(s) ==> |s| - NewlineAt(s) <= RECEIVE_BYTES
    ensures !HasNewline(Rest(s)) && (if HasNewline(s) then |Rest(s)| < RECEIVE_BYTES else Rest(s) == s)
    decreases |s|
  {
    hide *;
    if HasNewline(s) {
      HasNewlineMeans(s);
      Unfold(s);
      RestBound(s[NewlineAt(s) + 1..]);
    } else {
      NoLines(s);
    }
  }

  // ------------------------------------------------------------ chunking does not matter

  lemma NewlineConcat(a: Bytes, b: Bytes)
    ensures NewlineAt(a + b) == if HasNewline(a) then NewlineAt(a) else |a| + NewlineAt(b)
  {
    NewlineIs(a + b, if HasNewline(a) then NewlineAt(a) else |a| + NewlineAt(b));
  }

  lemma NewlineIs(s: Bytes, n: nat)
    requires n <= |s| && (n < |s| ==> s[n] == LF) && forall i | 0 <= i < n :: s[i] != LF
    ensures NewlineAt(s) == n
  {
    hide NewlineAt;
  }

  /** Cutting after any prefix: its lines, then the lines of what it left over followed by the rest. */
  lemma {:induction false} SplitConcat(a: Bytes, b: Bytes)
    ensures Lines(a + b) == Lines(a) + Lines(Rest(a) + b) && Rest(a + b) == Rest(Rest(a) + b)
    decreases |a|
  {
    hide *;
    if !HasNewline(a) {
      NoLines(a);
      assert [] + Lines(a + b) == Lines(a + b);
    } else {
      NewlineConcat(a, b);
      HasNewlineMeans(a);
      var n := NewlineAt(a);
      Unfold(a);
      Unfold(a + b);
      var tail := a[n + 1..];
      SplitConcat(tail, b);
      Sliced(a, b, n);
      Associate([a[..n]], Lines(tail), Lines(Rest(a) + b));
    }
  }

  lemma Sliced(a: Bytes, b: Bytes, n: nat)
    requires n < |a|
    ensures (a + b)[..n] == a[..n] && (a + b)[n + 1..] == a[n + 1..] + b
  {
  }

  lemma HasNewlineMeans(s: Bytes)
    requires HasNewline(s)
    ensures NewlineAt(s) < |s|
  {
  }

  lemma Unfold(s: Bytes)
    requires NewlineAt(s) < |s|
    ensures Lines(s) == [s[..NewlineAt(s)]] + Lines(s[NewlineAt(s) + 1..]) && Rest(s) == Rest(s[NewlineAt(s) + 1..])
  {
    hide NewlineAt;
  }

  lemma RequestsConcat(a: seq<Bytes>, b: seq<Bytes>)
    ensures Requests(a + b) == Requests(a) + Requests(b)
  {
  }

  lemma WithinPrefix(a: Bytes, b: Bytes)
    requires WithinLimits(a + b)
    ensures WithinLimits(Rest(a) + b)
    ensures !HasNewline(a) ==> |a| <= MAX_REQUEST_BYTES
  {
    SplitConcat(a, b);
    if !HasNewline(a) {
      NewlineConcat(a, b);
      if HasNewline(b) {
        assert (a + b)[..NewlineAt(a + b)] in Lines(a + b);
      }
    }
  }

  lemma {:induction false} FramedWhole(buffer: Bytes, chunks: seq<Bytes>, ending: Ending)
    requires !HasNewline(buffer) && WithinLimits(buffer + Flatten(chunks))
    ensures Framed(buffer, chunks, ending) == Whole(buffer + Flatten(chunks), ending)
    decreases |chunks|
  {
    if chunks == [] {
      assert buffer + [] == buffer;
      NoLines(buffer);
    } else {
      hide *;
      var b, rest := buffer + chunks[0], Flatten(chunks[1..]);
      FlattenFirst(buffer, chunks);
      WithinPrefix(b, rest);
      FramedStep(buffer, chunks, ending);
      RestClean(b);
      FramedWhole(Rest(b), chunks[1..], ending);
      WholeStep(b, rest, ending);
    }
  }

  lemma FlattenFirst(buffer: Bytes, chunks: seq<Bytes>)
    requires chunks != []
    ensures buffer + Flatten(chunks) == (buffer + chunks[0]) + Flatten(chunks[1..])
  {
  }

  lemma FramedStep(buffer: Bytes, chunks: seq<Bytes>, ending: Ending)
    requires chunks != [] && (!HasNewline(buffer + chunks[0]) ==> |buffer + chunks[0]| <= MAX_REQUEST_BYTES)
    ensures var b := buffer + chunks[0];
      Framed(buffer, chunks, ending) == Requests(Lines(b)) + Framed(Rest(b), chunks[1..], ending)
  {
    hide Lines, Rest, Requests;
  }

  lemma WholeStep(b: Bytes, rest: Bytes, ending: Ending)
    ensures Whole(b + rest, ending) == Requests(Lines(b)) + Whole(Rest(b) + rest, ending)
  {
    hide Lines, Rest, Requests;
    SplitConcat(b, rest);
    RequestsConcat(Lines(b), Lines(Rest(b) + rest));
    Associate(Requests(Lines(b)), Requests(Lines(Rest(b) + rest)), AtEnd(Rest(b + rest), ending));
  }

  lemma {:induction false} RestClean(s: Bytes)
    ensures !HasNewline(Rest(s))
    decreases |s|
  {
    if HasNewline(s) {
      RestClean(s[NewlineAt(s) + 1..]);
    }
  }

  /**
   Any two ways of receiving one stream whose lines and remainder are within the
   limit give the same responses.
   */
  lemma ChunkingIrrelevant(a: seq<Bytes>, b: seq<Bytes>, ending: Ending)
    requires Flatten(a) == Flatten(b) && WithinLimits(Flatten(a))
    ensures Framed([], a, ending) == Framed([], b, ending) == Whole(Flatten(a), ending)
  {
    assert [] + Flatten(a) == Flatten(a);
    FramedWhole([], a, ending);
    FramedWhole([], b, ending);
  }

  lemma {:induction false} FlattenConcat(a: seq<Bytes>, b: seq<Bytes>)
    ensures Flatten(a + b) == Flatten(a) + Flatten(b)
  {
    if a == [] {
      assert a + b == b;
    } else {
      assert (a + b)[0] == a[0] && (a + b)[1..] == a[1..] + b;
      FlattenConcat(a[1..], b);
    }
  }
}

/**
 For which streams the way they are cut into receives matters: an exact answer over
 all streams, within and beyond the request limit.
 */
module IpcCutting {
  import opened Common
  import opened Ipc

  /** A line over the limit: the lines before it, its length, and what follows its newline if that ever comes. */
  datatype Overlong = Overlong(before: seq<Bytes>, size: nat, tail: Option<Bytes>)

  /** The first line or remainder of a stream that is longer than the limit. */
  function FirstOverlong(s: Bytes): Option<Overlong>
    decreases |s|
  {
    var n := NewlineAt(s);
    if n > MAX_REQUEST_BYTES then Some(Overlong([], n, if n < |s| then Some(s[n + 1..]) else None))
    else if n == |s| then None
    else
      match FirstOverlong(s[n + 1..])
      case None => None
      case Some(o) => Some(o.(before := [s[..n]] + o.before))
  }

  /** The first overlong line ends less than one receive beyond the limit. */
  predicate InBand(s: Bytes) {
    var o := FirstOverlong(s);
    o.Some? && o.value.tail.Some? && o.value.size < 65536 + 4096
  }

  /** A stream that gets any response at all. */
  predicate Answered(s: Bytes, ending: Ending) {
    HasNewline(s) || |s| > 65536 || ending.TimedOut? || (ending.Closed? && s != [])
  }

  /**
   The first overlong line ends less than one receive beyond the limit, and something
   after it is answered when the connection survives that line.
   */
  predicate CutsMatter(s: Bytes, ending: Ending) {
    InBand(s) && Answered(FirstOverlong(s).value.tail.value, ending)
  }

  /** The responses when the cut does not matter. */
  function Settled(s: Bytes, ending: Ending): seq<Event> {
    match FirstOverlong(s)
    case None => Whole(s, ending)
    case Some(o) => Requests(o.before) + [TooLarge]
  }

  lemma {:induction false} NoneIsWithin(s: Bytes)
    ensures FirstOverlong(s).None? <==> WithinLimits(s)
    decreases |s|
  {
    hide *;
    var n := NewlineAt(s);
    if n == |s| {
      UnbrokenWithin(s);
    } else {
      Unfold(s);
      OverlongStep(s);
      NoneIsWithin(s[n + 1..]);
      WithinStep(s, n, s[n + 1..]);
    }
  }

  lemma UnbrokenWithin(s: Bytes)
    requires NewlineAt(s) == |s|
    ensures FirstOverlong(s).None? <==> WithinLimits(s)
  {
    hide Lines, Rest, NewlineAt;
    NoLines(s);
  }

  lemma WithinStep(s: Bytes, n: nat, tail: Bytes)
    requires n <= |s| && Lines(s) == [s[..n]] + Lines(tail) && Rest(s) == Rest(tail)
    ensures WithinLimits(s) <==> n <= MAX_REQUEST_BYTES && WithinLimits(tail)
  {
    hide Lines, Rest;
    assert s[..n] in Lines(s);
    assert forall l | l in Lines(tail) :: l in Lines(s);
  }

  lemma OverlongStep(s: Bytes)
    requires NewlineAt(s) < |s|
    ensures var n := NewlineAt(s);
      FirstOverlong(s) ==
      if n > MAX_REQUEST_BYTES then Some(Overlong([], n, Some(s[n + 1..])))
      else match FirstOverlong(s[n + 1..])
        case None => None
        case Some(o) => Some(o.(before := [s[..n]] + o.before))
  {
    hide NewlineAt;
  }

  // ------------------------------------------------------------ where the cut does not matter

  /** Some overlong line, but one that no cut can answer differently from refusing it. */
  predicate Doomed(s: Bytes, ending: Ending) {
    FirstOverlong(s).Some? && !CutsMatter(s, ending)
  }

  function Before(s: Bytes): seq<Bytes>
    requires FirstOverlong(s).Some?
  {
    FirstOverlong(s).value.before
  }

  /** The complete lines of a buffer come first, and what they leave is still doomed. */
  lemma {:induction false} DoomedLines(x: Bytes, rest: Bytes, ending: Ending)
    requires Doomed(x + rest, ending)
    requires HasNewline(x) ==> |x| - NewlineAt(x) <= RECEIVE_BYTES
    requires HasNewline(x) ==> NewlineAt(x) <= MAX_REQUEST_BYTES
    ensures Doomed(Rest(x) + rest, ending) && Before(x + rest) == Lines(x) + Before(Rest(x) + rest)
    decreases |x|
  {
    hide Lines, Rest, NewlineAt, FirstOverlong, Answered;
    if !HasNewline(x) {
      NoLines(x);
      assert [] + Before(x + rest) == Before(x + rest);
    } else {
      var n := NewlineAt(x);
      NewlineConcat(x, rest);
      OverlongStep(x + rest);
      Sliced(x, rest, n);
      Unfold(x);
      var tail := x[n + 1..];
      DoomedLines(tail, rest, ending);
      Associate([x[..n]], Lines(tail), Before(Rest(x) + rest));
    }
  }

  lemma TooLongNow(b: Bytes, rest: Bytes)
    requires FirstOverlong(b + rest).Some? && |b| > MAX_REQUEST_BYTES && !HasNewline(b)
    ensures Before(b + rest) == []
  {
    NewlineConcat(b, rest);
  }

  lemma NotYetDoomed(buffer: Bytes, ending: Ending)
    requires !HasNewline(buffer) && |buffer| <= MAX_REQUEST_BYTES
    ensures !Doomed(buffer + [], ending)
  {
    assert buffer + [] == buffer;
  }

  /** A stream that is not answered. */
  lemma Quiet(buffer: Bytes, chunks: seq<Bytes>, ending: Ending)
    requires !HasNewline(buffer) && !Answered(buffer + Flatten(chunks), ending)
    ensures Framed(buffer, chunks, ending) == []
  {
    hide Lines, Rest, Framed, Flatten, NewlineAt;
    NoLines(buffer + Flatten(chunks));
    FramedWhole(buffer, chunks, ending);
  }

  lemma OverlongHere(s: Bytes, ending: Ending)
    requires Doomed(s, ending) && MAX_REQUEST_BYTES < NewlineAt(s) < |s|
    requires NewlineAt(s) < MAX_REQUEST_BYTES + RECEIVE_BYTES
    ensures FirstOverlong(s).Some? && Before(s) == [] && !Answered(s[NewlineAt(s) + 1..], ending)
  {
    hide NewlineAt, Answered;
    OverlongStep(s);
  }

  lemma QuietTail(tail: Bytes, rest: Bytes, ending: Ending)
    requires !Answered(tail + rest, ending)
    ensures !HasNewline(tail)
  {
    NewlineConcat(tail, rest);
  }

  lemma AnswerTooLarge(l: Bytes)
    requires |l| > MAX_REQUEST_BYTES
    ensures Answer(l) == TooLarge
  {
  }

  /** The overlong line is complete in this buffer: it is refused as a line, and nothing after it is answered. */
  lemma RefusedAsLine(b: Bytes, chunks: seq<Bytes>, ending: Ending)
    requires Doomed(b + Flatten(chunks), ending)
    requires HasNewline(b) && MAX_REQUEST_BYTES < NewlineAt(b) < MAX_REQUEST_BYTES + RECEIVE_BYTES
    ensures Before(b + Flatten(chunks)) == []
    ensures Requests(Lines(b)) + Framed(Rest(b), chunks, ending) == [TooLarge]
  {
    hide *;
    var n, rest := NewlineAt(b), Flatten(chunks);
    NewlineConcat(b, rest);
    HasNewlineMeans(b);
    OverlongHere(b + rest, ending);
    Sliced(b, rest, n);
    var tail := b[n + 1..];
    QuietTail(tail, rest, ending);
    NoLines(tail);
    FirstRequest(b);
    AnswerTooLarge(b[..n]);
    Quiet(tail, chunks, ending);
    assert [TooLarge] + [] + [] == [TooLarge];
  }

  lemma {:induction false} DoomedFramed(buffer: Bytes, chunks: seq<Bytes>, ending: Ending)
    requires !HasNewline(buffer) && |buffer| <= MAX_REQUEST_BYTES && Received(chunks)
    requires Doomed(buffer + Flatten(chunks), ending)
    ensures Framed(buffer, chunks, ending) == Requests(Before(buffer + Flatten(chunks))) + [TooLarge]
    decreases |chunks|
  {
    hide Lines, Rest, NewlineAt, Doomed, Before, Requests, Framed;
    if chunks == [] {
      NotYetDoomed(buffer, ending);
    } else {
      var b, rest := buffer + chunks[0], Flatten(chunks[1..]);
      FlattenFirst(buffer, chunks);
      DoomedSome(b + rest, ending);
      NoRequests();
      if |b| > MAX_REQUEST_BYTES && !HasNewline(b) {
        TooLongNow(b, rest);
        FramedRefused(buffer, chunks, ending);
      } else {
        LateNewline(buffer, chunks[0]);
        FramedStep(buffer, chunks, ending);
        if HasNewline(b) && NewlineAt(b) > MAX_REQUEST_BYTES {
          RefusedAsLine(b, chunks[1..], ending);
        } else {
          DoomedLines(b, rest, ending);
          RestBound(b);
          DoomedFramed(Rest(b), chunks[1..], ending);
          DoomedSome(Rest(b) + rest, ending);
          RequestsConcat(Lines(b), Before(Rest(b) + rest));
          Associate(Requests(Lines(b)), Requests(Before(Rest(b) + rest)), [TooLarge]);
        }
      }
    }
  }

  lemma DoomedSome(s: Bytes, ending: Ending)
    requires Doomed(s, ending)
    ensures FirstOverlong(s).Some?
  {
  }

  lemma FramedRefused(buffer: Bytes, chunks: seq<Bytes>, ending: Ending)
    requires chunks != [] && !HasNewline(buffer + chunks[0]) && |buffer + chunks[0]| > MAX_REQUEST_BYTES
    ensures Framed(buffer, chunks, ending) == [TooLarge]
  {
  }

  lemma NoRequests()
    ensures Requests([]) == []
  {
  }

  // ------------------------------------------------------------ where it does

  /** Receives of the largest size. */
  function Pieces(s: Bytes): seq<Bytes>
    decreases |s|
  {
    if s == [] then []
    else if |s| <= RECEIVE_BYTES then [s]
    else [s[..RECEIVE_BYTES]] + Pieces(s[RECEIVE_BYTES..])
  }

  lemma {:induction false} PiecesJoin(s: Bytes)
    ensures Received(Pieces(s)) && Flatten(Pieces(s)) == s
    decreases |s|
  {
    if |s| > RECEIVE_BYTES {
      var r := Pieces(s[RECEIVE_BYTES..]);
      PiecesJoin(s[RECEIVE_BYTES..]);
      assert ([s[..RECEIVE_BYTES]] + r)[1..] == r;
      assert s == s[..RECEIVE_BYTES] + s[RECEIVE_BYTES..];
    } else if s != [] {
      assert Flatten([s]) == s + Flatten([]);
    }
  }

  /** Chunks whose bytes are within the limits are answered line by line, whatever comes after them. */
  lemma {:induction false} FramedPrefix(buffer: Bytes, a: seq<Bytes>, more: seq<Bytes>, ending: Ending)
    requires !HasNewline(buffer) && WithinLimits(buffer + Flatten(a))
    ensures var all := buffer + Flatten(a);
      Framed(buffer, a + more, ending) == Requests(Lines(all)) + Framed(Rest(all), more, ending)
    decreases |a|
  {
    if a == [] {
      assert a + more == more && buffer + [] == buffer;
      NoLines(buffer);
      assert [] + Framed(buffer, more, ending) == Framed(buffer, more, ending);
    } else {
      hide *;
      var b, rest := buffer + a[0], Flatten(a[1..]);
      FlattenFirst(buffer, a);
      assert (a + more)[0] == a[0] && (a + more)[1..] == a[1..] + more;
      WithinPrefix(b, rest);
      FramedStep(buffer, a + more, ending);
      RestClean(b);
      FramedPrefix(Rest(b), a[1..], more, ending);
      SplitConcat(b, rest);
      RequestsConcat(Lines(b), Lines(Rest(b) + rest));
      Associate(Requests(Lines(b)), Requests(Lines(Rest(b) + rest)), Framed(Rest(b + rest), more, ending));
    }
  }

  /** Where the first overlong line starts. */
  function LineStart(s: Bytes): nat
    requires FirstOverlong(s).Some?
    decreases |s|
  {
    var n := NewlineAt(s);
    if n > MAX_REQUEST_BYTES then 0 else n + 1 + LineStart(s[n + 1..])
  }

  lemma {:induction false} LineStartMeaning(s: Bytes)
    requires FirstOverlong(s).Some?
    ensures var h, o := LineStart(s), FirstOverlong(s).value;
      && h <= |s| && NewlineAt(s[h..]) == o.size > MAX_REQUEST_BYTES
      && (if h + o.size < |s| then o.tail == Some(s[h + o.size + 1..]) else o.tail == None)
      && Lines(s[..h]) == o.before && Rest(s[..h]) == [] && WithinLimits(s[..h])
    decreases |s|
  {
    hide *;
    var n := NewlineAt(s);
    StartUnfold(s);
    if n > MAX_REQUEST_BYTES {
      StartsHere(s);
    } else {
      var tail := s[n + 1..];
      LineStartMeaning(tail);
      LineStartStep(s, n, LineStart(tail));
    }
  }

  lemma OverlongHead(s: Bytes)
    requires FirstOverlong(s).Some?
    ensures var n := NewlineAt(s);
      if n > MAX_REQUEST_BYTES then
        FirstOverlong(s).value == Overlong([], n, if n < |s| then Some(s[n + 1..]) else None)
      else
        && n < |s| && FirstOverlong(s[n + 1..]).Some?
        && var o := FirstOverlong(s[n + 1..]).value; FirstOverlong(s).value == o.(before := [s[..n]] + o.before)
  {
    hide NewlineAt;
  }

  lemma StartUnfold(s: Bytes)
    requires FirstOverlong(s).Some?
    ensures var n := NewlineAt(s);
      if n > MAX_REQUEST_BYTES then
        && LineStart(s) == 0
        && FirstOverlong(s).value == Overlong([], n, if n < |s| then Some(s[n + 1..]) else None)
      else
        && n < |s| && FirstOverlong(s[n + 1..]).Some? && LineStart(s) == n + 1 + LineStart(s[n + 1..])
        && var o := FirstOverlong(s[n + 1..]).value; FirstOverlong(s).value == o.(before := [s[..n]] + o.before)
  {
    hide NewlineAt, FirstOverlong;
    OverlongHead(s);
  }

  lemma StartsHere(s: Bytes)
    ensures s[0..] == s && s[..0] == [] && Lines(s[..0]) == [] && Rest(s[..0]) == [] && WithinLimits(s[..0])
  {
    NoLines([]);
  }

  lemma LineStartStep(s: Bytes, n: nat, h: nat)
    requires n == NewlineAt(s) < |s| && n <= MAX_REQUEST_BYTES && h <= |s| - n - 1
    requires Rest(s[n + 1..][..h]) == [] && WithinLimits(s[n + 1..][..h])
    ensures s[n + 1 + h..] == s[n + 1..][h..]
    ensures Lines(s[..n + 1 + h]) == [s[..n]] + Lines(s[n + 1..][..h])
    ensures Rest(s[..n + 1 + h]) == [] && WithinLimits(s[..n + 1 + h])
  {
    hide Lines, Rest, NewlineAt, WithinLimits;
    var head := s[..n + 1 + h];
    NewlineIs(head, n);
    Unfold(head);
    assert head[n + 1..] == s[n + 1..][..h] && head[..n] == s[..n];
    WithinStep(head, n, s[n + 1..][..h]);
  }

  /** Everything up to `MAX_REQUEST_BYTES` bytes into the first overlong line. */
  lemma UpToLimit(s: Bytes)
    requires FirstOverlong(s).Some?
    ensures LineStart(s) + MAX_REQUEST_BYTES < |s|
    ensures var h := LineStart(s);
      var p := s[..h + MAX_REQUEST_BYTES];
      && WithinLimits(p) && Lines(p) == FirstOverlong(s).value.before
      && Rest(p) == s[h..h + MAX_REQUEST_BYTES] && !HasNewline(Rest(p))
  {
    hide *;
    LineStartMeaning(s);
    var h, part := LineStart(s), s[LineStart(s)..][..MAX_REQUEST_BYTES];
    FirstPart(s[h..], MAX_REQUEST_BYTES);
    Extends(s[..h], part);
    Onwards(s, h, MAX_REQUEST_BYTES);
  }

  lemma Onwards(s: Bytes, h: nat, n: nat)
    requires h + n <= |s|
    ensures s[h..][..n] == s[h..h + n] && s[..h] + s[h..][..n] == s[..h + n]
  {
  }

  /** A remainder within the limit after complete lines. */
  lemma Extends(lines: Bytes, part: Bytes)
    requires WithinLimits(lines) && Rest(lines) == [] && !HasNewline(part) && |part| <= MAX_REQUEST_BYTES
    ensures WithinLimits(lines + part) && Lines(lines + part) == Lines(lines) && Rest(lines + part) == part
  {
    hide *;
    SplitConcat(lines, part);
    assert [] + part == part;
    NoLines(part);
    assert Lines(lines) + [] == Lines(lines);
    SameLines(lines, lines + part);
  }

  lemma FirstPart(s: Bytes, n: nat)
    requires n <= NewlineAt(s)
    ensures !HasNewline(s[..n])
  {
    hide NewlineAt;
    NewlineIs(s[..n], n);
  }

  lemma SameLines(a: Bytes, b: Bytes)
    requires WithinLimits(a) && Lines(b) == Lines(a) && |Rest(b)| <= MAX_REQUEST_BYTES
    ensures WithinLimits(b)
  {
    hide Rest, Lines;
  }

  /** A stream that deserves a response gets one, however it is cut. */
  lemma {:induction false} Heard(buffer: Bytes, chunks: seq<Bytes>, ending: Ending)
    requires !HasNewline(buffer) && |buffer| <= MAX_REQUEST_BYTES && Answered(buffer + Flatten(chunks), ending)
    ensures Framed(buffer, chunks, ending) != []
    decreases |chunks|
  {
    if chunks == [] {
      assert buffer + [] == buffer;
    } else {
      hide Lines, Rest, NewlineAt, Framed, Flatten;
      var b := buffer + chunks[0];
      FlattenFirst(buffer, chunks);
      if HasNewline(b) {
        FramedStep(buffer, chunks, ending);
        FirstRequest(b);
      } else if |b| > MAX_REQUEST_BYTES {
        FramedRefused(buffer, chunks, ending);
      } else {
        FramedStep(buffer, chunks, ending);
        NoLines(b);
        Heard(b, chunks[1..], ending);
      }
    }
  }

  /** The rest of the overlong line arrives with its newline: it is refused as a line, and the connection goes on. */
  lemma Together(part: Bytes, mid: Bytes, l: Bytes, more: seq<Bytes>, ending: Ending)
    requires part + mid == l + [LF] && !HasNewline(l) && |l| > MAX_REQUEST_BYTES
    ensures Framed(part, [mid] + more, ending) == [TooLarge] + Framed([], more, ending)
  {
    NewlineConcat(l, [LF]);
    var b := l + [LF];
    assert b[..|l|] == l && b[|l| + 1..] == [];
    assert ([mid] + more)[0] == mid && ([mid] + more)[1..] == more;
    assert Lines(b) == [l];
    assert Requests([l]) == [TooLarge];
    assert Rest(b) == [];
  }

  /** One more byte of the line arrives before its newline: the connection is refused. */
  lemma OneByOne(part: Bytes, x: Byte, more: seq<Bytes>, ending: Ending)
    requires |part| == MAX_REQUEST_BYTES && !HasNewline(part + [x])
    ensures Framed(part, [[x]] + more, ending) == [TooLarge]
  {
    assert ([[x]] + more)[0] == [x];
  }

  lemma FlattenThree(a: seq<Bytes>, b: Bytes, c: seq<Bytes>)
    ensures Flatten(a + ([b] + c)) == Flatten(a) + b + Flatten(c)
  {
    FlattenConcat(a, [b] + c);
    FlattenConcat([b], c);
    assert Flatten([b]) == b + Flatten([]);
    assert Flatten(a) + (b + Flatten(c)) == Flatten(a) + b + Flatten(c);
  }

  lemma ReceivedThree(a: seq<Bytes>, b: Bytes, c: seq<Bytes>)
    requires Received(a) && 1 <= |b| <= RECEIVE_BYTES && Received(c)
    ensures Received(a + ([b] + c))
  {
  }

  /** The receiving in which the whole end of the line comes at once, and the one in which one byte comes first. */
  function AtOnce(s: Bytes, at: nat, end: nat): seq<Bytes>
    requires at <= end < |s|
  {
    Pieces(s[..at]) + ([s[at..end + 1]] + Pieces(s[end + 1..]))
  }

  function Early(s: Bytes, at: nat): seq<Bytes>
    requires at < |s|
  {
    Pieces(s[..at]) + ([[s[at]]] + Pieces(s[at + 1..]))
  }

  lemma AtOnceReceives(s: Bytes, at: nat, end: nat)
    requires at <= end < |s| && end + 1 - at <= RECEIVE_BYTES
    ensures Received(AtOnce(s, at, end)) && Flatten(AtOnce(s, at, end)) == s
  {
    hide Received, Flatten, Pieces;
    PiecesJoin(s[..at]);
    PiecesJoin(s[end + 1..]);
    ReceivedThree(Pieces(s[..at]), s[at..end + 1], Pieces(s[end + 1..]));
    FlattenThree(Pieces(s[..at]), s[at..end + 1], Pieces(s[end + 1..]));
    assert s[..at] + s[at..end + 1] + s[end + 1..] == s;
  }

  lemma EarlyReceives(s: Bytes, at: nat)
    requires at < |s|
    ensures Received(Early(s, at)) && Flatten(Early(s, at)) == s
  {
    hide Received, Flatten, Pieces;
    PiecesJoin(s[..at]);
    PiecesJoin(s[at + 1..]);
    ReceivedThree(Pieces(s[..at]), [s[at]], Pieces(s[at + 1..]));
    FlattenThree(Pieces(s[..at]), [s[at]], Pieces(s[at + 1..]));
    assert s[..at] + [s[at]] + s[at + 1..] == s;
  }

  /** One of these two receivings of a stream gets more responses than the other. */
  lemma TwoCuts(s: Bytes, ending: Ending)
    requires CutsMatter(s, ending)
    ensures var at := LineStart(s) + MAX_REQUEST_BYTES;
      var end := LineStart(s) + FirstOverlong(s).value.size;
      && at <= end < |s| && end + 1 - at <= RECEIVE_BYTES
      && |Framed([], AtOnce(s, at, end), ending)| > |Framed([], Early(s, at), ending)|
  {
    hide Lines, Rest, Framed, NewlineAt, FirstOverlong, LineStart, Pieces, Flatten, WithinLimits, Answered;
    var h, o := LineStart(s), FirstOverlong(s).value;
    var at, end := h + MAX_REQUEST_BYTES, h + o.size;
    LineStartMeaning(s);
    UpToLimit(s);
    var p, part, l, tail := s[..at], s[h..at], s[h..end], s[end + 1..];
    PiecesJoin(p);
    PiecesJoin(tail);
    assert [] + p == p && [] + tail == tail;
    NothingBuffered();
    FramedPrefix([], Pieces(p), [s[at..end + 1]] + Pieces(tail), ending);
    FramedPrefix([], Pieces(p), [[s[at]]] + Pieces(s[at + 1..]), ending);
    LineClean(s, h, end);
    LineParts(s, h, at, end);
    Together(part, s[at..end + 1], l, Pieces(tail), ending);
    Heard([], Pieces(tail), ending);
    BeginningClean(l, MAX_REQUEST_BYTES + 1);
    OneByOne(part, s[at], Pieces(s[at + 1..]), ending);
  }

  lemma LineParts(s: Bytes, h: nat, at: nat, end: nat)
    requires h <= at < end < |s| && s[end] == LF
    ensures s[h..at] + s[at..end + 1] == s[h..end] + [LF]
    ensures s[h..at] + [s[at]] == s[h..end][..at - h + 1]
  {
  }

  lemma NothingBuffered()
    ensures !HasNewline([])
  {
  }

  lemma LineClean(s: Bytes, h: nat, end: nat)
    requires h <= end < |s| && NewlineAt(s[h..]) == end - h
    ensures s[end] == LF && !HasNewline(s[h..end])
  {
    assert s[h..][end - h] == s[end];
    assert forall i | 0 <= i < end - h :: s[h..end][i] == s[h..][i];
    NewlineIs(s[h..end], end - h);
  }

  lemma BeginningClean(l: Bytes, n: nat)
    requires !HasNewline(l) && n <= |l|
    ensures !HasNewline(l[..n])
  {
    NewlineIs(l[..n], n);
  }

  // ------------------------------------------------------------ the exact condition

  lemma SettledFramed(a: seq<Bytes>, ending: Ending)
    requires Received(a) && !CutsMatter(Flatten(a), ending)
    ensures Framed([], a, ending) == Settled(Flatten(a), ending)
  {
    hide Framed, FirstOverlong, CutsMatter, WithinLimits, Flatten;
    var s := Flatten(a);
    assert [] + s == s;
    NoneIsWithin(s);
    NothingBuffered();
    if FirstOverlong(s).None? {
      FramedWhole([], a, ending);
    } else {
      DoomedFramed([], a, ending);
    }
  }

  /** Some two ways of receiving the stream are answered differently. */
  ghost predicate Ambiguous(s: Bytes, ending: Ending) {
    exists a, b :: Cuts(a, s) && Cuts(b, s) && Framed([], a, ending) != Framed([], b, ending)
  }

  /** Some two ways of receiving the stream get different numbers of responses. */
  ghost predicate CountsDiffer(s: Bytes, ending: Ending) {
    exists a, b :: Cuts(a, s) && Cuts(b, s) && |Framed([], a, ending)| != |Framed([], b, ending)|
  }

  predicate Cuts(a: seq<Bytes>, s: Bytes) {
    Received(a) && Flatten(a) == s
  }

  /**
   The way a stream is cut matters exactly when its first line over the limit ends less
   than one receive beyond it and something after that line is answered; then even
   the number of responses depends on the cut. Otherwise every cut gives the same
   responses: those of the newline-split stream, or those before the overlong line
   and then the refusal.
   */
  lemma CuttingMatters(s: Bytes, ending: Ending)
    ensures Ambiguous(s, ending) <==> CutsMatter(s, ending)
    ensures CountsDiffer(s, ending) <==> CutsMatter(s, ending)
    ensures !CutsMatter(s, ending) ==> forall a | Cuts(a, s) :: Framed([], a, ending) == Settled(s, ending)
  {
    hide Framed, CutsMatter, Settled, Received, Flatten, AtOnce, Early, LineStart, FirstOverlong;
    if CutsMatter(s, ending) {
      TwoCuts(s, ending);
      CutsHaveEnd(s, ending);
      var at, end := LineStart(s) + MAX_REQUEST_BYTES, LineStart(s) + FirstOverlong(s).value.size;
      AtOnceReceives(s, at, end);
      EarlyReceives(s, at);
      assert Cuts(AtOnce(s, at, end), s) && Cuts(Early(s, at), s);
    } else {
      forall a | Cuts(a, s) ensures Framed([], a, ending) == Settled(s, ending) {
        SettledFramed(a, ending);
      }
    }
  }

  lemma CutsHaveEnd(s: Bytes, ending: Ending)
    requires CutsMatter(s, ending)
    ensures FirstOverlong(s).Some?
  {
  }

  // ------------------------------------------------------------ what lines are

  function Joined(ls: seq<Bytes>): Bytes {
    if ls == [] then [] else ls[0] + [10] + Joined(ls[1..])
  }

  lemma NewlineMeaning(s: Bytes)
    ensures HasNewline(s) <==> 10 in s
    ensures forall i | 0 <= i < NewlineAt(s) :: s[i] != 10
  {
    if HasNewline(s) {
      assert s[NewlineAt(s)] == 10;
    }
  }

  /** The lines of a stream are what lies between its line feeds, and the rest what follows the last of them. */
  lemma {:induction false} LinesMeaning(s: Bytes)
    ensures s == Joined(Lines(s)) + Rest(s)
    ensures 10 !in Rest(s) && forall i | 0 <= i < |Lines(s)| :: 10 !in Lines(s)[i]
    decreases |s|
  {
    hide *;
    if HasNewline(s) {
      HasNewlineMeans(s);
      var n := NewlineAt(s);
      Unfold(s);
      LinesMeaning(s[n + 1..]);
      JoinedFirst(s[..n], Lines(s[n + 1..]));
      FirstLineClean(s);
      assert s == s[..n] + [10] + s[n + 1..];
    } else {
      NoLines(s);
      NewlineMeaning(s);
      JoinedNone();
    }
  }

  lemma JoinedNone()
    ensures Joined([]) == []
  {
  }

  lemma JoinedFirst(l: Bytes, ls: seq<Bytes>)
    ensures Joined([l] + ls) == l + [10] + Joined(ls)
  {
    assert ([l] + ls)[1..] == ls;
  }

  lemma FirstLineClean(s: Bytes)
    requires NewlineAt(s) < |s|
    ensures s[NewlineAt(s)] == 10 && 10 !in s[..NewlineAt(s)]
  {
    hide NewlineAt;
  }

  lemma LineEnds(l: Bytes, tail: Bytes)
    requires 10 !in l
    ensures NewlineAt(l + [10] + tail) == |l|
  {
    hide NewlineAt;
    NewlineIs(l + [10] + tail, |l|);
  }

  lemma {:induction false} LinesOfJoined(ls: seq<Bytes>, rest: Bytes)
    requires 10 !in rest && forall i | 0 <= i < |ls| :: 10 !in ls[i]
    ensures Lines(Joined(ls) + rest) == ls && Rest(Joined(ls) + rest) == rest
  {
    hide *;
    if ls == [] {
      JoinedNone();
      assert Joined(ls) + rest == rest;
      NewlineMeaning(rest);
      NoLines(rest);
    } else {
      var s, tail := Joined(ls) + rest, Joined(ls[1..]) + rest;
      assert ls == [ls[0]] + ls[1..];
      JoinedFirst(ls[0], ls[1..]);
      assert s == ls[0] + [10] + tail;
      LineEnds(ls[0], tail);
      assert s[..|ls[0]|] == ls[0] && s[|ls[0]| + 1..] == tail;
      Unfold(s);
      LinesOfJoined(ls[1..], rest);
    }
  }

  /** What a connection deserves: each line its answer, in order, then a word about how it ended. */
  function Due(ls: seq<Bytes>, rest: Bytes, ending: Ending): seq<Event> {
    seq(|ls|, i requires 0 <= i < |ls| => Line(ls[i]))
    + if ending == TimedOut then [Timeout] else if ending == Closed && rest != [] then [Incomplete] else []
  }

  /** However a stream of short lines is cut, the client gets its due up to the first response that cannot be sent. */
  lemma StreamAnswered(ls: seq<Bytes>, rest: Bytes, chunks: seq<Bytes>, ending: Ending, delivers: nat -> bool)
    requires 10 !in rest && forall i | 0 <= i < |ls| :: 10 !in ls[i]
    requires |rest| <= 65536 && forall i | 0 <= i < |ls| :: |ls[i]| <= 65536
    requires Flatten(chunks) == Joined(ls) + rest
    ensures var all, sent := Due(ls, rest, ending), Sent(Framed([], chunks, ending), delivers);
      && sent <= all && (forall k | 0 <= k < |sent| - 1 :: delivers(k))
      && (|sent| < |all| ==> sent != [] && !delivers(|sent| - 1))
  {
    hide Framed, Flatten, Joined, Lines, Rest, Sent;
    LinesOfJoined(ls, rest);
    ChunkingIrrelevant(chunks, chunks, ending);
    SentMeaning(Due(ls, rest, ending), delivers);
    assert Requests(ls) + AtEnd(rest, ending) == Due(ls, rest, ending);
  }

  lemma {:induction false} SentMeaning(events: seq<Event>, delivers: nat -> bool)
    ensures var sent := Sent(events, delivers);
      && sent <= events && (forall k | 0 <= k < |sent| - 1 :: delivers(k))
      && (|sent| < |events| ==> sent != [] && !delivers(|sent| - 1))
  {
    if events != [] {
      SentMeaning(events[..|events| - 1], delivers);
    }
  }
}

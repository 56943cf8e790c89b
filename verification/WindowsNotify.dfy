/**
 The Windows directory-change provider: parsing the native notification buffer and
 pairing old and new names of renames.
 */
module WindowsNotify {
  import opened Common
  import opened LittleEndian

  /** UTF-16 without surrogate errors, as the strict codec decodes and encodes it. */
  datatype Codec = Codec(decode: Bytes -> Option<string>, encode: string -> Bytes)

  datatype Change = Change(action: nat, name: string)

  const HEADER: nat := 12

  // ------------------------------------------------------------ the native buffer

  predicate HeaderOk(b: Bytes) {
    |b| >= HEADER && U32(b, 8) % 2 == 0 && HEADER + U32(b, 8) <= |b|
  }

  /** The first record of a buffer, if it is whole and its name decodes. */
  function First(codec: Codec, b: Bytes): Option<Change> {
    if !HeaderOk(b) then None
    else
      match codec.decode(b[HEADER..HEADER + U32(b, 8)])
      case None => None
      case Some(name) => Some(Change(U32(b, 4), name))
  }

  function Parsed(codec: Codec, b: Bytes): Option<seq<Change>>
    decreases |b|
  {
    if b == [] then Some([])
    else
      var first := First(codec, b);
      if first.None? then None
      else
        var next := U32(b, 0);
        if next == 0 then Some([first.value])
        else if next < HEADER || next > |b| then None
        else
          match Parsed(codec, b[next..])
          case None => None
          case Some(rest) => Some([first.value] + rest)
  }

  datatype Span = Span(start: nat, end: nat)

  /** The record lies inside the buffer and says what the buffer says there. */
  predicate Inside(codec: Codec, b: Bytes, s: Span, c: Change) {
    && s.start + HEADER <= s.end <= |b|
    && c.action == U32(b, s.start + 4)
    && s.end == s.start + HEADER + U32(b, s.start + 8) && U32(b, s.start + 8) % 2 == 0
    && codec.decode(b[s.start + HEADER..s.end]) == Some(c.name)
  }

  predicate Points(b: Bytes, s: Span, next: nat) {
    s.start + HEADER <= |b| && HEADER <= U32(b, s.start) == next - s.start
  }

  /** Each record starts where the one before it points, at least a header further on. */
  ghost predicate Linked(b: Bytes, spans: seq<Span>) {
    && (spans != [] ==> spans[0].start == 0)
    && (forall i, j | 0 <= i && j == i + 1 && j < |spans| :: Points(b, spans[i], spans[j].start))
  }

  /** The records accepted so far, and where the next one starts. */
  ghost predicate Tracked(codec: Codec, b: Bytes, records: seq<Change>, spans: seq<Span>, offset: nat) {
    && |spans| == |records| && Linked(b, spans)
    && (forall i | 0 <= i < |spans| :: Inside(codec, b, spans[i], records[i]))
    && (if spans == [] then offset == 0 else Points(b, spans[|spans| - 1], offset))
  }

  lemma TrackedNext(codec: Codec, b: Bytes, records: seq<Change>, spans: seq<Span>, offset: nat, s: Span, c: Change)
    requires Tracked(codec, b, records, spans, offset) && s.start == offset && Inside(codec, b, s, c)
    ensures |spans + [s]| == |records + [c]| && Linked(b, spans + [s])
    ensures forall i | 0 <= i < |spans| + 1 :: Inside(codec, b, (spans + [s])[i], (records + [c])[i])
    ensures forall next: nat | Points(b, s, next) :: Tracked(codec, b, records + [c], spans + [s], next)
  {
    hide Inside, Points;
  }

  /** The parsing loop; every accepted record lies inside the buffer. */
  method ParseNativeRecords(codec: Codec, b: Bytes) returns (r: Option<seq<Change>>, ghost spans: seq<Span>)
    ensures r == Parsed(codec, b)
    ensures r.Some? ==> |spans| == |r.value| && Linked(b, spans)
    ensures r.Some? ==> forall i | 0 <= i < |spans| :: Inside(codec, b, spans[i], r.value[i])
  {
    hide First, Inside, Linked, U32, Parsed;
    var records: seq<Change> := [];
    spans := [];
    var offset := 0;
    assert b[0..] == b;
    Prefixed(Parsed(codec, b));
    NothingTracked(codec, b);
    while offset < |b|
      invariant 0 <= offset <= |b|
      invariant Parsed(codec, b) == Prepend(records, Parsed(codec, b[offset..]))
      invariant Tracked(codec, b, records, spans, offset)
      decreases |b| - offset
    {
      var rest := b[offset..];
      var first := First(codec, rest);
      if first.None? {
        ParsedBad(codec, rest);
        return None, [];
      }
      ParsedStep(codec, rest);
      FirstInside(codec, b, offset);
      var next := U32(rest, 0);
      ghost var s := Span(offset, offset + HEADER + U32(rest, 8));
      TrackedNext(codec, b, records, spans, offset, s, first.value);
      PrependMore(records, first.value, Parsed(codec, rest[Min(next, |rest|)..]));
      records, spans := records + [first.value], spans + [s];
      if next == 0 {
        return Some(records), spans;
      }
      if next < HEADER || offset + next > |b| {
        return None, [];
      }
      assert rest[next..] == b[offset + next..];
      offset := offset + next;
    }
    assert b[offset..] == [];
    ParsedNothing(codec);
    assert records + [] == records;
    return Some(records), spans;
  }

  lemma NothingTracked(codec: Codec, b: Bytes)
    ensures Tracked(codec, b, [], [], 0)
  {
  }

  lemma ParsedNothing(codec: Codec)
    ensures Parsed(codec, []) == Some([])
  {
  }

  lemma ParsedBad(codec: Codec, b: Bytes)
    requires b != [] && First(codec, b).None?
    ensures Parsed(codec, b) == None
  {
  }

  lemma ParsedStep(codec: Codec, b: Bytes)
    requires First(codec, b).Some?
    ensures |b| >= HEADER
    ensures var next, c := U32(b, 0), First(codec, b).value;
      Parsed(codec, b) ==
      if next == 0 then Some([c])
      else if next < HEADER || next > |b| then None
      else Prepend([c], Parsed(codec, b[next..]))
  {
    hide U32;
  }

  function Prepend(records: seq<Change>, rest: Option<seq<Change>>): Option<seq<Change>> {
    match rest case None => None case Some(r) => Some(records + r)
  }

  lemma Prefixed(rest: Option<seq<Change>>)
    ensures Prepend([], rest) == rest
  {
    assert rest.Some? ==> [] + rest.value == rest.value;
  }

  lemma PrependMore(records: seq<Change>, c: Change, rest: Option<seq<Change>>)
    ensures Prepend(records + [c], rest) == Prepend(records, Prepend([c], rest))
    ensures Prepend(records, Some([c])) == Some(records + [c])
  {
    assert rest.Some? ==> records + [c] + rest.value == records + ([c] + rest.value);
  }

  lemma FirstInside(codec: Codec, b: Bytes, offset: nat)
    requires offset < |b| && First(codec, b[offset..]).Some?
    ensures offset + HEADER <= |b| && U32(b, offset) == U32(b[offset..], 0)
    ensures U32(b, offset) >= HEADER ==>
      Points(b, Span(offset, offset + HEADER + U32(b[offset..], 8)), offset + U32(b, offset))
    ensures Inside(codec, b, Span(offset, offset + HEADER + U32(b[offset..], 8)), First(codec, b[offset..]).value)
  {
    var rest := b[offset..];
    var n := U32(rest, 8);
    assert rest[HEADER..HEADER + n] == b[offset + HEADER..offset + HEADER + n];
  }

  // ------------------------------------------------------------ round trip

  /** A record with the padding that aligns the next one. */
  datatype Entry = Entry(change: Change, padding: Bytes)

  predicate Fits(codec: Codec, e: Entry) {
    && e.change.action < 0x1_0000_0000
    && codec.decode(codec.encode(e.change.name)) == Some(e.change.name)
    && |codec.encode(e.change.name)| % 2 == 0
    && HEADER + |codec.encode(e.change.name)| + |e.padding| < 0x1_0000_0000
  }

  function PrintOne(codec: Codec, e: Entry, last: bool): Bytes
    requires Fits(codec, e)
  {
    var name := codec.encode(e.change.name);
    P32(if last then 0 else HEADER + |name| + |e.padding|) + P32(e.change.action) + P32(|name|) + name + e.padding
  }

  function Print(codec: Codec, es: seq<Entry>): Bytes
    requires forall e | e in es :: Fits(codec, e)
  {
    if es == [] then [] else PrintOne(codec, es[0], |es| == 1) + Print(codec, es[1..])
  }

  function ChangesOf(es: seq<Entry>): seq<Change> {
    if es == [] then [] else [es[0].change] + ChangesOf(es[1..])
  }

  lemma Layout(p0: Bytes, p1: Bytes, p2: Bytes, name: Bytes, padding: Bytes, rest: Bytes)
    requires |p0| == |p1| == |p2| == 4
    ensures var one := p0 + p1 + p2 + name + padding;
      && |one| == HEADER + |name| + |padding|
      && (one + rest)[HEADER..HEADER + |name|] == name && (one + rest)[|one|..] == rest
      && one + rest == [] + p0 + (p1 + p2 + name + padding + rest)
      && one + rest == p0 + p1 + (p2 + name + padding + rest)
      && one + rest == p0 + p1 + p2 + (name + padding + rest)
  {
  }

  lemma PrintedFields(codec: Codec, e: Entry, last: bool, rest: Bytes)
    requires Fits(codec, e)
    ensures var b, name := PrintOne(codec, e, last) + rest, codec.encode(e.change.name);
      && |PrintOne(codec, e, last)| == HEADER + |name| + |e.padding|
      && U32(b, 0) == (if last then 0 else HEADER + |name| + |e.padding|)
      && U32(b, 4) == e.change.action && U32(b, 8) == |name|
      && b[HEADER..HEADER + |name|] == name
      && b[|PrintOne(codec, e, last)|..] == rest
  {
    hide U32, P32;
    var name := codec.encode(e.change.name);
    var next := if last then 0 else HEADER + |name| + |e.padding|;
    var p0, p1, p2 := P32(next), P32(e.change.action), P32(|name|);
    Layout(p0, p1, p2, name, e.padding, rest);
    U32At([], next, p1 + p2 + name + e.padding + rest);
    U32At(p0, e.change.action, p2 + name + e.padding + rest);
    U32At(p0 + p1, |name|, name + e.padding + rest);
  }

  /** Parsing a printed buffer returns the records, whatever padding aligns them. */
  lemma {:induction false} RoundTrip(codec: Codec, es: seq<Entry>)
    requires forall e | e in es :: Fits(codec, e)
    ensures Parsed(codec, Print(codec, es)) == Some(ChangesOf(es))
  {
    if es != [] {
      hide PrintOne;
      var rest := Print(codec, es[1..]);
      PrintedFields(codec, es[0], |es| == 1, rest);
      RoundTrip(codec, es[1..]);
      OneStep(codec, es[0], |es| == 1, rest, PrintOne(codec, es[0], |es| == 1) + rest);
      if |es| == 1 {
        assert ChangesOf(es) == [es[0].change];
      }
    }
  }

  lemma OneStep(codec: Codec, e: Entry, last: bool, rest: Bytes, b: Bytes)
    requires Fits(codec, e)
    requires var name := codec.encode(e.change.name);
      && |b| == HEADER + |name| + |e.padding| + |rest|
      && U32(b, 0) == (if last then 0 else HEADER + |name| + |e.padding|)
      && U32(b, 4) == e.change.action && U32(b, 8) == |name|
      && b[HEADER..HEADER + |name|] == name
      && b[HEADER + |name| + |e.padding|..] == rest
    ensures Parsed(codec, b) == if last then Some([e.change]) else Prepend([e.change], Parsed(codec, rest))
  {
    hide U32;
    assert First(codec, b) == Some(e.change);
  }

  // ------------------------------------------------------------ rename pairing

  const ADDED: nat := 1
  const REMOVED: nat := 2
  const MODIFIED: nat := 3
  const RENAMED_OLD_NAME: nat := 4
  const RENAMED_NEW_NAME: nat := 5

  datatype Kind = Created | Deleted | Modified

  function KindOf(action: nat): Option<Kind> {
    if action == ADDED then Some(Created)
    else if action == REMOVED then Some(Deleted)
    else if action == MODIFIED then Some(Modified)
    else None
  }

  /** What the provider emits; an old name whose new name never came is emitted as a deletion. */
  datatype Out =
    | Plain(kind: Kind, path: string)
    | Renamed(path: string, previous: Option<string>)
    | OldNameGone(path: string)
    | Overflow(reason: string)

  datatype Watch = Watch(pending: Option<string>, out: seq<Out>)

  function Flushed(w: Watch): Watch {
    if w.pending.Some? then Watch(None, w.out + [OldNameGone(w.pending.value)]) else w
  }

  function After(join: string -> Option<string>, w: Watch, c: Change): Watch {
    match join(c.name)
    case None => w.(out := w.out + [Overflow("INVALID_RELATIVE_PATH_FROM_PROVIDER")])
    case Some(path) =>
      if c.action == RENAMED_OLD_NAME then Flushed(w).(pending := Some(path))
      else if c.action == RENAMED_NEW_NAME then Watch(None, w.out + [Renamed(path, w.pending)])
      else
        var f := Flushed(w);
        match KindOf(c.action)
        case None => f
        case Some(k) => f.(out := f.out + [Plain(k, path)])
  }

  function AfterAll(join: string -> Option<string>, w: Watch, cs: seq<Change>): Watch {
    if cs == [] then w else After(join, AfterAll(join, w, cs[..|cs| - 1]), cs[|cs| - 1])
  }

  /** One read of the directory handle, and whether the watcher was still running after it. */
  datatype Batch = Failed(running: bool) | Changes(running: bool, changes: seq<Change>)

  function AfterBatch(join: string -> Option<string>, w: Watch, b: Batch): Watch {
    match b
    case Failed(_) => w.(out := w.out + [Overflow("READ_DIRECTORY_CHANGES_FAILED")])
    case Changes(_, cs) =>
      if cs == [] then w.(out := w.out + [Overflow("KERNEL_NOTIFICATION_BUFFER_OVERFLOW")]) else AfterAll(join, w, cs)
  }

  function AfterBatches(join: string -> Option<string>, w: Watch, bs: seq<Batch>): Watch {
    if bs == [] then w else AfterBatch(join, AfterBatches(join, w, bs[..|bs| - 1]), bs[|bs| - 1])
  }

  /** The batches handled before the one, if any, that finds the watcher stopped. */
  function Handled(bs: seq<Batch>): nat
    ensures Handled(bs) <= |bs|
  {
    if bs == [] || !bs[0].running then 0 else 1 + Handled(bs[1..])
  }

  lemma AfterStep(join: string -> Option<string>, w: Watch, bs: seq<Batch>, i: nat)
    requires i < |bs|
    ensures AfterBatches(join, w, bs[..i + 1]) == AfterBatch(join, AfterBatches(join, w, bs[..i]), bs[i])
  {
    hide AfterBatch;
    assert bs[..i + 1][..i] == bs[..i];
  }

  lemma AfterNone(join: string -> Option<string>, w: Watch)
    ensures AfterBatches(join, w, []) == w
  {
  }

  lemma HandledStep(bs: seq<Batch>, i: nat)
    requires i <= |bs|
    ensures Handled(bs[i..]) == if i == |bs| || !bs[i].running then 0 else 1 + Handled(bs[i + 1..])
  {
    if i < |bs| {
      assert bs[i..][1..] == bs[i + 1..];
    }
  }

  /** The watcher thread; the second result is an old name lost to an early return. */
  method WatchRoot(join: string -> Option<string>, bs: seq<Batch>) returns (out: seq<Out>, lost: Option<string>)
    ensures var w := AfterBatches(join, Watch(None, []), bs[..Handled(bs)]);
      if Handled(bs) == |bs| then out == Flushed(w).out && lost == None else out == w.out && lost == w.pending
  {
    hide AfterBatches, AfterAll, Handled;
    var pending: Option<string> := None;
    out := [];
    var i := 0;
    assert bs[0..] == bs && bs[..0] == [];
    AfterNone(join, Watch(None, []));
    while i < |bs|
      invariant i <= |bs| && Handled(bs) == i + Handled(bs[i..])
      invariant Watch(pending, out) == AfterBatches(join, Watch(None, []), bs[..i])
    {
      AfterStep(join, Watch(None, []), bs, i);
      HandledStep(bs, i);
      if !bs[i].running {
        return out, pending;
      }
      match bs[i] {
        case Failed(_) => out := out + [Overflow("READ_DIRECTORY_CHANGES_FAILED")];
        case Changes(_, cs) =>
          if cs == [] {
            out := out + [Overflow("KERNEL_NOTIFICATION_BUFFER_OVERFLOW")];
          } else {
            pending, out := HandleChanges(join, pending, out, cs);
          }
      }
      i := i + 1;
    }
    assert bs[..i] == bs;
    HandledStep(bs, i);
    if pending.Some? {
      out := out + [OldNameGone(pending.value)];
    }
    return out, None;
  }

  method HandleChanges(join: string -> Option<string>, pending0: Option<string>, out0: seq<Out>, cs: seq<Change>)
    returns (pending: Option<string>, out: seq<Out>)
    ensures Watch(pending, out) == AfterAll(join, Watch(pending0, out0), cs)
  {
    pending, out := pending0, out0;
    var k := 0;
    while k < |cs|
      invariant k <= |cs| && Watch(pending, out) == AfterAll(join, Watch(pending0, out0), cs[..k])
    {
      assert cs[..k + 1][..k] == cs[..k];
      var path := join(cs[k].name);
      if path.None? {
        out := out + [Overflow("INVALID_RELATIVE_PATH_FROM_PROVIDER")];
      } else if cs[k].action == RENAMED_OLD_NAME {
        if pending.Some? {
          out := out + [OldNameGone(pending.value)];
        }
        pending := path;
      } else if cs[k].action == RENAMED_NEW_NAME {
        out := out + [Renamed(path.value, pending)];
        pending := None;
      } else {
        if pending.Some? {
          out := out + [OldNameGone(pending.value)];
          pending := None;
        }
        var kind := KindOf(cs[k].action);
        if kind.Some? {
          out := out + [Plain(kind.value, path.value)];
        }
      }
      k := k + 1;
    }
    assert cs[..k] == cs;
  }

  // ------------------------------------------------------------ every old name exactly once

  function OldNameIn(join: string -> Option<string>, c: Change): seq<string> {
    if join(c.name).Some? && c.action == RENAMED_OLD_NAME then [join(c.name).value] else []
  }

  function OldNames(join: string -> Option<string>, cs: seq<Change>): seq<string> {
    if cs == [] then [] else OldNames(join, cs[..|cs| - 1]) + OldNameIn(join, cs[|cs| - 1])
  }

  function OldNamesOf(join: string -> Option<string>, bs: seq<Batch>): seq<string> {
    if bs == [] then []
    else
      var b := bs[|bs| - 1];
      OldNamesOf(join, bs[..|bs| - 1]) + if b.Changes? then OldNames(join, b.changes) else []
  }

  function UsedBy(o: Out): seq<string> {
    if o.Renamed? && o.previous.Some? then [o.previous.value] else if o.OldNameGone? then [o.path] else []
  }

  /** The old names an output uses up, in order: as a previous path, or as a deletion. */
  function Used(out: seq<Out>): seq<string> {
    if out == [] then [] else Used(out[..|out| - 1]) + UsedBy(out[|out| - 1])
  }

  function Waiting(w: Watch): seq<string> {
    if w.pending.Some? then [w.pending.value] else []
  }

  lemma UsedSnoc(out: seq<Out>, o: Out)
    ensures Used(out + [o]) == Used(out) + UsedBy(o)
  {
    assert (out + [o])[..|out + [o]| - 1] == out;
  }

  lemma FlushedUses(w: Watch)
    ensures Used(Flushed(w).out) == Used(w.out) + Waiting(w)
  {
    if w.pending.Some? {
      UsedSnoc(w.out, OldNameGone(w.pending.value));
    }
  }

  lemma AfterUses(join: string -> Option<string>, w: Watch, c: Change)
    ensures var u := After(join, w, c);
      Used(u.out) + Waiting(u) == Used(w.out) + Waiting(w) + OldNameIn(join, c)
  {
    hide Used;
    FlushedUses(w);
    match join(c.name) {
      case None => UsedSnoc(w.out, Overflow("INVALID_RELATIVE_PATH_FROM_PROVIDER"));
      case Some(path) =>
        UsedSnoc(w.out, Renamed(path, w.pending));
        if KindOf(c.action).Some? {
          UsedSnoc(Flushed(w).out, Plain(KindOf(c.action).value, path));
        }
    }
  }

  lemma {:induction false} AfterAllUses(join: string -> Option<string>, w: Watch, cs: seq<Change>)
    ensures var u := AfterAll(join, w, cs);
      Used(u.out) + Waiting(u) == Used(w.out) + Waiting(w) + OldNames(join, cs)
  {
    hide Used, After;
    if cs == [] {
      assert Used(w.out) + Waiting(w) + [] == Used(w.out) + Waiting(w);
    } else {
      var n := |cs| - 1;
      AfterAllUses(join, w, cs[..n]);
      AfterUses(join, AfterAll(join, w, cs[..n]), cs[n]);
      Associate(Used(w.out) + Waiting(w), OldNames(join, cs[..n]), OldNameIn(join, cs[n]));
    }
  }

  lemma AfterBatchUses(join: string -> Option<string>, w: Watch, b: Batch)
    ensures var u := AfterBatch(join, w, b);
      Used(u.out) + Waiting(u) == Used(w.out) + Waiting(w) + if b.Changes? then OldNames(join, b.changes) else []
  {
    hide Used, AfterAll;
    match b {
      case Failed(_) => UsedSnoc(w.out, Overflow("READ_DIRECTORY_CHANGES_FAILED"));
      case Changes(_, cs) =>
        if cs == [] {
          UsedSnoc(w.out, Overflow("KERNEL_NOTIFICATION_BUFFER_OVERFLOW"));
        } else {
          AfterAllUses(join, w, cs);
        }
    }
  }

  lemma {:induction false} BatchesUse(join: string -> Option<string>, bs: seq<Batch>)
    ensures var u := AfterBatches(join, Watch(None, []), bs);
      Used(u.out) + Waiting(u) == OldNamesOf(join, bs)
  {
    if bs != [] {
      hide Used, AfterBatch, OldNames;
      var n := |bs| - 1;
      BatchesUse(join, bs[..n]);
      AfterBatchUses(join, AfterBatches(join, Watch(None, []), bs[..n]), bs[n]);
    }
  }

  /**
   Across all batches and the final flush each valid old name is used exactly once,
   in order, as a rename's previous path or as one deletion; an early return can
   lose only the last one, and only while it still waits for its new name.
   */
  lemma OldNamesConserved(join: string -> Option<string>, bs: seq<Batch>)
    ensures var w := AfterBatches(join, Watch(None, []), bs);
      Used(Flushed(w).out) == OldNamesOf(join, bs) && Used(w.out) + Waiting(w) == OldNamesOf(join, bs)
  {
    BatchesUse(join, bs);
    FlushedUses(AfterBatches(join, Watch(None, []), bs));
  }

  // ------------------------------------------------------------ what one change emits

  /** The kind of event for an action of the API; 4 and 5 are the two halves of a rename. */
  predicate Announces(action: nat, kind: Kind) {
    (action == 1 && kind == Created) || (action == 2 && kind == Deleted) || (action == 3 && kind == Modified)
  }

  /**
   One change under the watched root: the new name of a rename takes the pending old one
   with it, anything else first gives a pending old name up as a deletion, an old
   name waits, and actions 1, 2 and 3 are announced as what they are.
   */
  lemma ChangeMeaning(join: string -> Option<string>, w: Watch, c: Change)
    ensures var v, path := After(join, w, c), join(c.name);
      if path == None then v == Watch(w.pending, w.out + [Overflow("INVALID_RELATIVE_PATH_FROM_PROVIDER")])
      else if c.action == 5 then v == Watch(None, w.out + [Renamed(path.value, w.pending)])
      else
        var given := if w.pending == None then w.out else w.out + [OldNameGone(w.pending.value)];
        && v.pending == (if c.action == 4 then path else None)
        && (c.action > 3 || c.action == 0 ==> v.out == given)
        && (forall k | Announces(c.action, k) :: v.out == given + [Plain(k, path.value)])
  {
  }

  // ------------------------------------------------------------ every loss reported once

  function LossIn(join: string -> Option<string>, c: Change): seq<string> {
    if join(c.name).None? then ["INVALID_RELATIVE_PATH_FROM_PROVIDER"] else []
  }

  function Losses(join: string -> Option<string>, cs: seq<Change>): seq<string> {
    if cs == [] then [] else Losses(join, cs[..|cs| - 1]) + LossIn(join, cs[|cs| - 1])
  }

  /** What one read lost: all of it, an overflowing buffer's changes, or the changes outside the root. */
  function BatchLosses(join: string -> Option<string>, b: Batch): seq<string> {
    if b.Failed? then ["READ_DIRECTORY_CHANGES_FAILED"]
    else if b.changes == [] then ["KERNEL_NOTIFICATION_BUFFER_OVERFLOW"]
    else Losses(join, b.changes)
  }

  function LossesOf(join: string -> Option<string>, bs: seq<Batch>): seq<string> {
    if bs == [] then [] else LossesOf(join, bs[..|bs| - 1]) + BatchLosses(join, bs[|bs| - 1])
  }

  function ReasonOf(o: Out): seq<string> {
    if o.Overflow? then [o.reason] else []
  }

  function Reasons(out: seq<Out>): seq<string> {
    if out == [] then [] else Reasons(out[..|out| - 1]) + ReasonOf(out[|out| - 1])
  }

  lemma ReasonsSnoc(out: seq<Out>, o: Out)
    ensures Reasons(out + [o]) == Reasons(out) + ReasonOf(o)
  {
    assert (out + [o])[..|out + [o]| - 1] == out;
  }

  lemma FlushedReasons(w: Watch)
    ensures Reasons(Flushed(w).out) == Reasons(w.out)
  {
    if w.pending.Some? {
      ReasonsSnoc(w.out, OldNameGone(w.pending.value));
    }
  }

  lemma AfterReasons(join: string -> Option<string>, w: Watch, c: Change)
    ensures Reasons(After(join, w, c).out) == Reasons(w.out) + LossIn(join, c)
  {
    hide Reasons;
    FlushedReasons(w);
    match join(c.name) {
      case None => ReasonsSnoc(w.out, Overflow("INVALID_RELATIVE_PATH_FROM_PROVIDER"));
      case Some(path) =>
        ReasonsSnoc(w.out, Renamed(path, w.pending));
        if KindOf(c.action).Some? {
          ReasonsSnoc(Flushed(w).out, Plain(KindOf(c.action).value, path));
        }
    }
  }

  lemma {:induction false} AfterAllReasons(join: string -> Option<string>, w: Watch, cs: seq<Change>)
    ensures Reasons(AfterAll(join, w, cs).out) == Reasons(w.out) + Losses(join, cs)
  {
    hide Reasons, After;
    if cs == [] {
      assert Reasons(w.out) + [] == Reasons(w.out);
    } else {
      var n := |cs| - 1;
      AfterAllReasons(join, w, cs[..n]);
      AfterReasons(join, AfterAll(join, w, cs[..n]), cs[n]);
      Associate(Reasons(w.out), Losses(join, cs[..n]), LossIn(join, cs[n]));
    }
  }

  /** Every read that failed or overflowed and every change outside the root is reported once, in order. */
  lemma {:induction false} LossesReported(join: string -> Option<string>, bs: seq<Batch>)
    ensures var w := AfterBatches(join, Watch(None, []), bs);
      Reasons(Flushed(w).out) == LossesOf(join, bs) && Reasons(w.out) == LossesOf(join, bs)
  {
    FlushedReasons(AfterBatches(join, Watch(None, []), bs));
    if bs != [] {
      hide Reasons, AfterAll, Losses;
      var n := |bs| - 1;
      LossesReported(join, bs[..n]);
      var w := AfterBatches(join, Watch(None, []), bs[..n]);
      match bs[n] {
        case Failed(_) => ReasonsSnoc(w.out, Overflow("READ_DIRECTORY_CHANGES_FAILED"));
        case Changes(_, cs) =>
          ReasonsSnoc(w.out, Overflow("KERNEL_NOTIFICATION_BUFFER_OVERFLOW"));
          AfterAllReasons(join, w, cs);
      }
    }
  }
}

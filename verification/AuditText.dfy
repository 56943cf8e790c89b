/**
 The byte level of the audit log: how a segment splits into lines, and what the
 bounded tail read sees of it.
 */
module AuditText {
  import opened Common

  const LF: Byte := 10
  const CR: Byte := 13

  predicate Clean(s: Bytes) {
    forall i | 0 <= i < |s| :: s[i] != LF && s[i] != CR
  }

  predicate IsSpace(b: Byte) {
    b == 32 || 9 <= b <= 13
  }

  predicate Blank(s: Bytes) {
    forall i | 0 <= i < |s| :: IsSpace(s[i])
  }

  predicate Terminated(s: Bytes) {
    s == [] || s[|s| - 1] == LF
  }

  predicate Unbroken(s: Bytes, n: nat) {
    n <= |s| && forall i | 0 <= i < n :: s[i] != LF && s[i] != CR
  }

  /** Position of the first line break, or the length when there is none. */
  function BreakAt(s: Bytes): (n: nat)
    ensures n <= |s| && Unbroken(s, n)
    ensures n < |s| ==> s[n] == LF || s[n] == CR
  {
    if s == [] || s[0] == LF || s[0] == CR then 0
    else
      var n := 1 + BreakAt(s[1..]);
      assert forall i | 1 <= i < |s| :: s[i] == s[1..][i - 1];
      n
  }

  function BreakSize(s: Bytes, e: nat): (n: nat)
    requires e < |s|
    ensures 1 <= n <= 2 && e + n <= |s|
  {
    if s[e] == CR && e + 1 < |s| && s[e + 1] == LF then 2 else 1
  }

  function AfterBreak(s: Bytes, e: nat): (rest: Bytes)
    requires e < |s|
    ensures |rest| < |s|
  {
    s[e + BreakSize(s, e)..]
  }

  /** Python's bytes.splitlines: LF, CR and CR LF end a line. */
  function SplitLines(s: Bytes): seq<Bytes>
    decreases |s|
  {
    if s == [] then []
    else
      var e := BreakAt(s);
      if e == |s| then [s]
      else [s[..e]] + SplitLines(AfterBreak(s, e))
  }

  /** One unfolding of SplitLines at a known first break. */
  lemma BreakIs(s: Bytes, e: nat)
    requires e < |s| && (s[e] == LF || s[e] == CR)
    requires forall i | 0 <= i < e :: s[i] != LF && s[i] != CR
    ensures BreakAt(s) == e
  {
    hide BreakAt;
  }

  lemma SplitUnfold(s: Bytes, e: nat)
    requires e < |s| && BreakAt(s) == e
    ensures SplitLines(s) == [s[..e]] + SplitLines(AfterBreak(s, e))
  {
    hide BreakAt, AfterBreak, Unbroken;
  }

  lemma SplitAt(s: Bytes, e: nat)
    requires e < |s| && (s[e] == LF || s[e] == CR)
    requires forall i | 0 <= i < e :: s[i] != LF && s[i] != CR
    ensures SplitLines(s) == [s[..e]] + SplitLines(s[e + BreakSize(s, e)..])
  {
    hide SplitLines, BreakAt, BreakSize, Unbroken;
    BreakIs(s, e);
    SplitUnfold(s, e);
  }

  /** The first line of a text that ends in LF does not depend on what follows. */
  lemma FirstLineLocal(a: Bytes, b: Bytes)
    requires a != [] && Terminated(a)
    ensures BreakAt(a) < |a|
    ensures var e := BreakAt(a);
            Terminated(AfterBreak(a, e)) && SplitLines(a + b) == [a[..e]] + SplitLines(AfterBreak(a, e) + b)
  {
    hide SplitLines;
    var e := BreakAt(a);
    var n := e + BreakSize(a, e);
    assert BreakSize(a + b, e) == BreakSize(a, e);
    SplitAt(a + b, e);
    assert (a + b)[..e] == a[..e];
    assert (a + b)[n..] == a[n..] + b;
  }

  /** What ends a line: LF, CR LF as one break, or CR alone. */
  lemma BreakMeaning(l: Bytes, rest: Bytes)
    requires Clean(l)
    ensures SplitLines(l + [10] + rest) == [l] + SplitLines(rest)
    ensures SplitLines(l + [13, 10] + rest) == [l] + SplitLines(rest)
    ensures rest == [] || rest[0] != 10 ==> SplitLines(l + [13] + rest) == [l] + SplitLines(rest)
  {
    BreakAfter(l, [10], rest);
    BreakAfter(l, [13, 10], rest);
    if rest == [] || rest[0] != 10 {
      BreakAfter(l, [13], rest);
    }
  }

  lemma BreakAfter(l: Bytes, b: Bytes, rest: Bytes)
    requires Clean(l) && (b == [10] || b == [13, 10] || (b == [13] && (rest == [] || rest[0] != 10)))
    ensures SplitLines(l + b + rest) == [l] + SplitLines(rest)
  {
    hide SplitLines;
    var s := l + b + rest;
    assert s[|l|] == b[0] && (|b| == 2 ==> s[|l| + 1] == 10) && (b == [13] && rest != [] ==> s[|l| + 1] == rest[0]);
    SplitAt(s, |l|);
    assert s[..|l|] == l && BreakSize(s, |l|) == |b| && s[|l| + |b|..] == rest;
  }

  /** The bytes that count as space: tab, line feed, vertical tab, form feed, carriage return and blank. */
  lemma SpaceMeaning(b: Byte)
    ensures IsSpace(b) <==> b in [9, 10, 11, 12, 13, 32]
  {
    var spaces: Bytes := [9, 10, 11, 12, 13, 32];
    assert spaces[0] == 9 && spaces[1] == 10 && spaces[2] == 11;
    assert spaces[3] == 12 && spaces[4] == 13 && spaces[5] == 32;
  }

  lemma SplitNothing()
    ensures SplitLines([]) == []
  {
  }

  /** Splitting is local: text after an LF boundary cannot change the lines before it. */
  lemma {:induction false} SplitConcat(a: Bytes, b: Bytes)
    requires Terminated(a)
    ensures SplitLines(a + b) == SplitLines(a) + SplitLines(b)
    decreases |a|
  {
    hide *;
    if a == [] {
      SplitNothing();
      assert a + b == b;
      assert [] + SplitLines(b) == SplitLines(b);
    } else {
      FirstLineLocal(a, b);
      var e := BreakAt(a);
      var rest := AfterBreak(a, e);
      SplitUnfold(a, e);
      SplitConcat(rest, b);
      Associate([a[..e]], SplitLines(rest), SplitLines(b));
    }
  }

  function Line(l: Bytes): Bytes {
    l + [LF]
  }

  /** The bytes of a file holding the given lines, each ended by one LF. */
  function Render(ls: seq<Bytes>): (s: Bytes)
    ensures Terminated(s)
  {
    if ls == [] then [] else Render(ls[..|ls| - 1]) + Line(ls[|ls| - 1])
  }

  lemma RenderSnoc(ls: seq<Bytes>, l: Bytes)
    ensures Render(ls + [l]) == Render(ls) + Line(l)
  {
    assert (ls + [l])[..|ls + [l]| - 1] == ls;
  }

  lemma {:induction false} RenderConcat(a: seq<Bytes>, b: seq<Bytes>)
    ensures Render(a + b) == Render(a) + Render(b)
  {
    if b == [] {
      assert a + b == a;
    } else {
      hide Render, Line;
      var n := |b| - 1;
      var last := b[n];
      RenderConcat(a, b[..n]);
      assert a + b == (a + b[..n]) + [last] && b == b[..n] + [last];
      RenderSnoc(a + b[..n], last);
      RenderSnoc(b[..n], last);
      Associate(Render(a), Render(b[..n]), Line(last));
    }
  }

  predicate CleanLines(ls: seq<Bytes>) {
    forall i | 0 <= i < |ls| :: Clean(ls[i]) && !Blank(ls[i])
  }

  /** Reading back a rendered file yields exactly the lines that were written. */
  lemma {:induction false} SplitRender(ls: seq<Bytes>)
    requires CleanLines(ls)
    ensures SplitLines(Render(ls)) == ls
  {
    if ls != [] {
      hide Render, SplitLines;
      var init, l := ls[..|ls| - 1], ls[|ls| - 1];
      SplitRender(init);
      assert ls == init + [l];
      RenderSnoc(init, l);
      SplitLast(Render(init), l);
    } else {
      SplitNothing();
    }
  }

  lemma SplitLast(s: Bytes, l: Bytes)
    requires Terminated(s) && Clean(l)
    ensures SplitLines(s + Line(l)) == SplitLines(s) + [l]
  {
    SplitConcat(s, Line(l));
    SplitOne(l);
  }

  lemma SplitOne(l: Bytes)
    requires Clean(l)
    ensures SplitLines(Line(l)) == [l]
  {
    SplitAt(Line(l), |l|);
    assert Line(l)[..|l|] == l;
    assert Line(l)[|l| + 1..] == [];
  }

  function NonBlank(ls: seq<Bytes>): seq<Bytes> {
    if ls == [] then []
    else NonBlank(ls[..|ls| - 1]) + if Blank(ls[|ls| - 1]) then [] else [ls[|ls| - 1]]
  }

  lemma NonBlankSnoc(ls: seq<Bytes>, l: Bytes)
    ensures NonBlank(ls + [l]) == NonBlank(ls) + if Blank(l) then [] else [l]
  {
    assert (ls + [l])[..|ls + [l]| - 1] == ls;
  }

  lemma {:induction false} NonBlankClean(ls: seq<Bytes>)
    requires CleanLines(ls)
    ensures NonBlank(ls) == ls
  {
    if ls != [] {
      NonBlankClean(ls[..|ls| - 1]);
      assert ls == ls[..|ls| - 1] + [ls[|ls| - 1]];
    }
  }

  /** The last `window` bytes of a file. */
  function Window(data: Bytes, window: nat): Bytes {
    data[Max(0, |data| - window)..]
  }

  /** The last non-blank line that a read of the last `window` bytes shows. */
  function TailLine(data: Bytes, window: nat): Option<Bytes> {
    var ls := NonBlank(SplitLines(Window(data, window)));
    if ls == [] then None else Some(ls[|ls| - 1])
  }

  lemma {:induction false} NonBlankMember(ls: seq<Bytes>, l: Bytes)
    requires l in NonBlank(ls)
    ensures l in ls
  {
    if ls != [] && l in NonBlank(ls[..|ls| - 1]) {
      NonBlankMember(ls[..|ls| - 1], l);
    }
  }

  lemma TailLineAfter(head: Bytes, l: Bytes)
    requires Terminated(head) && Clean(l) && !Blank(l)
    ensures NonBlank(SplitLines(head + Line(l))) == NonBlank(SplitLines(head)) + [l]
  {
    SplitConcat(head, Line(l));
    SplitOne(l);
    var all := SplitLines(head) + [l];
    assert all[..|all| - 1] == SplitLines(head);
  }

  /**
   The tail read finds the true last record of a file exactly when that record,
   with its line break, fits the window.
   */
  lemma TailLineExact(before: Bytes, l: Bytes, window: nat)
    requires Terminated(before) && Clean(l) && !Blank(l)
    ensures TailLine(before + Line(l), window) == Some(l) <==> |l| + 1 <= window
  {
    var data := before + Line(l);
    var w := Window(data, window);
    if |l| + 1 <= window {
      var head := before[Max(0, |data| - window)..];
      assert w == head + Line(l);
      assert Terminated(head);
      TailLineAfter(head, l);
    } else {
      WindowInside(l, w, Line(l)[|l| + 1 - window..]);
    }
  }

  /** A window shorter than the last line does not show that line. */
  lemma WindowInside(l: Bytes, w: Bytes, end: Bytes)
    requires Clean(l) && w == end && |end| <= |l| && end == Line(l)[|l| + 1 - |end|..]
    ensures l !in NonBlank(SplitLines(w))
  {
    if w != [] {
      var part := l[|l| + 1 - |end|..];
      assert w == Line(part);
      SplitOne(part);
      if l in NonBlank(SplitLines(w)) {
        NonBlankMember(SplitLines(w), l);
      }
    }
  }
}

/**
 What each response comes to, for every action and every answer of the environment,
 said of the bindings, the earlier successes and the environment alone.
 */
module ResponseMeaning {
  import opened Common
  import C = Correlation
  import opened ResponseEngine

  /** From the weakest to the strongest. */
  const STRENGTH: seq<Action> := [Allow, AllowMonitor, Warn, Deny, Terminate, Quarantine]

  predicate AtLeast(x: Action, a: Action) {
    exists i, j | 0 <= j <= i < |STRENGTH| :: STRENGTH[i] == x && STRENGTH[j] == a
  }

  lemma StrengthIs(x: Action, a: Action)
    ensures AtLeast(x, a) <==> RankOf(x) >= RankOf(a)
  {
    assert STRENGTH[RankOf(x)] == x && STRENGTH[RankOf(a)] == a;
    assert forall i | 0 <= i < |STRENGTH| :: RankOf(STRENGTH[i]) == i;
  }

  /** An equal or stronger response has succeeded for this correlation. */
  predicate Outdone(b: Books, t: Target, a: Action) {
    t.id != "" && exists i | 0 <= i < |b.successes| :: b.successes[i].id == t.id && AtLeast(b.successes[i].action, a)
  }

  lemma OutdoneIs(b: Books, t: Target, a: Action)
    requires RanksOk(b)
    ensures Outdone(b, t, a) <==> Suppressed(b, t, a)
  {
    hide AtLeast;
    forall i | 0 <= i < |b.successes|
      ensures AtLeast(b.successes[i].action, a) <==> RankOf(b.successes[i].action) >= RankOf(a)
    {
      StrengthIs(b.successes[i].action, a);
    }
    if Suppressed(b, t, a) {
      assert t.id in b.highest && Earned(b, t.id);
      var i :| 0 <= i < |b.successes| && b.successes[i].id == t.id && RankOf(b.successes[i].action) == Highest(b, t.id);
      assert AtLeast(b.successes[i].action, a);
    }
  }

  predicate Plain(a: Action) {
    a == Allow || a == AllowMonitor || a == Warn
  }

  /** The environment breaks off at a step that the response to this binding gets to. */
  predicate BreaksOn(s: Settings, x: Binding, a: Action, w: World) {
    if a == Terminate then x.process.Some? && w.kill.Breaks?
    else
      && a == Quarantine && x.file.Some? && !s.protectedPath(x.file.value)
      && (|| (x.process.Some? && w.kill.Breaks?)
          || ((x.process.Some? ==> w.kill.Yes?) && w.move.Breaks?))
  }

  predicate Breaks(s: Settings, b: Books, t: Target, a: Action, w: World) {
    exists i | 0 <= i < |b.bindings| :: LiveFor(b, t, b.bindings[i]) && BreaksOn(s, b.bindings[i], a, w)
  }

  /** The result of a response that is not suppressed, once its audit record is written. */
  predicate Comes(s: Settings, b: Books, t: Target, a: Action, w: World, o: Outcome) {
    if Plain(a) then o == Succeeded
    else if a == Deny then o == if t.denied then Succeeded else Refused
    else if !s.automatic then o == Disabled
    else
      && (o == Succeeded <==> if a == Terminate then CanTerminate(b, t, w) else CanQuarantine(s, b, t, w))
      && (o == Outcome.Raised <==> Breaks(s, b, t, a, w))
      && (o == Succeeded || o == Outcome.Raised || o == Refused)
  }

  /** The outcome of every call: nothing counts without its audit record. */
  lemma OutcomeMeaning(s: Settings, b: Books, t: Target, action: Option<Action>, w: World)
    requires Owned(b) && RanksOk(b)
    ensures var o := Execute(s, b, t, action, w).1;
      if !w.audited then o == Outcome.Raised
      else if action == None then o == Refused
      else if Outdone(b, t, action.value) then o == Duplicate
      else Comes(s, b, t, action.value, w, o)
  {
    hide Owned, LiveFor, RanksOk, Outdone;
    UsableIs(b, t);
    if action.Some? && w.audited {
      OutdoneIs(b, t, action.value);
      DestructiveMeaning(s, b, t, w);
      BreaksMeaning(s, b, t, w);
    }
  }

  lemma BreaksMeaning(s: Settings, b: Books, t: Target, w: World)
    requires Owned(b) && w.audited
    ensures TerminateBound(b, t, w) == Outcome.Raised <==> Breaks(s, b, t, Terminate, w)
    ensures QuarantineBound(s, b, t, w) == Outcome.Raised <==> Breaks(s, b, t, Quarantine, w)
  {
    hide Owned, LiveFor;
    UsableIs(b, t);
  }

  /**
   What a call leaves behind: a success is entered with its correlation and action,
   a quarantine that was tried and did not break off gives up the correlation's
   binding and closes its descriptor, and nothing else changes.
   */
  lemma ExecuteEffect(s: Settings, b: Books, t: Target, action: Option<Action>, w: World)
    requires Inv(b)
    ensures var (c, o) := Execute(s, b, t, action, w);
      var gone := action == Some(Quarantine) && s.automatic && (o == Succeeded || o == Refused);
      && Inv(c)
      && c.successes == b.successes + (if o == Succeeded then [Success(t.id, action.value)] else [])
      && (forall x :: x in c.bindings <==> x in b.bindings && !(gone && x.id == t.id))
      && (!gone ==> c.bindings == b.bindings && c.open == b.open)
  {
    hide *;
    ExecuteKeeps(s, b, t, action, w);
    InvOwned(b);
    ReleasedBindings(b, t.id);
    ReleasedSame(b, t.id);
    ExecuteParts(s, b, t, action, w);
  }

  lemma ExecuteParts(s: Settings, b: Books, t: Target, action: Option<Action>, w: World)
    ensures var (c, o) := Execute(s, b, t, action, w);
      var r := Released(b, t.id);
      var gone := action == Some(Quarantine) && s.automatic && (o == Succeeded || o == Refused);
      && (o == Succeeded ==> action.Some?)
      && c.bindings == (if gone then r.bindings else b.bindings) && c.open == (if gone then r.open else b.open)
      && c.successes == (if gone then r.successes else b.successes) +
                        if o == Succeeded then [Success(t.id, action.value)] else []
  {
    hide Released, Highest, Usable;
  }

  lemma InvOwned(b: Books)
    requires Inv(b)
    ensures Owned(b) && RanksOk(b)
  {
    hide Owned, RanksOk;
  }

  lemma OwnedOnce(b: Books, i: nat)
    requires Owned(b)
    ensures i < |b.bindings| ==> forall k | 0 <= k < |b.bindings| && k != i :: b.bindings[k].id != b.bindings[i].id
  {
    hide Fds;
  }

  lemma RemovedMembers(bs: seq<Binding>, i: nat, x: Binding)
    requires i < |bs| && forall k | 0 <= k < |bs| && k != i :: bs[k].id != bs[i].id
    ensures x in RemoveAt(bs, i) <==> x in bs && x.id != bs[i].id
  {
    var r := RemoveAt(bs, i);
    assert r == bs[..i] + bs[i + 1..];
    if x in bs && x.id != bs[i].id {
      var k :| 0 <= k < |bs| && bs[k] == x;
      Elsewhere(bs, i, k);
    }
    if x in r {
      var k :| 0 <= k < |r| && r[k] == x;
      assert x == bs[if k < i then k else k + 1];
    }
  }

  lemma ReleasedBindings(b: Books, id: string)
    requires Owned(b)
    ensures forall x :: x in Released(b, id).bindings <==> x in b.bindings && x.id != id
  {
    hide Distinct, Fds;
    var i := IndexOf(b.bindings, id);
    OwnedOnce(b, i);
    if i < |b.bindings| {
      forall x ensures x in RemoveAt(b.bindings, i) <==> x in b.bindings && x.id != id {
        RemovedMembers(b.bindings, i, x);
      }
    }
  }

  // ------------------------------------------------------------ binding

  /** The new binding: what was captured of the process and of the file, and the descriptor that keeps it open. */
  predicate BoundAs(x: Binding, id: string, pid: int, capture: Capture, opening: Opening, now: real) {
    && x.id == id && x.pid == (if pid > 0 then pid else 0) && x.boundAt == now
    && (match capture case Captured(p) => x.process == Some(p) case _ => x.process == None)
    && match opening
       case Opened(fd, file) => x.file == Some(file) && x.fd == Some(fd)
       case _ => x.file == None && x.fd == None
  }

  lemma Elsewhere<T>(s: seq<T>, i: nat, k: nat)
    requires i < |s| && k < |s|
    ensures k != i ==> s[k] in s[..i] + s[i + 1..]
  {
    if k != i {
      assert (s[..i] + s[i + 1..])[if k < i then k else k - 1] == s[k];
    }
  }

  /** Making room drops at most one binding, one that was bound no later than any that stays. */
  lemma TrimMeaning(b: Books)
    requires |b.bindings| <= MAX_BINDINGS
    ensures var c := Trimmed(b);
      && (|b.bindings| < 1024 ==> c == b)
      && (forall x | x in c.bindings :: x in b.bindings)
      && forall x, y | x in b.bindings && x !in c.bindings && y in c.bindings :: x.boundAt <= y.boundAt
  {
    if |b.bindings| == MAX_BINDINGS {
      var i := Oldest(b.bindings);
      var r := RemoveAt(b.bindings, i);
      assert r == b.bindings[..i] + b.bindings[i + 1..] && Trimmed(b) == Dropped(b, i);
      forall x, y | x in b.bindings && x !in r && y in r ensures x.boundAt <= y.boundAt {
        var k :| 0 <= k < |b.bindings| && b.bindings[k] == x;
        Elsewhere(b.bindings, i, k);
        assert k == i;
        var j :| 0 <= j < |b.bindings| && b.bindings[j] == y;
      }
    }
  }

  /**
   Binding: refused without a correlation or without any identity, broken off when the
   opened file cannot be hashed, each without effect; otherwise the correlation has
   exactly the new binding, and of the others only the oldest may go, when 1024 are there.
   */
  lemma BindMeaning(b: Books, id: string, pid: int, capture: Capture, opening: Opening, now: real)
    requires Owned(b)
    ensures var (c, r) := BindState(b, id, pid, capture, opening, now);
      && (r == Bound.Raised <==> id != "" && opening.Failed?)
      && (r == Unbound <==> id == "" || (!opening.Failed? && !capture.Captured? && !opening.Opened?))
      && (r != Bound.Bound ==> c == b)
      && (r == Bound.Bound ==>
            && c.successes == b.successes && c.highest == b.highest
            && Rebound(b, c, id, pid, capture, opening, now))
  {
    hide Owned, Trimmed, Released;
    OwnedSize(b, id);
    ReleasedBindings(b, id);
    TrimMeaning(Released(b, id));
    ReleasedSame(b, id);
    TrimmedSame(Released(b, id));
  }

  predicate Rebound(b: Books, c: Books, id: string, pid: int, capture: Capture, opening: Opening, now: real) {
    var n := |c.bindings| - 1;
    && n >= 0 && BoundAs(c.bindings[n], id, pid, capture, opening, now)
    && (forall x | x in c.bindings[..n] :: x in b.bindings && x.id != id)
    && (|b.bindings| < 1024 ==> forall x | x in b.bindings && x.id != id :: x in c.bindings[..n])
    && (forall x, y | x in b.bindings && x.id != id && x !in c.bindings[..n] && y in c.bindings[..n] ::
          x.boundAt <= y.boundAt)
  }

  lemma OwnedSize(b: Books, id: string)
    requires Owned(b)
    ensures |Released(b, id).bindings| <= |b.bindings| <= MAX_BINDINGS
  {
  }
}

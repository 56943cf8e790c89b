/**
 The runtime score as a function of what was seen rather than of how it arrived,
 and which processes can reach the strongest response.
 */
module CorrelationTheorems {
  import opened Common
  import opened Correlation

  // ------------------------------------------------------------ order and duplication do not matter

  predicate Counting(e: Event) {
    e.kind == Write || e.kind == Rename || e.kind == Connect
  }

  datatype Timed = Timed(e: Event, at: real)

  function DeliveredAll(p: Policy, norm: string -> string, s: State, evs: seq<Timed>): State {
    if evs == [] then s
    else
      var n := |evs| - 1;
      Delivered(p, norm, DeliveredAll(p, norm, s, evs[..n]), evs[n].e, evs[n].at)
  }

  /** The identifier an event contributes to each of the three distinct sets. */
  function FileKey(e: Event): set<string> {
    if e.kind == Write && e.fileKey.Some? then {e.fileKey.value} else {}
  }

  function RenamedKey(e: Event): set<string> {
    if e.kind == Rename then {RenameKey(e)} else {}
  }

  function Endpoint(e: Event): set<string> {
    if e.kind == Connect then {e.endpoint} else {}
  }

  function FileKeys(evs: seq<Timed>): set<string> {
    if evs == [] then {} else FileKeys(evs[..|evs| - 1]) + FileKey(evs[|evs| - 1].e)
  }

  function RenameKeys(evs: seq<Timed>): set<string> {
    if evs == [] then {} else RenameKeys(evs[..|evs| - 1]) + RenamedKey(evs[|evs| - 1].e)
  }

  function Endpoints(evs: seq<Timed>): set<string> {
    if evs == [] then {} else Endpoints(evs[..|evs| - 1]) + Endpoint(evs[|evs| - 1].e)
  }

  /** What scoring does not touch. */
  predicate SameEvidence(s: State, t: State) {
    && t.files == s.files && t.renames == s.renames && t.connections == s.connections
    && t.preScore == s.preScore && t.source == s.source && t.path == s.path && t.status == s.status
  }

  lemma RecalculatedFrame(p: Policy, s: State)
    ensures SameEvidence(s, Recalculated(p, s)) && Recalculated(p, s).occurrences == s.occurrences
  {
  }

  lemma WithRuleFrame(p: Policy, s: State, r: Rule, r': Rule)
    ensures SameEvidence(s, WithRule(p, s, r))
    ensures r' != r ==> Occurrences(WithRule(p, s, r), r') == Occurrences(s, r')
  {
  }

  /** The distinct identifiers a state holds after one more event. */
  predicate Adds(s: State, t: State, files: set<string>, renames: set<string>, connections: set<string>) {
    && t.files == s.files + files && t.renames == s.renames + renames && t.connections == s.connections + connections
    && t.preScore == s.preScore && t.source == s.source && t.path == s.path && t.status == s.status
    && Occurrences(t, ChildExec) == Occurrences(s, ChildExec) && Occurrences(t, Mismatch) == Occurrences(s, Mismatch)
  }

  lemma CountedSets(p: Policy, norm: string -> string, s: State, e: Event, at: real)
    requires Counting(e)
    ensures Adds(s, Delivered(p, norm, s, e, at), FileKey(e), RenamedKey(e), Endpoint(e))
  {
    var t := Touched(s, e, at);
    var u := Counted(p, t, e);
    CountedAdds(p, t, e);
    RecalculatedFrame(p, u);
  }

  lemma CountedAdds(p: Policy, t: State, e: Event)
    requires Counting(e)
    ensures Adds(t, Counted(p, t, e), FileKey(e), RenamedKey(e), Endpoint(e))
  {
    match e.kind {
      case Write =>
        if e.fileKey.Some? {
          RuleFrame(p, t.(files := t.files + {e.fileKey.value}), FileWrite);
        }
      case Rename => RuleFrame(p, t.(renames := t.renames + {RenameKey(e)}), FileRename);
      case Connect => RuleFrame(p, t.(connections := t.connections + {e.endpoint}), Connection);
      case _ =>
    }
  }

  lemma RuleFrame(p: Policy, s: State, r: Rule)
    requires r != ChildExec && r != Mismatch
    ensures Adds(s, WithRule(p, s, r), {}, {}, {})
  {
    WithRuleFrame(p, s, r, ChildExec);
    WithRuleFrame(p, s, r, Mismatch);
  }

  lemma AddsTwice(s: State, t: State, u: State, f: set<string>, r: set<string>, c: set<string>,
                  f': set<string>, r': set<string>, c': set<string>)
    requires Adds(s, t, f, r, c) && Adds(t, u, f', r', c')
    ensures Adds(s, u, f + f', r + r', c + c')
  {
  }

  predicate AllCounting(evs: seq<Timed>) {
    forall i | 0 <= i < |evs| :: Counting(evs[i].e)
  }

  /** What a state remembers of a list of counting events is the union of their identifiers. */
  lemma {:induction false} AllSets(p: Policy, norm: string -> string, s: State, evs: seq<Timed>)
    requires p.Validates() && StateOk(p, s) && AllCounting(evs)
    ensures var u := DeliveredAll(p, norm, s, evs);
      StateOk(p, u) && (u.action == Deny <==> s.action == Deny)
    ensures Adds(s, DeliveredAll(p, norm, s, evs), FileKeys(evs), RenameKeys(evs), Endpoints(evs))
  {
    if evs != [] {
      var n := |evs| - 1;
      var before := DeliveredAll(p, norm, s, evs[..n]);
      var e := evs[n].e;
      AllSets(p, norm, s, evs[..n]);
      DeliveredKeeps(p, norm, before, e, evs[n].at);
      CountedSets(p, norm, before, e, evs[n].at);
      AddsTwice(s, before, DeliveredAll(p, norm, s, evs),
                FileKeys(evs[..n]), RenameKeys(evs[..n]), Endpoints(evs[..n]), FileKey(e), RenamedKey(e), Endpoint(e));
    }
  }

  /** The closed form: capped counts of the distinct identifiers, weighted and capped. */
  function ClosedForm(p: Policy, s: State, files: set<string>, renames: set<string>, connections: set<string>): int {
    Min(100, Score(p, Min(|s.files + files|, p.fileWrite.cap), Min(|s.renames + renames|, p.fileRename.cap),
                   Min(|s.connections + connections|, p.connection.cap),
                   Occurrences(s, ChildExec), Occurrences(s, Mismatch)))
  }

  lemma ScoreMeaning(p: Policy, s: State, u: State, f: set<string>, r: set<string>, c: set<string>)
    requires p.Validates() && StateOk(p, u) && Adds(s, u, f, r, c)
    ensures u.runtimeScore == ClosedForm(p, s, f, r, c)
    ensures u.combined == Min(100, s.preScore + ClosedForm(p, s, f, r, c))
    ensures Calls(p, u.combined, u.action == Deny, u.action)
  {
    ThresholdCalls(p, u.combined);
  }

  lemma CallsOnce(p: Policy, combined: int, denied: bool, a: Action, b: Action)
    requires p.Validates() && Calls(p, combined, denied, a) && Calls(p, combined, denied, b)
    ensures a == b
  {
  }

  /**
   The incremental score refines the closed form, so any reordering or repetition of
   the same events, at any times, gives the same scores and the same action.
   */
  lemma ScoreIsClosedForm(p: Policy, norm: string -> string, s: State, evs: seq<Timed>)
    requires p.Validates() && StateOk(p, s) && AllCounting(evs)
    ensures var u := DeliveredAll(p, norm, s, evs);
      && u.runtimeScore == ClosedForm(p, s, FileKeys(evs), RenameKeys(evs), Endpoints(evs))
      && u.combined == Min(100, s.preScore + ClosedForm(p, s, FileKeys(evs), RenameKeys(evs), Endpoints(evs)))
      && Calls(p, u.combined, s.action == Deny, u.action)
  {
    hide *;
    AllSets(p, norm, s, evs);
    ScoreMeaning(p, s, DeliveredAll(p, norm, s, evs), FileKeys(evs), RenameKeys(evs), Endpoints(evs));
  }

  /** Every event of a also occurs in b, at whatever time. */
  predicate Covers(a: seq<Timed>, b: seq<Timed>) {
    forall i | 0 <= i < |a| :: Occurs(a[i].e, b)
  }

  predicate Occurs(e: Event, b: seq<Timed>) {
    exists j | 0 <= j < |b| :: b[j].e == e
  }

  lemma OrderDoesNotMatter(p: Policy, norm: string -> string, s: State, a: seq<Timed>, b: seq<Timed>)
    requires p.Validates() && StateOk(p, s) && AllCounting(a) && AllCounting(b)
    requires Covers(a, b) && Covers(b, a)
    ensures var u, v := DeliveredAll(p, norm, s, a), DeliveredAll(p, norm, s, b);
      u.runtimeScore == v.runtimeScore && u.combined == v.combined && u.action == v.action
  {
    hide *;
    ScoreIsClosedForm(p, norm, s, a);
    ScoreIsClosedForm(p, norm, s, b);
    KeysFollow(a, b);
    KeysFollow(b, a);
    assert FileKeys(a) == FileKeys(b) && RenameKeys(a) == RenameKeys(b) && Endpoints(a) == Endpoints(b);
    var u, v := DeliveredAll(p, norm, s, a), DeliveredAll(p, norm, s, b);
    CallsOnce(p, u.combined, s.action == Deny, u.action, v.action);
  }

  lemma {:induction false} KeysOf(e: Event, b: seq<Timed>)
    requires Occurs(e, b)
    ensures FileKey(e) <= FileKeys(b) && RenamedKey(e) <= RenameKeys(b) && Endpoint(e) <= Endpoints(b)
  {
    var n := |b| - 1;
    if b[n].e != e {
      var j :| 0 <= j < |b| && b[j].e == e;
      assert b[..n][j].e == e;
      KeysOf(e, b[..n]);
    }
  }

  lemma {:induction false} KeysFollow(a: seq<Timed>, b: seq<Timed>)
    requires Covers(a, b)
    ensures FileKeys(a) <= FileKeys(b) && RenameKeys(a) <= RenameKeys(b) && Endpoints(a) <= Endpoints(b)
  {
    if a != [] {
      var n := |a| - 1;
      assert Covers(a[..n], b) by {
        assert forall i | 0 <= i < n :: Occurs(a[i].e, b);
      }
      KeysFollow(a[..n], b);
      assert Occurs(a[n].e, b);
      KeysOf(a[n].e, b);
    }
  }

  // ------------------------------------------------------------ reaching the strongest response

  /** The most that file writes, renames and connections can add. */
  function ObservableMaximum(p: Policy): int {
    p.Maximum(FileWrite) + p.Maximum(FileRename) + p.Maximum(Connection)
  }

  /** A process that only eBPF has seen: no path to compare, no pre-execution score. */
  predicate OnlyObserved(s: State) {
    s.source == RuntimeOnly && s.path == None && s.action != Deny && Occurrences(s, Mismatch) == 0
  }

  lemma {:induction false} ObservedStays(p: Policy, norm: string -> string, s: State, evs: seq<Timed>)
    requires p.Validates() && StateOk(p, s) && OnlyObserved(s)
    ensures var u := DeliveredAll(p, norm, s, evs);
      StateOk(p, u) && OnlyObserved(u) && Occurrences(u, ChildExec) == Occurrences(s, ChildExec)
  {
    hide Policy.Validates, StateOk, Score, Weighted;
    if evs != [] {
      var n := |evs| - 1;
      ObservedStays(p, norm, s, evs[..n]);
      var before := DeliveredAll(p, norm, s, evs[..n]);
      DeliveredKeeps(p, norm, before, evs[n].e, evs[n].at);
      if Counting(evs[n].e) {
        CountedSets(p, norm, before, evs[n].e, evs[n].at);
      }
    }
  }

  lemma WeightedBound(p: Policy, s: State)
    requires p.Validates() && CountsOk(p, s) && Occurrences(s, Mismatch) == 0
    ensures Weighted(p, s) <= ObservableMaximum(p) + p.childExec.weight * Occurrences(s, ChildExec)
  {
    Scale(p.fileWrite.weight, Occurrences(s, FileWrite), p.fileWrite.cap);
    Scale(p.fileRename.weight, Occurrences(s, FileRename), p.fileRename.cap);
    Scale(p.connection.weight, Occurrences(s, Connection), p.connection.cap);
  }

  lemma Scale(w: int, a: int, b: int)
    requires w >= 0 && a <= b
    ensures w * a <= w * b
  {
  }

  function Label(n: nat): string {
    seq(n, _ => 'x')
  }

  function Labels(n: nat): set<string> {
    set i | 0 <= i < n :: Label(i)
  }

  lemma LabelsSnoc(n: nat)
    requires n > 0
    ensures Labels(n) == Labels(n - 1) + {Label(n - 1)} && Label(n - 1) !in Labels(n - 1)
  {
    assert forall i | 0 <= i < n - 1 :: |Label(i)| == i;
    assert |Label(n - 1)| == n - 1;
  }

  lemma {:induction false} LabelCount(n: nat)
    ensures |Labels(n)| == n
  {
    if n > 0 {
      LabelCount(n - 1);
      LabelsSnoc(n);
    } else {
      assert Labels(0) == {};
    }
  }

  /** Events of one kind with n different identifiers. */
  function Burst(kind: Kind, n: nat): seq<Timed> {
    seq(n, i requires 0 <= i < n =>
      Timed(Event(kind, 1, 0, 0, 0, Some("r" + Label(i)), Some(Label(i)), Label(i)), 0.0))
  }

  lemma BurstSnoc(kind: Kind, n: nat)
    requires n > 0
    ensures Burst(kind, n)[..n - 1] == Burst(kind, n - 1)
    ensures var l := Label(n - 1); Burst(kind, n)[n - 1].e == Event(kind, 1, 0, 0, 0, Some("r" + l), Some(l), l)
  {
  }

  lemma {:induction false} BurstFiles(n: nat)
    ensures FileKeys(Burst(Write, n)) == Labels(n)
  {
    if n > 0 {
      BurstFiles(n - 1);
      BurstSnoc(Write, n);
      LabelsSnoc(n);
    }
  }

  lemma {:induction false} BurstEndpoints(n: nat)
    ensures Endpoints(Burst(Connect, n)) == Labels(n)
  {
    if n > 0 {
      BurstEndpoints(n - 1);
      BurstSnoc(Connect, n);
      LabelsSnoc(n);
    }
  }

  lemma {:induction false} BurstRenames(n: nat)
    ensures |RenameKeys(Burst(Rename, n))| == n
    ensures forall k | k in RenameKeys(Burst(Rename, n)) :: |k| <= n
  {
    if n > 0 {
      BurstRenames(n - 1);
      BurstSnoc(Rename, n);
      assert |"r" + Label(n - 1)| == n;
      assert RenameKeys(Burst(Rename, n)) == RenameKeys(Burst(Rename, n - 1)) + {"r" + Label(n - 1)};
    }
  }

  /** Enough different writes, renames and connections to exhaust three caps. */
  function Flood(f: nat, r: nat, c: nat): seq<Timed> {
    Burst(Write, f) + Burst(Rename, r) + Burst(Connect, c)
  }

  lemma CapsPositive(p: Policy)
    requires p.Validates()
    ensures p.fileWrite.cap > 0 && p.fileRename.cap > 0 && p.connection.cap > 0
    ensures p.fileWrite.weight > 0 && p.fileRename.weight > 0 && p.connection.weight > 0
    ensures p.quarantineMin <= 100
  {
    assert p.Spec(FileWrite).cap > 0 && p.Spec(FileRename).cap > 0 && p.Spec(Connection).cap > 0;
  }

  lemma SizeOfSuperset<T>(a: set<T>, b: set<T>)
    requires a <= b
    ensures |a| <= |b|
  {
    assert b == a + (b - a);
  }

  lemma CoversPart(a: seq<Timed>, b: seq<Timed>, c: seq<Timed>)
    ensures Covers(a, a + b + c) && Covers(b, a + b + c) && Covers(c, a + b + c)
  {
    var all := a + b + c;
    forall i | 0 <= i < |a| ensures Occurs(a[i].e, all) { assert all[i].e == a[i].e; }
    forall i | 0 <= i < |b| ensures Occurs(b[i].e, all) { assert all[|a| + i].e == b[i].e; }
    forall i | 0 <= i < |c| ensures Occurs(c[i].e, all) { assert all[|a| + |b| + i].e == c[i].e; }
  }

  lemma FloodParts(a: seq<Timed>, b: seq<Timed>, c: seq<Timed>)
    ensures |FileKeys(a)| <= |FileKeys(a + b + c)|
    ensures |RenameKeys(b)| <= |RenameKeys(a + b + c)|
    ensures |Endpoints(c)| <= |Endpoints(a + b + c)|
  {
    CoversPart(a, b, c);
    KeysFollow(a, a + b + c);
    KeysFollow(b, a + b + c);
    KeysFollow(c, a + b + c);
    SizeOfSuperset(FileKeys(a), FileKeys(a + b + c));
    SizeOfSuperset(RenameKeys(b), RenameKeys(a + b + c));
    SizeOfSuperset(Endpoints(c), Endpoints(a + b + c));
  }

  lemma FloodCounts(f: nat, r: nat, c: nat)
    ensures AllCounting(Flood(f, r, c))
  {
  }

  lemma FloodSizes(f: nat, r: nat, c: nat)
    ensures |FileKeys(Burst(Write, f) + Burst(Rename, r) + Burst(Connect, c))| >= f
    ensures |RenameKeys(Burst(Write, f) + Burst(Rename, r) + Burst(Connect, c))| >= r
    ensures |Endpoints(Burst(Write, f) + Burst(Rename, r) + Burst(Connect, c))| >= c
  {
    hide *;
    FloodParts(Burst(Write, f), Burst(Rename, r), Burst(Connect, c));
    BurstFiles(f);
    BurstRenames(r);
    BurstEndpoints(c);
    LabelCount(f);
    LabelCount(c);
  }

  lemma FloodKeys(f: nat, r: nat, c: nat)
    ensures AllCounting(Flood(f, r, c))
    ensures |FileKeys(Flood(f, r, c))| >= f
    ensures |RenameKeys(Flood(f, r, c))| >= r
    ensures |Endpoints(Flood(f, r, c))| >= c
  {
    hide FileKeys, RenameKeys, Endpoints, Burst, AllCounting;
    FloodCounts(f, r, c);
    FloodSizes(f, r, c);
  }

  lemma ExhaustedForm(p: Policy, s: State, files: set<string>, renames: set<string>, connections: set<string>)
    requires |files| >= p.fileWrite.cap && |renames| >= p.fileRename.cap && |connections| >= p.connection.cap
    requires Occurrences(s, Mismatch) == 0
    ensures ClosedForm(p, s, files, renames, connections) ==
            Min(100, ObservableMaximum(p) + p.childExec.weight * Occurrences(s, ChildExec))
  {
    SizeOfSuperset(files, s.files + files);
    SizeOfSuperset(renames, s.renames + renames);
    SizeOfSuperset(connections, s.connections + connections);
    FullScore(p, Occurrences(s, ChildExec));
  }

  lemma FloodExhausts(p: Policy, norm: string -> string, s: State, f: nat, r: nat, c: nat)
    requires p.Validates() && StateOk(p, s) && Occurrences(s, Mismatch) == 0
    requires f == p.fileWrite.cap && r == p.fileRename.cap && c == p.connection.cap
    ensures DeliveredAll(p, norm, s, Flood(f, r, c)).runtimeScore ==
            Min(100, ObservableMaximum(p) + p.childExec.weight * Occurrences(s, ChildExec))
  {
    hide *;
    var flood := Flood(f, r, c);
    FloodKeys(f, r, c);
    ScoreIsClosedForm(p, norm, s, flood);
    ExhaustedForm(p, s, FileKeys(flood), RenameKeys(flood), Endpoints(flood));
  }

  lemma FullScore(p: Policy, children: int)
    ensures Score(p, p.fileWrite.cap, p.fileRename.cap, p.connection.cap, children, 0) ==
            ObservableMaximum(p) + p.childExec.weight * children
  {
  }

  /**
   Exactly when a process seen only by eBPF can be recommended for quarantine: the
   maxima of the three observable rules, plus the child rule if it already fired,
   must reach the threshold. The mismatch rule never helps such a process.
   */
  lemma QuarantineReachable(p: Policy, norm: string -> string, s: State)
    requires p.Validates() && StateOk(p, s) && OnlyObserved(s)
    ensures (exists evs :: DeliveredAll(p, norm, s, evs).action == Quarantine) <==>
            ObservableMaximum(p) + p.childExec.weight * Occurrences(s, ChildExec) >= p.quarantineMin
  {
    var top := ObservableMaximum(p) + p.childExec.weight * Occurrences(s, ChildExec);
    if top >= p.quarantineMin {
      FloodQuarantines(p, norm, s);
    }
    forall evs | DeliveredAll(p, norm, s, evs).action == Quarantine ensures top >= p.quarantineMin {
      ObservedStays(p, norm, s, evs);
      QuarantineNeeds(p, DeliveredAll(p, norm, s, evs));
    }
  }

  lemma FloodQuarantines(p: Policy, norm: string -> string, s: State)
    requires p.Validates() && StateOk(p, s) && OnlyObserved(s)
    requires ObservableMaximum(p) + p.childExec.weight * Occurrences(s, ChildExec) >= p.quarantineMin
    ensures exists evs :: DeliveredAll(p, norm, s, evs).action == Quarantine
  {
    hide *;
    CapsPositive(p);
    NoMismatch(s);
    var flood := Flood(p.fileWrite.cap, p.fileRename.cap, p.connection.cap);
    FloodExhausts(p, norm, s, p.fileWrite.cap, p.fileRename.cap, p.connection.cap);
    ObservedStays(p, norm, s, flood);
    HighScore(p, DeliveredAll(p, norm, s, flood),
              ObservableMaximum(p) + p.childExec.weight * Occurrences(s, ChildExec));
  }

  lemma NoMismatch(s: State)
    requires OnlyObserved(s)
    ensures Occurrences(s, Mismatch) == 0
  {
  }

  lemma HighScore(p: Policy, u: State, top: int)
    requires StateOk(p, u) && OnlyObserved(u) && u.runtimeScore == Min(100, top) && top >= p.quarantineMin
    requires p.quarantineMin <= 100
    ensures u.action == Quarantine
  {
  }

  lemma QuarantineNeeds(p: Policy, u: State)
    requires p.Validates() && StateOk(p, u) && OnlyObserved(u) && u.action == Quarantine
    ensures ObservableMaximum(p) + p.childExec.weight * Occurrences(u, ChildExec) >= p.quarantineMin
  {
    hide Score, Policy.Maximum, ObservableMaximum;
    WeightedBound(p, u);
  }

  /** Passes the check only because the child and mismatch maxima are counted. */
  function CountedOnlyPolicy(): Policy {
    Policy(0, 100, 300.0, 60.0, 5.0, 30.0, 16, 40, 70, 90, RuleSpec(10, 1), RuleSpec(10, 1), RuleSpec(10, 1),
           RuleSpec(10, 6), RuleSpec(60, 1))
  }

  lemma CountedOnlyPolicyPasses()
    ensures CountedOnlyPolicy().Validates()
  {
    forall r: Rule ensures CountedOnlyPolicy().Spec(r).weight > 0 && CountedOnlyPolicy().Spec(r).cap > 0 {
      match r { case FileWrite => case FileRename => case Connection => case ChildExec => case Mismatch => }
    }
  }

  lemma CountedOnlyTop(children: int)
    requires children <= 1
    ensures ObservableMaximum(CountedOnlyPolicy()) + CountedOnlyPolicy().childExec.weight * children
            < CountedOnlyPolicy().quarantineMin
  {
  }

  /**
   The configuration check is weaker than its comment: this policy passes it, yet
   no process seen only by eBPF, even one linked to a parent, can reach quarantine.
   */
  lemma ValidationIsWeaker(norm: string -> string, s: State)
    requires StateOk(CountedOnlyPolicy(), s) && OnlyObserved(s) && Occurrences(s, ChildExec) <= 1
    ensures CountedOnlyPolicy().Validates()
    ensures !exists evs :: DeliveredAll(CountedOnlyPolicy(), norm, s, evs).action == Quarantine
  {
    hide *;
    CountedOnlyPolicyPasses();
    CountedOnlyTop(Occurrences(s, ChildExec));
    QuarantineReachable(CountedOnlyPolicy(), norm, s);
  }
}

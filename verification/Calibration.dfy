/** Threshold calibration: the recommended threshold is optimal under the false-positive target. */
module Calibration {
  import opened Common

  datatype Item = Item(score: int, malicious: bool)

  datatype Advice =
    | InsufficientData
    | InsufficientClassCoverage
    | NoThresholdMeetsTarget
    | Recommend(threshold: int, falsePositiveRate: real, recall: real)

  datatype Refusal = BadRate | BadScore

  // ------------------------------------------------------------ counts and rates

  function Count(items: seq<Item>, kind: bool, threshold: int): nat {
    if items == [] then 0
    else
      var x := items[|items| - 1];
      Count(items[..|items| - 1], kind, threshold) + if x.malicious == kind && x.score >= threshold then 1 else 0
  }

  function Size(items: seq<Item>, kind: bool): nat {
    if items == [] then 0
    else Size(items[..|items| - 1], kind) + if items[|items| - 1].malicious == kind then 1 else 0
  }

  function Scores(items: seq<Item>): set<int> {
    set i | 0 <= i < |items| :: items[i].score
  }

  predicate InRange(items: seq<Item>) {
    forall i | 0 <= i < |items| :: 0 <= items[i].score <= 100
  }

  predicate BothClasses(items: seq<Item>) {
    Size(items, false) > 0 && Size(items, true) > 0
  }

  function Rate(items: seq<Item>, kind: bool, threshold: int): real
    requires Size(items, kind) > 0
  {
    Count(items, kind, threshold) as real / Size(items, kind) as real
  }

  predicate Meets(items: seq<Item>, threshold: int, target: real)
    requires BothClasses(items)
  {
    Rate(items, false, threshold) <= target
  }

  // ------------------------------------------------------------ monotonicity

  lemma {:induction false} CountFalls(items: seq<Item>, kind: bool, low: int, high: int)
    requires low <= high
    ensures Count(items, kind, low) >= Count(items, kind, high)
  {
    if items != [] {
      CountFalls(items[..|items| - 1], kind, low, high);
    }
  }

  lemma Divide(a: int, b: int, n: int)
    requires a <= b && n > 0
    ensures a as real / n as real <= b as real / n as real
  {
    var d := (b - a) as real / n as real;
    assert d >= 0.0;
    assert b as real / n as real == a as real / n as real + d;
  }

  lemma RateFalls(items: seq<Item>, kind: bool, low: int, high: int)
    requires low <= high && Size(items, kind) > 0
    ensures Rate(items, kind, low) >= Rate(items, kind, high)
  {
    hide Count;
    CountFalls(items, kind, low, high);
    Divide(Count(items, kind, high), Count(items, kind, low), Size(items, kind));
  }

  /** Between two observed scores nothing changes. */
  lemma {:induction false} CountGap(items: seq<Item>, kind: bool, low: int, high: int)
    requires low <= high && forall i | 0 <= i < |items| :: items[i].score < low || items[i].score >= high
    ensures Count(items, kind, low) == Count(items, kind, high)
  {
    if items != [] {
      CountGap(items[..|items| - 1], kind, low, high);
    }
  }

  lemma RateGap(items: seq<Item>, kind: bool, low: int, high: int)
    requires Size(items, kind) > 0
    requires low <= high && forall i | 0 <= i < |items| :: items[i].score < low || items[i].score >= high
    ensures Rate(items, kind, low) == Rate(items, kind, high)
  {
    CountGap(items, kind, low, high);
  }

  // ------------------------------------------------------------ the search

  datatype Candidate = Candidate(recall: real, rate: real, threshold: int)

  function CandidateAt(items: seq<Item>, t: int): Candidate
    requires BothClasses(items)
  {
    Candidate(Rate(items, true, t), Rate(items, false, t), t)
  }

  predicate Rising(ts: seq<int>) {
    forall i, j | 0 <= i < j < |ts| :: ts[i] < ts[j]
  }

  function Insert(ts: seq<int>, x: int): seq<int> {
    if ts == [] || x < ts[0] then [x] + ts
    else if x == ts[0] then ts
    else [ts[0]] + Insert(ts[1..], x)
  }

  /** sorted({scores}) */
  function SortedScores(items: seq<Item>): seq<int> {
    if items == [] then [] else Insert(SortedScores(items[..|items| - 1]), items[|items| - 1].score)
  }

  lemma {:induction false} InsertMeaning(ts: seq<int>, x: int)
    requires Rising(ts)
    ensures Rising(Insert(ts, x)) && forall t :: t in Insert(ts, x) <==> t == x || t in ts
  {
    if ts != [] && x > ts[0] {
      InsertMeaning(ts[1..], x);
      var r := Insert(ts[1..], x);
      forall k | 0 <= k < |r| ensures ts[0] < r[k] {
        assert r[k] in r;
      }
      assert ts == [ts[0]] + ts[1..];
    }
  }

  lemma {:induction false} SortedMeaning(items: seq<Item>)
    ensures Rising(SortedScores(items)) && forall t :: t in SortedScores(items) <==> t in Scores(items)
  {
    if items != [] {
      var n := |items| - 1;
      SortedMeaning(items[..n]);
      InsertMeaning(SortedScores(items[..n]), items[n].score);
      ScoresSnoc(items);
    }
  }

  lemma ScoresSnoc(items: seq<Item>)
    requires items != []
    ensures Scores(items) == Scores(items[..|items| - 1]) + {items[|items| - 1].score}
  {
    var n := |items| - 1;
    forall t | t in Scores(items) ensures t in Scores(items[..n]) + {items[n].score} {
      var i :| 0 <= i < |items| && items[i].score == t;
      if i < n {
        assert items[..n][i].score == t;
      }
    }
    forall t | t in Scores(items[..n]) ensures t in Scores(items) {
      var i :| 0 <= i < n && items[..n][i].score == t;
      assert items[i].score == t;
    }
  }

  /** Higher recall first, then the lower threshold. */
  predicate Better(a: Candidate, b: Candidate) {
    a.recall > b.recall || (a.recall == b.recall && a.threshold < b.threshold)
  }

  /** The largest by that order; the first of equals, as max returns it. */
  method Best(cs: seq<Candidate>) returns (best: Candidate)
    requires cs != []
    ensures best in cs && forall i | 0 <= i < |cs| :: !Better(cs[i], best)
  {
    best := cs[0];
    var i := 1;
    while i < |cs|
      invariant 1 <= i <= |cs| && best in cs
      invariant forall k | 0 <= k < i :: !Better(cs[k], best)
    {
      if Better(cs[i], best) {
        best := cs[i];
      }
      i := i + 1;
    }
  }

  predicate Feasible(items: seq<Item>, t: int, target: real)
    requires BothClasses(items)
  {
    t in Scores(items) && Meets(items, t, target)
  }

  /** The least observed score that meets the target. */
  predicate LeastFeasible(items: seq<Item>, t: int, target: real)
    requires BothClasses(items)
  {
    Feasible(items, t, target) && forall u | u in Scores(items) && Meets(items, u, target) :: t <= u
  }

  method Candidates(items: seq<Item>, target: real) returns (cs: seq<Candidate>)
    requires BothClasses(items)
    ensures forall i | 0 <= i < |cs| ::
      Feasible(items, cs[i].threshold, target) && cs[i] == CandidateAt(items, cs[i].threshold)
    ensures forall t | Feasible(items, t, target) :: CandidateAt(items, t) in cs
  {
    hide Rate;
    SortedMeaning(items);
    var ts := SortedScores(items);
    cs := [];
    var k := 0;
    while k < |ts|
      invariant k <= |ts|
      invariant forall i | 0 <= i < |cs| ::
        Feasible(items, cs[i].threshold, target) && cs[i] == CandidateAt(items, cs[i].threshold)
      invariant forall i | 0 <= i < k :: Meets(items, ts[i], target) ==> CandidateAt(items, ts[i]) in cs
    {
      assert ts[k] in ts;
      var c := CandidateAt(items, ts[k]);
      if c.rate <= target {
        cs := cs + [c];
      }
      k := k + 1;
    }
    forall t | Feasible(items, t, target) ensures CandidateAt(items, t) in cs {
      var i :| 0 <= i < |ts| && ts[i] == t;
    }
  }

  /** The best candidate is the least feasible one: lowering a feasible threshold never loses recall. */
  lemma BestIsLeast(items: seq<Item>, target: real, t: int)
    requires BothClasses(items) && Feasible(items, t, target)
    requires forall u | Feasible(items, u, target) :: !Better(CandidateAt(items, u), CandidateAt(items, t))
    ensures LeastFeasible(items, t, target)
  {
    hide Rate;
    forall u | u in Scores(items) && Meets(items, u, target) ensures t <= u {
      assert Feasible(items, u, target);
      if u < t {
        RateFalls(items, true, u, t);
      }
    }
  }

  /** What a correct answer is for records and a target. */
  predicate Correct(items: seq<Item>, target: real, r: Result<Advice, Refusal>) {
    if !(0.0 <= target <= 1.0) then r == Err(BadRate)
    else if items == [] then r == Ok(InsufficientData)
    else if !InRange(items) then r == Err(BadScore)
    else if !BothClasses(items) then r == Ok(InsufficientClassCoverage)
    else r.Ok? && match r.value
      case InsufficientData => false
      case InsufficientClassCoverage => false
      case NoThresholdMeetsTarget => forall t | t in Scores(items) :: !Meets(items, t, target)
      case Recommend(t, rate, recall) =>
        LeastFeasible(items, t, target) && rate == Rate(items, false, t) && recall == Rate(items, true, t)
  }

  method CalibrateDenyThreshold(items: seq<Item>, target: real) returns (r: Result<Advice, Refusal>)
    ensures Correct(items, target, r)
  {
    hide Rate, Scores, Count;
    if !(0.0 <= target <= 1.0) {
      return Err(BadRate);
    }
    if items == [] {
      return Ok(InsufficientData);
    }
    if exists i | 0 <= i < |items| :: !(0 <= items[i].score <= 100) {
      return Err(BadScore);
    }
    if Size(items, false) == 0 || Size(items, true) == 0 {
      return Ok(InsufficientClassCoverage);
    }
    var cs := Candidates(items, target);
    if cs == [] {
      forall t | t in Scores(items) ensures !Meets(items, t, target) {
        var found := Feasible(items, t, target);
      }
      return Ok(NoThresholdMeetsTarget);
    }
    var best := Best(cs);
    var i :| 0 <= i < |cs| && cs[i] == best;
    forall u | Feasible(items, u, target) ensures !Better(CandidateAt(items, u), best) {
      var k :| 0 <= k < |cs| && cs[k] == CandidateAt(items, u);
    }
    BestIsLeast(items, target, best.threshold);
    return Ok(Recommend(best.threshold, best.rate, best.recall));
  }

  // ------------------------------------------------------------ optimality

  /** The next observed score at or above any threshold up to the largest one. */
  lemma {:induction false} NextScore(items: seq<Item>, u: int) returns (t: int)
    requires exists i | 0 <= i < |items| :: items[i].score >= u
    ensures t in Scores(items) && t >= u
    ensures forall i | 0 <= i < |items| :: items[i].score < u || items[i].score >= t
  {
    var n := |items| - 1;
    var last := items[n].score;
    if exists i | 0 <= i < n :: items[i].score >= u {
      var j :| 0 <= j < n && items[j].score >= u;
      assert items[..n][j].score >= u;
      t := NextScore(items[..n], u);
      ScoresSnoc(items);
      assert forall i | 0 <= i < n :: items[..n][i] == items[i];
      if u <= last < t {
        t := last;
      }
    } else {
      t := last;
      ScoresSnoc(items);
    }
  }

  /**
   Optimality over every threshold, observed or not, up to the largest observed
   score: none that meets the target has a higher recall than the recommended one.
   */
  lemma NoBetterThreshold(items: seq<Item>, target: real, t: int, u: int)
    requires BothClasses(items) && LeastFeasible(items, t, target)
    requires (exists i | 0 <= i < |items| :: items[i].score >= u) && Meets(items, u, target)
    ensures Rate(items, true, u) <= Rate(items, true, t)
  {
    hide Rate, Scores;
    var v := NextScore(items, u);
    RateGap(items, true, u, v);
    RateGap(items, false, u, v);
    assert v in Scores(items) && Meets(items, v, target);
    RateFalls(items, true, t, v);
  }

  /** No observed score meets the target exactly when no threshold up to the largest one does. */
  lemma NoneMeets(items: seq<Item>, target: real)
    requires BothClasses(items)
    ensures (forall t | t in Scores(items) :: !Meets(items, t, target)) <==>
            (forall u | (exists i | 0 <= i < |items| :: items[i].score >= u) :: !Meets(items, u, target))
  {
    hide Rate;
    if forall t | t in Scores(items) :: !Meets(items, t, target) {
      forall u | (exists i | 0 <= i < |items| :: items[i].score >= u) ensures !Meets(items, u, target) {
        var v := NextScore(items, u);
        RateGap(items, false, u, v);
      }
    }
    if forall u | (exists i | 0 <= i < |items| :: items[i].score >= u) :: !Meets(items, u, target) {
      forall t | t in Scores(items) ensures !Meets(items, t, target) {
        var i :| 0 <= i < |items| && items[i].score == t;
      }
    }
  }

  // ------------------------------------------------------------ what is counted

  /** The records of one class, and those of them that a threshold denies. */
  function OfClass(items: seq<Item>, malicious: bool): set<nat> {
    set i: nat | i < |items| && items[i].malicious == malicious
  }

  function DeniedAt(items: seq<Item>, malicious: bool, threshold: int): set<nat> {
    set i: nat | i < |items| && items[i].malicious == malicious && threshold <= items[i].score
  }

  lemma ClassSnoc(items: seq<Item>, malicious: bool)
    requires items != []
    ensures var n := |items| - 1;
      |OfClass(items, malicious)| == |OfClass(items[..n], malicious)| + if items[n].malicious == malicious then 1 else 0
  {
    var n := |items| - 1;
    var a := OfClass(items[..n], malicious);
    assert n !in a;
    assert OfClass(items, malicious) == if items[n].malicious == malicious then a + {n} else a;
  }

  lemma DeniedSnoc(items: seq<Item>, malicious: bool, threshold: int)
    requires items != []
    ensures var n := |items| - 1;
      |DeniedAt(items, malicious, threshold)| == |DeniedAt(items[..n], malicious, threshold)| +
        if items[n].malicious == malicious && items[n].score >= threshold then 1 else 0
  {
    var n := |items| - 1;
    var a := DeniedAt(items[..n], malicious, threshold);
    assert n !in a;
    assert DeniedAt(items, malicious, threshold) ==
           if items[n].malicious == malicious && items[n].score >= threshold then a + {n} else a;
  }

  lemma {:induction false} CountsAre(items: seq<Item>, malicious: bool, threshold: int)
    ensures Size(items, malicious) == |OfClass(items, malicious)|
    ensures Count(items, malicious, threshold) == |DeniedAt(items, malicious, threshold)|
  {
    if items == [] {
      assert OfClass(items, malicious) == {} && DeniedAt(items, malicious, threshold) == {};
    } else {
      hide OfClass, DeniedAt;
      CountsAre(items[..|items| - 1], malicious, threshold);
      ClassSnoc(items, malicious);
      DeniedSnoc(items, malicious, threshold);
    }
  }

  lemma Quotient(a: real, b: real)
    requires b != 0.0
    ensures a / b * b == a
  {
  }

  /** A rate is the share of a class that the threshold denies. */
  lemma RateMeaning(items: seq<Item>, malicious: bool, threshold: int)
    requires OfClass(items, malicious) != {}
    ensures Size(items, malicious) > 0
    ensures Rate(items, malicious, threshold) * |OfClass(items, malicious)| as real ==
            |DeniedAt(items, malicious, threshold)| as real
  {
    hide Count, Size, OfClass, DeniedAt;
    CountsAre(items, malicious, threshold);
    Quotient(Count(items, malicious, threshold) as real, Size(items, malicious) as real);
  }
}

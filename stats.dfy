/**
 Episode-reward statistics taken at the end of an evaluation window: the sum,
 maximum, minimum and mean of the list of finished episodes' rewards, and the
 fallback to zeros that the training loop applies when that list is empty.
 */
module Stats {

  /** Sum of a list of rewards (built from the back, as the list is built by appending). */
  function Sum(s: seq<int>): int
  {
    if s == [] then 0 else Sum(s[..|s| - 1]) + s[|s| - 1]
  }

  /** Every element at least lo makes the sum at least |s|*lo. */
  lemma {:induction false} SumAtLeast(s: seq<int>, lo: int)
    requires forall i :: 0 <= i < |s| ==> lo <= s[i]
    ensures (|s| as real) * (lo as real) <= Sum(s) as real
  {
    if s != [] {
      var init := s[..|s| - 1];
      assert forall i :: 0 <= i < |init| ==> init[i] == s[i];
      SumAtLeast(init, lo);
      var m, l := |init| as real, lo as real;
      assert (|s| as real) * l == m * l + l;
    }
  }

  /** Every element at most hi makes the sum at most |s|*hi. */
  lemma {:induction false} SumAtMost(s: seq<int>, hi: int)
    requires forall i :: 0 <= i < |s| ==> s[i] <= hi
    ensures Sum(s) as real <= (|s| as real) * (hi as real)
  {
    if s != [] {
      var init := s[..|s| - 1];
      assert forall i :: 0 <= i < |init| ==> init[i] == s[i];
      SumAtMost(init, hi);
      var m, h := |init| as real, hi as real;
      assert (|s| as real) * h == m * h + h;
    }
  }

  /** The largest element of a non-empty list (numpy's max). */
  function MaxOf(s: seq<int>): (m: int)
    requires s != []
    ensures m in s
    ensures forall i :: 0 <= i < |s| ==> s[i] <= m
  {
    if |s| == 1 then s[0]
    else
      var m0 := MaxOf(s[..|s| - 1]);
      assert forall i :: 0 <= i < |s| - 1 ==> s[..|s| - 1][i] == s[i];
      if m0 < s[|s| - 1] then s[|s| - 1] else m0
  }

  /** The smallest element of a non-empty list (numpy's min). */
  function MinOf(s: seq<int>): (m: int)
    requires s != []
    ensures m in s
    ensures forall i :: 0 <= i < |s| ==> m <= s[i]
  {
    if |s| == 1 then s[0]
    else
      var m0 := MinOf(s[..|s| - 1]);
      assert forall i :: 0 <= i < |s| - 1 ==> s[..|s| - 1][i] == s[i];
      if s[|s| - 1] < m0 then s[|s| - 1] else m0
  }

  /** The arithmetic mean of a non-empty list (numpy's mean); it lies between its minimum and maximum. */
  function Mean(s: seq<int>): (avg: real)
    requires s != []
    ensures MinOf(s) as real <= avg <= MaxOf(s) as real
  {
    MeanBetween(s);
    Quotient(Sum(s), |s|)
  }

  lemma MeanBetween(s: seq<int>)
    requires s != []
    ensures MinOf(s) as real <= Quotient(Sum(s), |s|) <= MaxOf(s) as real
  {
    MeanAtLeast(s, MinOf(s));
    MeanAtMost(s, MaxOf(s));
  }

  lemma MeanAtLeast(s: seq<int>, lo: int)
    requires s != [] && forall i :: 0 <= i < |s| ==> lo <= s[i]
    ensures lo as real <= Quotient(Sum(s), |s|)
  {
    SumAtLeast(s, lo);
    QuotientAtLeast(Sum(s), |s|, lo);
  }

  lemma MeanAtMost(s: seq<int>, hi: int)
    requires s != [] && forall i :: 0 <= i < |s| ==> s[i] <= hi
    ensures Quotient(Sum(s), |s|) <= hi as real
  {
    SumAtMost(s, hi);
    QuotientAtMost(Sum(s), |s|, hi);
  }

  /** Real division of a total by a positive count. */
  function Quotient(total: int, n: nat): real
    requires n > 0
  {
    (total as real) / (n as real)
  }

  /** The quotient times the count gives back the total. */
  lemma QuotientCancels(total: int, n: nat)
    requires n > 0
    ensures Quotient(total, n) * (n as real) == total as real
  {
    DivCancels(total as real, n as real);
  }

  lemma DivCancels(x: real, n: real)
    requires n > 0.0
    ensures (x / n) * n == x
  {
  }

  lemma QuotientAtLeast(total: int, n: nat, lo: int)
    requires n > 0 && (n as real) * (lo as real) <= total as real
    ensures lo as real <= Quotient(total, n)
  {
    var q, nr := Quotient(total, n), n as real;
    QuotientCancels(total, n);
    assert nr * (lo as real) <= nr * q;
  }

  lemma QuotientAtMost(total: int, n: nat, hi: int)
    requires n > 0 && total as real <= (n as real) * (hi as real)
    ensures Quotient(total, n) <= hi as real
  {
    var q, nr := Quotient(total, n), n as real;
    QuotientCancels(total, n);
    assert nr * q <= nr * (hi as real);
  }

  /** The three episode statistics reported for a window. */
  datatype EpisodeSummary = EpisodeSummary(maxReward: int, minReward: int, avgReward: real)

  /**
   Maximum, minimum and mean of the episode rewards of a window. numpy raises on an
   empty list and the training loop catches that and reports zeros instead.
   */
  function EpisodeStats(epRewards: seq<int>): (r: EpisodeSummary)
    ensures epRewards == [] ==> r == EpisodeSummary(0, 0, 0.0)
    ensures epRewards != [] ==>
      && r.maxReward in epRewards && r.minReward in epRewards
      && (forall i :: 0 <= i < |epRewards| ==> r.minReward <= epRewards[i] <= r.maxReward)
      && r.avgReward == Quotient(Sum(epRewards), |epRewards|)
      && r.minReward as real <= r.avgReward <= r.maxReward as real
  {
    if epRewards == [] then EpisodeSummary(0, 0, 0.0)
    else EpisodeSummary(MaxOf(epRewards), MinOf(epRewards), Mean(epRewards))
  }
}

/** What `Spin` decides before anything moves: which reward wins the
    weighted pick, which slice shows it, and the angle the wheel turns to. */
module Selection {
  import opened Options
  import opened Rewards

  /** Sum of the probabilities of rewards `i .. j-1`. */
  function SumRange(s: seq<RewardItem>, i: nat, j: nat): real
    requires i <= j <= |s|
    decreases j - i
  {
    if i == j then 0.0 else s[i].probability + SumRange(s, i + 1, j)
  }

  /** Sum of the probabilities of the first `k` rewards. */
  function PrefixSum(s: seq<RewardItem>, k: nat): real
    requires k <= |s|
  {
    SumRange(s, 0, k)
  }

  /** Reward `j` is the first, in stored order, whose prefix sum reaches
      the draw. */
  ghost predicate FirstReach(s: seq<RewardItem>, draw: real, j: nat) {
    && j < |s|
    && draw <= PrefixSum(s, j + 1)
    && forall m :: 0 < m <= j ==> PrefixSum(s, m) < draw
  }

  /** The `foreach` loop from reward `i` on, with `rem` the draw minus the
      probabilities already subtracted. */
  function PickFrom(s: seq<RewardItem>, i: nat, rem: real): (r: Option<nat>)
    requires i <= |s|
    ensures r.Some? ==>
      && i <= r.value < |s|
      && rem <= SumRange(s, i, r.value + 1)
      && forall m :: i < m <= r.value ==> SumRange(s, i, m) < rem
    ensures r.None? ==> forall m :: i < m <= |s| ==> SumRange(s, i, m) < rem
    decreases |s| - i
  {
    if i == |s| then None
    else
      var rem' := rem - s[i].probability;
      if rem' <= 0.0 then Some(i) else PickFrom(s, i + 1, rem')
  }

  /** The weighted pick by cumulative subtraction over the rewards in
      stored order; `None` when the draw exceeds every prefix sum. */
  function Pick(s: seq<RewardItem>, draw: real): (r: Option<nat>)
    ensures r.Some? ==> FirstReach(s, draw, r.value)
    ensures r.None? ==> forall m :: 0 < m <= |s| ==> PrefixSum(s, m) < draw
  {
    PickFrom(s, 0, draw)
  }

  /** The pick is exactly the first reward whose prefix sum reaches the
      draw, and there is none only when no prefix sum does. */
  lemma PickIsFirstReach(s: seq<RewardItem>, draw: real, j: nat)
    ensures Pick(s, draw) == Some(j) <==> FirstReach(s, draw, j)
  {
    if FirstReach(s, draw, j) {
      var r := Pick(s, draw);
      assert draw <= PrefixSum(s, j + 1);
    }
  }

  /** Every reward that is first to reach the draw is the one picked. */
  lemma PickedIsEveryFirstReach(s: seq<RewardItem>, draw: real)
    ensures forall j: nat :: FirstReach(s, draw, j) ==> Pick(s, draw) == Some(j)
  {
    forall j: nat | FirstReach(s, draw, j)
      ensures Pick(s, draw) == Some(j)
    {
      PickIsFirstReach(s, draw, j);
    }
  }

  ghost predicate NonNegative(s: seq<RewardItem>) {
    forall i :: 0 <= i < |s| ==> s[i].probability >= 0.0
  }

  lemma {:induction false} SumRangeMonotone(s: seq<RewardItem>, i: nat, j: nat, k: nat)
    requires i <= j <= k <= |s|
    requires NonNegative(s)
    ensures SumRange(s, i, j) <= SumRange(s, i, k)
    decreases j - i
  {
    if i < j {
      SumRangeMonotone(s, i + 1, j, k);
    } else {
      SumRangeNonNegative(s, i, k);
    }
  }

  lemma {:induction false} SumRangeNonNegative(s: seq<RewardItem>, i: nat, j: nat)
    requires i <= j <= |s|
    requires NonNegative(s)
    ensures SumRange(s, i, j) >= 0.0
    decreases j - i
  {
    if i < j {
      SumRangeNonNegative(s, i + 1, j);
    }
  }

  /** With non-negative probabilities, nothing is picked exactly when the
      total probability is below the draw; the selection then keeps its
      previous multiplier. */
  lemma NothingPickedIffTotalBelowDraw(s: seq<RewardItem>, draw: real)
    requires NonNegative(s)
    requires draw > 0.0
    ensures Pick(s, draw).None? <==> PrefixSum(s, |s|) < draw
  {
    if PrefixSum(s, |s|) < draw {
      forall m | 0 < m <= |s|
        ensures PrefixSum(s, m) < draw
      {
        SumRangeMonotone(s, 0, m, |s|);
      }
    }
  }

  /** A lone reward of probability 1 wins every draw the engine makes. */
  lemma SingleCertainRewardAlwaysWins(item: RewardItem, draw: real)
    requires item.probability == 1.0
    requires 0.01 <= draw <= 1.0
    ensures Pick([item], draw) == Some(0)
  {
    assert PrefixSum([item], 1) == 1.0;
  }

  /** Draws on either side of each cumulative boundary of 0.2, 0.5 and 1.0
      land in the matching bucket. */
  lemma ThreeBucketExample(a: RewardItem, b: RewardItem, c: RewardItem)
    requires a.probability == 0.2 && b.probability == 0.3 && c.probability == 0.5
    ensures Pick([a, b, c], 0.1) == Some(0)
    ensures Pick([a, b, c], 0.35) == Some(1)
    ensures Pick([a, b, c], 0.9) == Some(2)
  {
    var s := [a, b, c];
    assert PrefixSum(s, 1) == 0.2;
    assert PrefixSum(s, 2) == 0.5;
    assert PrefixSum(s, 3) == 1.0;
    PickIsFirstReach(s, 0.1, 0);
    PickIsFirstReach(s, 0.35, 1);
    PickIsFirstReach(s, 0.9, 2);
  }

  /** The slice scan: the first slice whose stored probability equals `p`
      exactly, searching from index `i`. */
  function FindSliceFrom(divisions: seq<Division>, p: real, i: nat): (r: Option<nat>)
    requires i <= |divisions|
    ensures r.Some? ==>
      && i <= r.value < |divisions|
      && divisions[r.value].probability == p
      && forall m :: i <= m < r.value ==> divisions[m].probability != p
    ensures r.None? ==> forall m :: i <= m < |divisions| ==> divisions[m].probability != p
    decreases |divisions| - i
  {
    if i == |divisions| then None
    else if divisions[i].probability == p then Some(i)
    else FindSliceFrom(divisions, p, i + 1)
  }

  function FindSlice(divisions: seq<Division>, p: real): (r: Option<nat>)
    ensures r.Some? ==>
      && r.value < |divisions|
      && divisions[r.value].probability == p
      && forall m :: 0 <= m < r.value ==> divisions[m].probability != p
    ensures r.None? ==> forall m :: 0 <= m < |divisions| ==> divisions[m].probability != p
  {
    FindSliceFrom(divisions, p, 0)
  }

  /** The fixed angle between a slice's own rotation and the pointer. */
  const InitialOffset: real := 45.0

  /** The wheel angle that brings the slice at `sliceAngle` under the
      pointer after `cycles` extra full turns. */
  function TargetAngle(cycles: int, sliceAngle: real): (r: real)
    requires cycles == 2 || cycles == 3
    // the slice ends under the pointer, a whole number of turns away
    ensures r + sliceAngle + InitialOffset == ((cycles + 1) * 360) as real
    // two and three cycles give disjoint ranges for a slice angle in [0, 360)
    ensures 0.0 <= sliceAngle < 360.0 ==>
      (cycles * 360) as real - InitialOffset < r <= (cycles * 360 + 360) as real - InitialOffset
  {
    (cycles * 360) as real + 360.0 - sliceAngle - InitialOffset
  }
}

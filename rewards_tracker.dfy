/** The progress bar of the rewards dashboard
    (`src/components/RewardsTracker.tsx`). */
module RewardsTracker {
  import opened Percent

  /** `progressPercentage = Math.min(100, Math.round(current / target * 100))`:
      the rounded percentage of the target reached, capped at 100. A zero
      target divides by zero (an infinite or NaN percentage) and is excluded. */
  function ProgressPercentage(currentRewards: int, targetRewards: int): (p: int)
    requires targetRewards != 0
    ensures p <= 100
    ensures p <= RoundedPercent(currentRewards, targetRewards)
    ensures p == 100 || p == RoundedPercent(currentRewards, targetRewards)
  {
    var r := RoundedPercent(currentRewards, targetRewards);
    if r < 100 then r else 100
  }

  /** Reaching the target fills the bar. */
  lemma ProgressFullAtTarget(currentRewards: int, targetRewards: int)
    requires currentRewards >= targetRewards > 0
    ensures ProgressPercentage(currentRewards, targetRewards) == 100
  {
    RoundedPercentAtLeastWhole(currentRewards, targetRewards);
  }

  /** No rewards below zero means no progress below zero. */
  lemma ProgressNonNegative(currentRewards: int, targetRewards: int)
    requires currentRewards >= 0 && targetRewards > 0
    ensures ProgressPercentage(currentRewards, targetRewards) >= 0
  {
    RoundedPercentMonotone(0, currentRewards, targetRewards);
    RoundedPercentUnique(0, targetRewards, 0);
  }

  /** More rewards never shrink the bar. */
  lemma ProgressMonotone(c1: int, c2: int, targetRewards: int)
    requires c1 <= c2 && targetRewards > 0
    ensures ProgressPercentage(c1, targetRewards) <= ProgressPercentage(c2, targetRewards)
  {
    RoundedPercentMonotone(c1, c2, targetRewards);
  }
}

/** Completing a weekly goal, as it affects the one user who completes it
    (funcionalidade.js, completeGoal), and the xp tally of the goal panel
    (renderGoals). */
module Goals {
  import opened Wrappers
  import opened Domain

  /** `Math.floor(t * 1.5)` on integers. Dafny's `/` rounds down for a
      positive divisor, so `(3 * t) / 2` is exact for negative t as well. */
  function NextThreshold(t: int): (r: int)
    ensures r as real <= 1.5 * t as real < r as real + 1.0
    ensures t >= 0 ==> r >= t
    ensures t >= 2 ==> r > t
    ensures t >= 1 ==> r >= 1
  {
    (3 * t) / 2
  }

  /** The level-up test, made once with the threshold in force before the award. */
  predicate LevelsUp(u: User, g: Goal)
  {
    u.xp + g.xp >= u.xpToNextLevel
  }

  /** The in-place update of the acting user: the reward is added, the goal is
      recorded, the weekly count goes up, then at most one level-up step. */
  function ApplyGoal(u: User, g: Goal): (r: User)
    ensures r.id == u.id && r.moneySaved == u.moneySaved
    ensures r.xp == u.xp + g.xp
    ensures r.completedGoals == u.completedGoals + [g.id]
    ensures r.weeklyGoalsCompleted == u.weeklyGoalsCompleted + 1
    ensures r.level == u.level + 1 <==> LevelsUp(u, g)
    ensures LevelsUp(u, g) ==> r.xpToNextLevel == NextThreshold(u.xpToNextLevel)
    ensures !LevelsUp(u, g) ==> r.level == u.level && r.xpToNextLevel == u.xpToNextLevel
  {
    var awarded := u.(xp := u.xp + g.xp,
                      completedGoals := u.completedGoals + [g.id],
                      weeklyGoalsCompleted := u.weeklyGoalsCompleted + 1);
    if awarded.xp >= awarded.xpToNextLevel then
      awarded.(level := awarded.level + 1, xpToNextLevel := NextThreshold(awarded.xpToNextLevel))
    else
      awarded
  }

  /** A non-negative reward never takes anything away: xp, level and (for a
      non-negative threshold) the threshold do not decrease, and the level
      rises by at most one. */
  lemma ApplyGoalMonotone(u: User, g: Goal)
    requires g.xp >= 0
    ensures ApplyGoal(u, g).xp >= u.xp
    ensures u.level <= ApplyGoal(u, g).level <= u.level + 1
    ensures u.xpToNextLevel >= 0 ==> ApplyGoal(u, g).xpToNextLevel >= u.xpToNextLevel
  {
  }

  /** A goal not yet completed keeps the completed list free of duplicates. */
  lemma ApplyGoalKeepsNoDuplicates(u: User, g: Goal)
    requires NoDuplicates(u.completedGoals) && g.id !in u.completedGoals
    ensures NoDuplicates(ApplyGoal(u, g).completedGoals)
  {
  }

  /** The worked example: 80 xp against a threshold of 100, plus a 30-xp goal,
      gives 110 xp at level 2 with a threshold of 150. */
  lemma LevelUpExample(u: User, g: Goal)
    requires u.xp == 80 && u.xpToNextLevel == 100 && u.level == 1 && g.xp == 30
    ensures ApplyGoal(u, g).xp == 110
    ensures ApplyGoal(u, g).level == 2
    ensures ApplyGoal(u, g).xpToNextLevel == 150
  {
  }

  /** Only one level is gained per completion even when the award crosses
      several thresholds: 0 xp against 100 plus a 500-xp goal ends at level 2
      with threshold 150, though 500 is already past it. */
  lemma SingleLevelStep(u: User, g: Goal)
    requires u.xp == 0 && u.xpToNextLevel == 100 && g.xp == 500
    ensures ApplyGoal(u, g).level == u.level + 1
    ensures ApplyGoal(u, g).xp >= ApplyGoal(u, g).xpToNextLevel == 150
  {
  }

  /** The xp tally of the goal panel: a left fold over the completed ids that
      adds each id's catalog reward (0 for an unknown id). */
  function XpGained(goals: seq<Goal>, ids: seq<int>): (r: int)
    ensures (forall g :: g in goals ==> g.xp >= 0) ==> r >= 0
  {
    if ids == [] then 0
    else XpGained(goals, ids[..|ids| - 1]) + GoalXp(goals, ids[|ids| - 1])
  }

  /** The tally of a concatenation is the sum of the tallies. */
  lemma {:induction false} XpGainedAppend(goals: seq<Goal>, a: seq<int>, b: seq<int>)
    ensures XpGained(goals, a + b) == XpGained(goals, a) + XpGained(goals, b)
    decreases |b|
  {
    if b == [] {
      assert a + b == a;
    } else {
      var init := b[..|b| - 1];
      assert (a + b)[..|a + b| - 1] == a + init;
      assert (a + b)[|a + b| - 1] == b[|b| - 1];
      XpGainedAppend(goals, a, init);
    }
  }

  /** Ids the catalog does not know add nothing to the tally. */
  lemma {:induction false} XpGainedOfUnknown(goals: seq<Goal>, ids: seq<int>)
    requires forall k :: 0 <= k < |ids| ==> FindGoal(goals, ids[k]).None?
    ensures XpGained(goals, ids) == 0
    decreases |ids|
  {
    if ids != [] {
      XpGainedOfUnknown(goals, ids[..|ids| - 1]);
    }
  }

  /** Completing a catalog goal raises the tally by exactly that goal's reward. */
  lemma XpGainedAfterApplyGoal(goals: seq<Goal>, u: User, g: Goal)
    requires FindGoal(goals, g.id) == Some(g)
    ensures XpGained(goals, ApplyGoal(u, g).completedGoals) == XpGained(goals, u.completedGoals) + g.xp
  {
  }
}

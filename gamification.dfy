/** The gamification state of one session: the roster ranked by xp, the fixed
    goal catalog and the comparison selection, with the two operations that
    change them (funcionalidade.js, completeGoal and selectUser) and the
    figures the panels derive from them. */
module Gamification {
  import opened Wrappers
  import opened Domain
  import opened Goals
  import opened Leaderboard
  import opened Stats
  import opened Selection
  import opened Comparison

  /** What a completion reports. UserNotFound and GoalNotFound stand for the
      TypeError the original raises, before changing anything, when `find`
      yields undefined; AlreadyCompleted and the two successes stand for its
      alerts. */
  datatype Outcome =
    | UserNotFound
    | AlreadyCompleted
    | GoalNotFound
    | Completed(xpAwarded: int)
    | LeveledUp(newLevel: int)
  {
    predicate Succeeded()
    {
      Completed? || LeveledUp?
    }
  }

  /** The whole effect of completing goal goalId for user userId on the roster,
      in the original's order of checks: find the user, refuse a goal already
      completed, find the goal, update the user, re-rank the roster. */
  function Complete(users: seq<User>, goals: seq<Goal>, userId: int, goalId: int): (r: (seq<User>, Outcome))
    ensures r.1 == UserNotFound <==> UserById(users, userId).None?
    ensures r.1 == AlreadyCompleted <==>
      UserById(users, userId).Some? && goalId in UserById(users, userId).value.completedGoals
    ensures r.1 == GoalNotFound <==>
      UserById(users, userId).Some? && goalId !in UserById(users, userId).value.completedGoals &&
      FindGoal(goals, goalId).None?
    ensures !r.1.Succeeded() ==> r.0 == users
    ensures r.1.Succeeded() ==> RankedByXp(r.0) && |r.0| == |users|
  {
    var found := FindUser(users, userId);
    if found.None? then (users, UserNotFound)
    else
      var user := users[found.value];
      if goalId in user.completedGoals then (users, AlreadyCompleted)
      else
        var goal := FindGoal(goals, goalId);
        if goal.None? then (users, GoalNotFound)
        else
          var updated := ApplyGoal(user, goal.value);
          var after := Rank(users[found.value := updated]);
          assert |after| == |multiset(after)| == |users|;
          (after, if LevelsUp(user, goal.value) then LeveledUp(updated.level) else Completed(goal.value.xp))
  }

  /** A successful completion changes the acting user, exactly as ApplyGoal
      says, and nobody else: every other id finds the same user as before, and
      ids stay distinct. The outcome reports a level-up exactly when one
      happened, with the new level. */
  lemma CompleteChangesOnlyActingUser(users: seq<User>, goals: seq<Goal>, userId: int, goalId: int)
    requires DistinctIds(users)
    requires Complete(users, goals, userId, goalId).1.Succeeded()
    ensures var (after, outcome) := Complete(users, goals, userId, goalId);
      var before := UserById(users, userId).value;
      var goal := FindGoal(goals, goalId).value;
      && DistinctIds(after)
      && UserById(after, userId) == Some(ApplyGoal(before, goal))
      && (forall id :: id != userId ==> UserById(after, id) == UserById(users, id))
      && (outcome.LeveledUp? <==> LevelsUp(before, goal))
      && (outcome.LeveledUp? ==> outcome.newLevel == before.level + 1)
      && (outcome.Completed? ==> outcome.xpAwarded == goal.xp)
  {
    var i := FindUser(users, userId).value;
    var goal := FindGoal(goals, goalId).value;
    var updated := ApplyGoal(users[i], goal);
    var changed := users[i := updated];
    var after := Complete(users, goals, userId, goalId).0;
    assert after == Rank(changed);
    UserByIdAfterUpdate(users, i, updated, userId);
    RankKeepsDistinctIds(changed);
    forall id ensures UserById(after, id) == UserById(changed, id) {
      UserByIdOfPermutation(changed, after, id);
    }
    forall id | id != userId ensures UserById(after, id) == UserById(users, id) {
      UserByIdAfterUpdate(users, i, updated, id);
    }
  }

  /** Completion keeps every user's completed list free of duplicates: a
      repeat is refused, and a new id is appended once. */
  lemma CompleteKeepsNoDuplicates(users: seq<User>, goals: seq<Goal>, userId: int, goalId: int)
    requires forall k :: 0 <= k < |users| ==> NoDuplicates(users[k].completedGoals)
    ensures var after := Complete(users, goals, userId, goalId).0;
      forall k :: 0 <= k < |after| ==> NoDuplicates(after[k].completedGoals)
  {
    var (after, outcome) := Complete(users, goals, userId, goalId);
    if outcome.Succeeded() {
      var i := FindUser(users, userId).value;
      var goal := FindGoal(goals, goalId).value;
      var updated := ApplyGoal(users[i], goal);
      var changed := users[i := updated];
      ApplyGoalKeepsNoDuplicates(users[i], goal);
      forall k | 0 <= k < |after| ensures NoDuplicates(after[k].completedGoals) {
        assert after[k] in multiset(after);
        assert after[k] in multiset(changed);
        var m :| 0 <= m < |changed| && changed[m] == after[k];
      }
    }
  }

  /** With non-negative rewards, no completion lowers anyone's xp or level. */
  lemma CompleteMonotone(users: seq<User>, goals: seq<Goal>, userId: int, goalId: int, id: int)
    requires DistinctIds(users)
    requires forall g :: g in goals ==> g.xp >= 0
    requires UserById(users, id).Some?
    ensures var after := Complete(users, goals, userId, goalId).0;
      && UserById(after, id).Some?
      && UserById(after, id).value.xp >= UserById(users, id).value.xp
      && UserById(after, id).value.level >= UserById(users, id).value.level
  {
    if Complete(users, goals, userId, goalId).1.Succeeded() {
      CompleteChangesOnlyActingUser(users, goals, userId, goalId);
      ApplyGoalMonotone(UserById(users, userId).value, FindGoal(goals, goalId).value);
    }
  }

  /** The statistics after a completion: the xp total rises by exactly the
      reward, money and head count stay as they were. */
  lemma CompleteStats(users: seq<User>, goals: seq<Goal>, userId: int, goalId: int)
    ensures var (after, outcome) := Complete(users, goals, userId, goalId);
      && TotalXp(after) == TotalXp(users) + (if outcome.Succeeded() then FindGoal(goals, goalId).value.xp else 0)
      && TotalMoney(after) == TotalMoney(users)
      && |after| == |users|
  {
    var (after, outcome) := Complete(users, goals, userId, goalId);
    if outcome.Succeeded() {
      var i := FindUser(users, userId).value;
      var goal := FindGoal(goals, goalId).value;
      var updated := ApplyGoal(users[i], goal);
      var changed := users[i := updated];
      assert after == Rank(changed);
      TotalsAfterUpdate(users, i, updated);
      TotalsOfPermutation(changed, after);
    }
  }

  /** The goal panel's xp tally of the acting user rises by exactly the
      completed goal's reward. */
  lemma CompleteXpGained(users: seq<User>, goals: seq<Goal>, userId: int, goalId: int)
    requires DistinctIds(users)
    requires Complete(users, goals, userId, goalId).1.Succeeded()
    ensures var after := Complete(users, goals, userId, goalId).0;
      UserById(after, userId).Some? &&
      XpGained(goals, UserById(after, userId).value.completedGoals) ==
      XpGained(goals, UserById(users, userId).value.completedGoals) + FindGoal(goals, goalId).value.xp
  {
    CompleteChangesOnlyActingUser(users, goals, userId, goalId);
    var goal := FindGoal(goals, goalId).value;
    XpGainedAfterApplyGoal(goals, UserById(users, userId).value, goal);
  }

  /** The users behind a list of selected ids, each looked up in the roster as
      it is now, so that the selection sees every later change of a user. */
  function UsersByIds(users: seq<User>, ids: seq<int>): (r: seq<User>)
    requires forall k :: 0 <= k < |ids| ==> UserById(users, ids[k]).Some?
    ensures |r| == |ids|
    ensures forall k :: 0 <= k < |ids| ==> r[k] == UserById(users, ids[k]).value
  {
    if ids == [] then []
    else [UserById(users, ids[0]).value] + UsersByIds(users, ids[1..])
  }

  /** The state of one session. */
  class GameState {
    var users: seq<User>
    const goals: seq<Goal>
    var selected: seq<int>

    ghost predicate Valid()
      reads this
    {
      && DistinctIds(users)
      && RankedByXp(users)
      && WellFormed(selected)
      && forall k :: 0 <= k < |selected| ==> UserById(users, selected[k]).Some?
    }

    /** Start of a session: the roster is ranked once and nobody is selected. */
    constructor (roster: seq<User>, catalog: seq<Goal>)
      requires DistinctIds(roster)
      ensures Valid()
      ensures users == Rank(roster) && goals == catalog && selected == []
    {
      RankKeepsDistinctIds(roster);
      users := Rank(roster);
      goals := catalog;
      selected := [];
    }

    /** Completes goal goalId for user userId (the original always acts for the
        logged-in user). */
    method CompleteGoal(userId: int, goalId: int) returns (outcome: Outcome)
      requires Valid()
      modifies this`users
      ensures Valid()
      ensures (users, outcome) == Complete(old(users), goals, userId, goalId)
      ensures !outcome.Succeeded() ==> users == old(users)
    {
      var found := FindUser(users, userId);
      if found.None? {
        return UserNotFound;
      }
      var i := found.value;
      if goalId in users[i].completedGoals {
        return AlreadyCompleted;
      }
      var goal := FindGoal(goals, goalId);
      if goal.None? {
        return GoalNotFound;
      }
      var updated := ApplyGoal(users[i], goal.value);
      outcome := if LevelsUp(users[i], goal.value) then LeveledUp(updated.level) else Completed(goal.value.xp);
      CompleteChangesOnlyActingUser(users, goals, userId, goalId);
      ghost var before := users;
      users := Rank(users[i := updated]);
      assert forall k :: 0 <= k < |selected| ==> UserById(users, selected[k]).Some? by {
        forall k | 0 <= k < |selected| ensures UserById(users, selected[k]).Some? {
          if selected[k] != userId {
            assert UserById(users, selected[k]) == UserById(before, selected[k]);
          }
        }
      }
    }

    /** A click on a user of the leaderboard. */
    method SelectUser(userId: int)
      requires Valid()
      requires UserById(users, userId).Some?
      modifies this`selected
      ensures Valid()
      ensures selected == Toggle(old(selected), userId)
    {
      ToggleWellFormed(selected, userId);
      selected := Toggle(selected, userId);
    }

    /** The selected users as they are now, in the order they were picked. */
    function SelectedUsers(): (r: seq<User>)
      reads this
      requires Valid()
      ensures |r| == |selected|
      ensures forall k :: 0 <= k < |r| ==> r[k] in users && r[k].id == selected[k]
    {
      UsersByIds(users, selected)
    }

    /** The comparison panel: drawn only with exactly two users selected. */
    function CurrentComparison(): (r: Option<Verdict>)
      reads this
      requires Valid()
      ensures r.Some? <==> |selected| == 2
      ensures r.Some? ==> r.value.bestSaver in users && r.value.bestSaver.id in selected
    {
      Compare(SelectedUsers())
    }

    /** The statistics panel over the current roster. */
    function CurrentSummary(): (r: Summary)
      reads this
      ensures r.userCount == |users|
      ensures r.averageMoney.None? <==> users == []
    {
      Summarize(users)
    }

    /** The goal panel of a user: how many goals they completed, out of how
        many, and the xp those are worth; None where the original would fail
        on an unknown user. */
    function GoalProgress(userId: int): (r: Option<(nat, nat, int)>)
      reads this
      ensures r.None? <==> UserById(users, userId).None?
      ensures r.Some? ==> r.value.0 == |UserById(users, userId).value.completedGoals| && r.value.1 == |goals|
      ensures r.Some? ==> r.value.2 == XpGained(goals, UserById(users, userId).value.completedGoals)
      ensures r.Some? && (forall g :: g in goals ==> g.xp >= 0) ==> r.value.2 >= 0
    {
      match UserById(users, userId)
      case None => None
      case Some(u) =>
        Some((|u.completedGoals|, |goals|, XpGained(goals, u.completedGoals)))
    }
  }
}

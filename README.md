# Gamified savings leaderboard: state model

This project models the state core of a gamified savings leaderboard. The
core holds a roster of users and a fixed catalog of weekly goals. A user
completes a goal to earn its xp and may go up a level. The roster is kept
ranked by descending xp. Up to two users can be picked for a head-to-head
comparison. The panels show figures derived from this state: rank badge,
xp bar, goal tally, totals and average, the best saver and the money
difference.

Modules, one per part of `funcionalidade.js`:

- `Domain`: the `User` and `Goal` entities and the `find`-style lookups by id.
- `Goals`: the xp award and single level-up step of `completeGoal`, and the
  xp tally of `renderGoals`.
- `Leaderboard`: the re-sort by descending xp (`Rank`), `getRankClass` and
  `calculateProgress`.
- `Stats`: the folds and the average of `renderStats`.
- `Selection`: the toggle of `selectUser` over at most two ids.
- `Comparison`: the figures of `showComparison`.
- `Gamification`: the whole `completeGoal` effect as a function (`Complete`),
  and a `GameState` class. Its fields are the roster, the catalog and the
  selection. Its methods `CompleteGoal` and `SelectUser` change them in place.

Two behaviours of the code are kept as written:
- `completeGoal` makes one level-up step per completion, even when the new
  xp is also past the new threshold.
- `calculateProgress` returns a percentage clamped at 100.

The user whose goal is completed is a parameter. The original always acts
for the logged-in user, `currentUserId = 1`.

The original stores user object references in the selection. Later xp
changes show through those references. The model stores user ids and looks
each one up in the current roster (`UsersByIds`), which has the same effect.

## Model

| member | source | states |
|---|---|---|
| `Domain.FindUser` | funcionalidade.js:125 | the position found holds the id and no earlier user has it; None exactly when no user has the id |
| `Domain.UserById` | funcionalidade.js:160 | the user found is on the roster and has the id; None exactly when nobody has it; with distinct ids it is the only user with that id |
| `Domain.FindGoal` | funcionalidade.js:132 | the goal found is the first catalog entry with the id; None exactly when no goal has it |
| `Domain.GoalXp` | funcionalidade.js:113-114 | an id unknown to the catalog is worth 0; a known id is worth the reward of the first catalog entry with that id; a non-zero value is always such a reward |
| `Domain.UserByIdOfPermutation` | funcionalidade.js:149 | with distinct ids, re-ordering the roster changes no lookup by id |
| `Domain.UserByIdAfterUpdate` | funcionalidade.js:135-137 | updating one user in place, keeping the id, changes only that id's lookup and keeps ids distinct |
| `Goals.NextThreshold` | funcionalidade.js:142 | the result is floor(1.5 * t); it is at least t when t >= 0, strictly more when t >= 2, and stays positive |
| `Goals.ApplyGoal` | funcionalidade.js:135-146 | xp rises by the reward; the goal id is appended; the weekly count rises by one; level rises by one iff the new xp reaches the old threshold, and then the threshold becomes floor(1.5 * old); otherwise level and threshold are unchanged |
| `Goals.ApplyGoalMonotone` | funcionalidade.js:135-142 | a non-negative reward never lowers xp, level or a non-negative threshold, and raises the level by at most one |
| `Goals.ApplyGoalKeepsNoDuplicates` | funcionalidade.js:127-136 | a goal not yet completed keeps the completed list duplicate-free |
| `Goals.LevelUpExample` | funcionalidade.js:140-142 | 80 xp at threshold 100 plus a 30-xp goal gives 110 xp, level 2, threshold 150 |
| `Goals.SingleLevelStep` | funcionalidade.js:140-146 | for example, 0 xp with threshold 100 and a reward of 500 gains one level only, though xp stays above the new threshold of 150 (the general fact is `Goals.ApplyGoal`'s level ensures) |
| `Goals.XpGained` | funcionalidade.js:112-115 | the tally of the completed ids' catalog rewards is non-negative when every reward is |
| `Goals.XpGainedAppend` | funcionalidade.js:112-115 | the tally of a concatenation of id lists is the sum of the tallies |
| `Goals.XpGainedOfUnknown` | funcionalidade.js:113-114 | ids unknown to the catalog add nothing to the tally |
| `Goals.XpGainedAfterApplyGoal` | funcionalidade.js:112-136 | completing a catalog goal raises the user's tally by exactly its reward |
| `Leaderboard.Insert` | funcionalidade.js:149 | inserting adds exactly the user to the multiset of the roster |
| `Leaderboard.InsertRanked` | funcionalidade.js:149 | inserting into a roster ranked by descending xp keeps it ranked |
| `Leaderboard.Rank` | funcionalidade.js:149 | the re-sorted roster is a permutation of the roster, in non-increasing xp order |
| `Leaderboard.InsertKeepsDistinctIds` | funcionalidade.js:149 | inserting a user whose id is new keeps ids distinct |
| `Leaderboard.RankKeepsDistinctIds` | funcionalidade.js:149 | re-sorting keeps ids distinct |
| `Leaderboard.RankOfRanked` | funcionalidade.js:339 | a roster already ranked is left exactly as it is |
| `Leaderboard.RankClass` | funcionalidade.js:18-21 | positions 0, 1, 2 give rank-1, rank-2, rank-3; every other position, negative or out of range, gives rank-other |
| `Leaderboard.Progress` | funcionalidade.js:23-25 | the bar is at most 100; with a positive threshold it is not negative for non-negative xp and is exactly 100 iff xp reaches the threshold; with a negative threshold it is 100 iff xp is at most the threshold; below 100 it is xp * 100 / threshold |
| `Stats.TotalMoney` | funcionalidade.js:306 | the money total is non-negative when nobody has a negative saving |
| `Stats.TotalXp` | funcionalidade.js:307 | the xp total is non-negative when nobody has negative xp |
| `Stats.Summarize` | funcionalidade.js:305-325 | the totals, the head count, and an average that times the head count gives the money total; there is no average exactly when the roster is empty |
| `Stats.TotalsSnoc` | funcionalidade.js:306-307 | adding a user at the end adds its money and xp to the totals, the step of the left-to-right reduce |
| `Stats.TotalsRemoveAt` | funcionalidade.js:306-307 | taking one user out takes its money and xp out of the totals |
| `Stats.TotalsAppend` | funcionalidade.js:306-307 | both totals of a concatenation are the sums of the parts' totals |
| `Stats.TotalsOfPermutation` | funcionalidade.js:306-307 | both totals are independent of roster order |
| `Stats.TotalsAfterUpdate` | funcionalidade.js:306-307 | replacing one user changes each total by the new value minus the old |
| `Stats.AverageNonNegative` | funcionalidade.js:308 | with no negative savings the average is not negative |
| `Selection.IndexOf` | funcionalidade.js:161 | -1 exactly when the id is not selected; otherwise the first position holding it |
| `Selection.Without` | funcionalidade.js:164 | the entries other than the id, as a reference for removal |
| `Selection.Toggle` | funcionalidade.js:159-170 | from at most two selected, a click leaves at most two; it selects only ids selected before or the one clicked, and over distinct ids selects the clicked id iff it was not selected |
| `Selection.ToggleWellFormed` | funcionalidade.js:159-170 | the selection stays at most two distinct ids |
| `Selection.ToggleDeselects` | funcionalidade.js:163-164 | a click on a selected id removes it and keeps the others in order |
| `Selection.ToggleAppends` | funcionalidade.js:165-166 | with fewer than two selected, a new id is appended |
| `Selection.ToggleEvictsOldest` | funcionalidade.js:167-169 | with two selected, a new id evicts the earliest one and is appended |
| `Selection.ToggleTwiceRestores` | funcionalidade.js:159-170 | clicking a newly appended id again restores the previous selection |
| `Comparison.BestSaver` | funcionalidade.js:293 | the best saver is one of the two and has saved at least as much as either; a tie goes to the second |
| `Comparison.MoneyDifference` | funcionalidade.js:294 | the difference is non-negative, is the gap between the two amounts, and is 0 iff they are equal |
| `Comparison.Max` | funcionalidade.js:203-204 | `Math.max`: one of the two numbers, and at least as large as both |
| `Comparison.BarWidth` | funcionalidade.js:227-247 | for any non-zero maximum, width * max == value * 100 and the maximum itself gives 100; a value between 0 and a positive maximum gives a width between 0 and 100 |
| `Comparison.Compare` | funcionalidade.js:199-204 | a comparison exists iff exactly two users are selected; its maximum money is the best saver's amount, its difference is the best saver's lead, and its maximum xp is the larger of the two xp values |
| `Comparison.CompareExample` | funcionalidade.js:227-294 | savings 500 and 300 give bars 100% and 60%, the first as best saver, difference 200 |
| `Gamification.Complete` | funcionalidade.js:124-149 | unknown user, repeated goal and unknown goal are reported in that order, and each leaves the roster unchanged; a success leaves a roster of the same size ranked by descending xp |
| `Gamification.CompleteChangesOnlyActingUser` | funcionalidade.js:132-149 | after a success the acting user's lookup gives the updated user and every other id gives the same user as before; ids stay distinct; LeveledUp is reported iff a level was gained, with the new level |
| `Gamification.CompleteKeepsNoDuplicates` | funcionalidade.js:127-136 | if every user's completed list is duplicate-free, it stays so |
| `Gamification.CompleteMonotone` | funcionalidade.js:135-142 | with non-negative rewards, no user's xp or level decreases and no user disappears |
| `Gamification.CompleteStats` | funcionalidade.js:132-154 | the xp total rises by exactly the reward on success and not otherwise; the money total and the user count stay as they were |
| `Gamification.CompleteXpGained` | funcionalidade.js:112-136 | the acting user's goal-panel tally rises by exactly the goal's reward |
| `Gamification.UsersByIds` | funcionalidade.js:166 | each selected id resolves to that user as the roster holds it now |
| `Gamification.GameState.constructor` | funcionalidade.js:6-9 | the session starts with the ranked roster, the catalog and an empty selection, satisfying the state invariant |
| `Gamification.GameState.CompleteGoal` | funcionalidade.js:124-149 | the roster and outcome are those of Complete; the invariant (distinct ids, ranked roster, valid selection) is kept; a failure changes nothing |
| `Gamification.GameState.SelectUser` | funcionalidade.js:159-170 | the selection becomes the toggle of the old one and the invariant is kept |
| `Gamification.GameState.SelectedUsers` | funcionalidade.js:202 | the selected users, current roster members, in selection order |
| `Gamification.GameState.CurrentComparison` | funcionalidade.js:199-204 | a comparison exists iff two are selected; its best saver is one of the selected roster members |
| `Gamification.GameState.CurrentSummary` | funcionalidade.js:305-325 | the head count is the roster size; there is an average iff the roster is not empty |
| `Gamification.GameState.GoalProgress` | funcionalidade.js:111-117 | none exactly for an unknown user; otherwise the completed count against the catalog size, and the tally XpGained over the user's completed ids, non-negative for non-negative rewards |

## Left out

- HTML building, `innerHTML`, `document.*` and `scrollIntoView` in `renderLeaderboard`, `renderGoals`, `updateSelection`, `showComparison` and `renderStats`: presentation only.
- `alert` messages: they appear only as the `Outcome` value of a completion.
- `formatMoney` and `toLocaleString`: locale formatting is a library call.
- `updateTimer`, the `replit` constant and the `DOMContentLoaded` wiring: the timer only shows fixed text. The initial sort at startup is kept, in the `GameState` constructor.
- Loading of `DATABASE` from `bd.js`: bd.js is not part of this model. The initial roster and catalog are constructor parameters.
- Display-only user fields: name, avatar, investments, saving streak, achievements. Display-only goal fields: title, icon.
- Floating-point arithmetic: xp, level and threshold are unbounded integers and money is an exact `real`. Rounding of JavaScript doubles is not modelled.
- Leaderboard.Progress: requires a non-zero threshold. For a zero threshold the original gives 100 when xp > 0 (Infinity clamped by `Math.min`), NaN when xp = 0, and -Infinity when xp < 0. Negative thresholds are modelled.
- Comparison.BarWidth: requires a non-zero maximum. When the larger value is 0 the original divides by zero: NaN for a value of 0. Negative maxima are modelled (savings -100 and -50 give bars of 200% and 100%). With savings 0 and -50 the maximum is 0, and the bars are NaN and -Infinity.
- Stats.Summarize: an empty roster gives no average (None) where the original gives NaN.
- Stats.TotalMoney and Stats.TotalXp: nest to the right (`u0 + (u1 + ...)`), where the original's `reduce` nests to the left (`((0 + u0) + u1) + ...`). Exact sums are the same either way, and `Stats.TotalsSnoc` proves the reduce's step. Floating-point rounding order is not modelled.
- Leaderboard.Rank: an insertion sort that keeps users with equal xp in their previous order, as the stable `Array.prototype.sort` does. No contract states that tie order; only permutation and non-increasing xp are promised and used.
- Gamification.GameState.SelectUser: requires the id to be on the roster. With an unknown id the original pushes `undefined` into the selection; its one caller only passes rendered roster ids.
- Gamification.GameState.constructor: requires distinct user ids. Ids identify users, and the original's lookups by id assume this.
- Object identity: the selection stores ids rather than references to user objects. Lookups by id see the same updates.

/** The head-to-head comparison of the two selected users (funcionalidade.js,
    showComparison): the larger amounts, the bar widths, the best saver and the
    difference in money saved. */
module Comparison {
  import opened Wrappers
  import opened Domain

  /** `u1.moneySaved > u2.moneySaved ? u1 : u2`: a tie goes to the second user. */
  function BestSaver(u1: User, u2: User): (r: User)
    ensures r == u1 || r == u2
    ensures r.moneySaved >= u1.moneySaved && r.moneySaved >= u2.moneySaved
    ensures u1.moneySaved == u2.moneySaved ==> r == u2
  {
    if u1.moneySaved > u2.moneySaved then u1 else u2
  }

  /** `Math.abs(u1.moneySaved - u2.moneySaved)`. */
  function MoneyDifference(u1: User, u2: User): (r: real)
    ensures r >= 0.0
    ensures u1.moneySaved + r == u2.moneySaved || u2.moneySaved + r == u1.moneySaved
    ensures r == 0.0 <==> u1.moneySaved == u2.moneySaved
  {
    var d := u1.moneySaved - u2.moneySaved;
    if d < 0.0 then -d else d
  }

  /** `Math.max(a, b)` on two numbers (amounts of money, or xp as numbers). */
  function Max(a: real, b: real): (r: real)
    ensures r >= a && r >= b && (r == a || r == b)
  {
    if a < b then b else a
  }

  /** The width of a chart bar, in percent of the larger of the two values. */
  function BarWidth(value: real, max: real): (r: real)
    requires max != 0.0
    ensures 0.0 <= value <= max ==> 0.0 <= r <= 100.0
    ensures value == max ==> r == 100.0
    ensures r * max == value * 100.0
  {
    (value / max) * 100.0
  }

  datatype Verdict = Verdict(maxMoney: real, maxXp: real, bestSaver: User, difference: real)

  /** The figures of the comparison, which is only drawn when exactly two
      users are selected. */
  function Compare(selected: seq<User>): (r: Option<Verdict>)
    ensures r.Some? <==> |selected| == 2
    ensures r.Some? ==> r.value.bestSaver == BestSaver(selected[0], selected[1])
    ensures r.Some? ==> r.value.maxMoney == r.value.bestSaver.moneySaved
    ensures r.Some? ==> r.value.difference == r.value.bestSaver.moneySaved - (if r.value.bestSaver == selected[0] then selected[1] else selected[0]).moneySaved
    ensures r.Some? ==> r.value.maxXp >= selected[0].xp as real && r.value.maxXp >= selected[1].xp as real
    ensures r.Some? ==> r.value.maxXp == selected[0].xp as real || r.value.maxXp == selected[1].xp as real
  {
    if |selected| != 2 then None
    else
      var u1, u2 := selected[0], selected[1];
      Some(Verdict(Max(u1.moneySaved, u2.moneySaved), Max(u1.xp as real, u2.xp as real),
                   BestSaver(u1, u2), MoneyDifference(u1, u2)))
  }

  /** The worked example: 500 against 300 saved gives bars of 100% and 60%,
      the first user as best saver and a difference of 200. */
  lemma CompareExample(u1: User, u2: User)
    requires u1.moneySaved == 500.0 && u2.moneySaved == 300.0
    ensures Compare([u1, u2]).Some?
    ensures Compare([u1, u2]).value.bestSaver == u1
    ensures Compare([u1, u2]).value.difference == 200.0
    ensures BarWidth(u1.moneySaved, Compare([u1, u2]).value.maxMoney) == 100.0
    ensures BarWidth(u2.moneySaved, Compare([u1, u2]).value.maxMoney) == 60.0
  {
  }
}

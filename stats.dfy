/** The aggregate figures of the statistics panel (funcionalidade.js,
    renderStats): total money saved, total xp, average money per user and the
    number of users. */
module Stats {
  import opened Wrappers
  import opened Domain

  /** The money total of `users.reduce((sum, u) => sum + u.moneySaved, 0)`.
      Exact sums do not depend on grouping, so it is written from the front;
      TotalsSnoc shows it obeys the reduce's step. */
  function TotalMoney(users: seq<User>): (r: real)
    ensures (forall k :: 0 <= k < |users| ==> users[k].moneySaved >= 0.0) ==> r >= 0.0
  {
    if users == [] then 0.0 else users[0].moneySaved + TotalMoney(users[1..])
  }

  /** The xp total of `users.reduce((sum, u) => sum + u.xp, 0)`. */
  function TotalXp(users: seq<User>): (r: int)
    ensures (forall k :: 0 <= k < |users| ==> users[k].xp >= 0) ==> r >= 0
  {
    if users == [] then 0 else users[0].xp + TotalXp(users[1..])
  }

  datatype Summary = Summary(totalMoney: real, totalXp: int, averageMoney: Option<real>, userCount: nat)

  /** The four figures of the panel. The average of an empty roster is NaN in
      the original (0 / 0); here it is None. */
  function Summarize(users: seq<User>): (r: Summary)
    ensures r.userCount == |users|
    ensures r.totalMoney == TotalMoney(users) && r.totalXp == TotalXp(users)
    ensures r.averageMoney.None? <==> users == []
    ensures r.averageMoney.Some? ==> r.averageMoney.value * |users| as real == r.totalMoney
  {
    var total := TotalMoney(users);
    Summary(total, TotalXp(users), if users == [] then None else Some(total / |users| as real), |users|)
  }

  /** Both totals of a concatenation are the sums of the parts' totals. */
  lemma {:induction false} TotalsAppend(a: seq<User>, b: seq<User>)
    ensures TotalMoney(a + b) == TotalMoney(a) + TotalMoney(b)
    ensures TotalXp(a + b) == TotalXp(a) + TotalXp(b)
  {
    if a == [] {
      assert a + b == b;
    } else {
      assert (a + b)[0] == a[0];
      assert (a + b)[1..] == a[1..] + b;
      TotalsAppend(a[1..], b);
    }
  }

  /** The totals obey the step of the left-to-right reduce: adding a user at
      the end adds its values. */
  lemma TotalsSnoc(users: seq<User>, u: User)
    ensures TotalMoney(users + [u]) == TotalMoney(users) + u.moneySaved
    ensures TotalXp(users + [u]) == TotalXp(users) + u.xp
  {
    TotalsAppend(users, [u]);
    assert [u][1..] == [];
  }

  /** Taking the user at position j out of a roster takes its values out of
      both totals. */
  lemma TotalsRemoveAt(b: seq<User>, j: nat)
    requires j < |b|
    ensures TotalMoney(b) == TotalMoney(b[..j] + b[j + 1..]) + b[j].moneySaved
    ensures TotalXp(b) == TotalXp(b[..j] + b[j + 1..]) + b[j].xp
  {
    var x := b[j];
    var before, after := b[..j], b[j + 1..];
    assert b == before + ([x] + after);
    TotalsAppend(before, [x] + after);
    TotalsAppend(before, after);
    assert ([x] + after)[1..] == after;
  }

  /** Taking the first user out of a and an equal user out of b leaves equal
      multisets. */
  lemma PermutationWithout(a: seq<User>, b: seq<User>, j: nat)
    requires multiset(a) == multiset(b) && a != []
    requires j < |b| && b[j] == a[0]
    ensures multiset(a[1..]) == multiset(b[..j] + b[j + 1..])
  {
    assert a == [a[0]] + a[1..];
    assert b == b[..j] + [b[j]] + b[j + 1..];
    assert multiset(b[..j] + b[j + 1..]) == multiset(b) - multiset{b[j]};
  }

  /** The totals do not depend on the order of the roster, so re-ranking it
      leaves them unchanged. */
  lemma {:induction false} TotalsOfPermutation(a: seq<User>, b: seq<User>)
    requires multiset(a) == multiset(b)
    ensures TotalMoney(a) == TotalMoney(b)
    ensures TotalXp(a) == TotalXp(b)
    decreases |a|
  {
    if a == [] {
      assert |b| == |multiset(b)| == 0;
    } else {
      assert a[0] in multiset(b);
      var j :| 0 <= j < |b| && b[j] == a[0];
      PermutationWithout(a, b, j);
      TotalsOfPermutation(a[1..], b[..j] + b[j + 1..]);
      TotalsRemoveAt(b, j);
    }
  }

  /** Replacing the user at position i changes each total by the difference
      between the new and the old user. */
  lemma TotalsAfterUpdate(users: seq<User>, i: nat, u: User)
    requires i < |users|
    ensures TotalXp(users[i := u]) == TotalXp(users) - users[i].xp + u.xp
    ensures TotalMoney(users[i := u]) == TotalMoney(users) - users[i].moneySaved + u.moneySaved
  {
    var after := users[i := u];
    TotalsRemoveAt(users, i);
    TotalsRemoveAt(after, i);
    assert after[..i] + after[i + 1..] == users[..i] + users[i + 1..];
  }

  /** When nobody has saved a negative amount, the average is not negative. */
  lemma {:induction false} AverageNonNegative(users: seq<User>)
    requires users != []
    requires forall k :: 0 <= k < |users| ==> users[k].moneySaved >= 0.0
    ensures Summarize(users).averageMoney.value >= 0.0
  {
  }
}

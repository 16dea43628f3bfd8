/** The entities of the gamification module: users of the roster and the
    goals of the weekly catalog, and the lookups by id that the original
    performs with `Array.prototype.find`. */
module Domain {
  import opened Wrappers

  /** A weekly goal of the catalog; its title and icon only matter for display. */
  datatype Goal = Goal(id: int, xp: int)

  /** A user of the roster. Name, avatar, investments, saving streak and
      achievements are only displayed and are not modelled. */
  datatype User = User(
    id: int,
    xp: int,
    xpToNextLevel: int,
    level: int,
    completedGoals: seq<int>,
    weeklyGoalsCompleted: int,
    moneySaved: real)

  predicate NoDuplicates(s: seq<int>)
  {
    forall i, j :: 0 <= i < j < |s| ==> s[i] != s[j]
  }

  /** Ids identify users: no two users of a roster share one. */
  predicate DistinctIds(users: seq<User>)
  {
    forall i, j :: 0 <= i < j < |users| ==> users[i].id != users[j].id
  }

  /** The position of the first user with the given id (the search behind
      `users.find(u => u.id === id)`). */
  function FindUser(users: seq<User>, id: int): (r: Option<nat>)
    ensures r.Some? ==> r.value < |users| && users[r.value].id == id
    ensures r.Some? ==> forall k :: 0 <= k < r.value ==> users[k].id != id
    ensures r.None? ==> forall k :: 0 <= k < |users| ==> users[k].id != id
  {
    if users == [] then None
    else if users[0].id == id then Some(0)
    else
      var rest := FindUser(users[1..], id);
      if rest.None? then None else Some(rest.value + 1)
  }

  /** `users.find(u => u.id === id)`: the first user with the id, if any. */
  function UserById(users: seq<User>, id: int): (r: Option<User>)
    ensures r.Some? ==> r.value in users && r.value.id == id
    ensures r.None? <==> forall u :: u in users ==> u.id != id
    ensures r.Some? && DistinctIds(users) ==> forall u :: u in users && u.id == id ==> u == r.value
  {
    var i := FindUser(users, id);
    if i.None? then None else Some(users[i.value])
  }

  /** `goals.find(g => g.id === id)`: the first catalog entry with the id, if any. */
  function FindGoal(goals: seq<Goal>, id: int): (r: Option<Goal>)
    ensures r.Some? ==> r.value in goals && r.value.id == id
    ensures r.Some? ==> exists k :: 0 <= k < |goals| && goals[k] == r.value && forall j :: 0 <= j < k ==> goals[j].id != id
    ensures r.None? <==> forall g :: g in goals ==> g.id != id
  {
    if goals == [] then None
    else if goals[0].id == id then Some(goals[0])
    else
      var rest := FindGoal(goals[1..], id);
      if rest.Some? then FirstGoalShift(goals, id, rest.value); rest else rest
  }

  /** A first match in the tail, behind a head with another id, is a first
      match in the whole catalog. */
  lemma FirstGoalShift(goals: seq<Goal>, id: int, g: Goal)
    requires goals != [] && goals[0].id != id
    requires exists k :: 0 <= k < |goals[1..]| && goals[1..][k] == g && forall j :: 0 <= j < k ==> goals[1..][j].id != id
    ensures exists k :: 0 <= k < |goals| && goals[k] == g && forall j :: 0 <= j < k ==> goals[j].id != id
  {
    var k :| 0 <= k < |goals[1..]| && goals[1..][k] == g && forall j :: 0 <= j < k ==> goals[1..][j].id != id;
    assert goals[k + 1] == g;
    forall j | 0 <= j < k + 1
      ensures goals[j].id != id
    {
      if j > 0 {
        assert goals[j] == goals[1..][j - 1];
      }
    }
  }

  /** The xp a completed id is worth: the catalog entry's reward, or 0 for an
      id the catalog does not know (`g ? g.xp : 0`). */
  function GoalXp(goals: seq<Goal>, id: int): (r: int)
    ensures (forall g :: g in goals ==> g.id != id) ==> r == 0
    ensures r != 0 ==> exists g :: g in goals && g.id == id && g.xp == r
    ensures forall k :: 0 <= k < |goals| && goals[k].id == id && (forall j :: 0 <= j < k ==> goals[j].id != id) ==> r == goals[k].xp
  {
    match FindGoal(goals, id)
    case Some(g) => g.xp
    case None => 0
  }

  /** Lookup is insensitive to the order of a roster with distinct ids: any
      permutation finds the same user for every id. */
  lemma UserByIdOfPermutation(a: seq<User>, b: seq<User>, id: int)
    requires multiset(a) == multiset(b)
    requires DistinctIds(a)
    ensures UserById(a, id) == UserById(b, id)
  {
    forall u | u in a ensures u in b {
      assert u in multiset(a);
    }
    forall u | u in b ensures u in a {
      assert u in multiset(b);
    }
  }

  /** Replacing the user at position i by one with the same id leaves every
      other id's lookup alone and makes the new user that id's answer. */
  lemma UserByIdAfterUpdate(users: seq<User>, i: nat, u: User, id: int)
    requires DistinctIds(users)
    requires i < |users| && u.id == users[i].id
    ensures DistinctIds(users[i := u])
    ensures UserById(users[i := u], id) == if id == u.id then Some(u) else UserById(users, id)
  {
    var after := users[i := u];
    assert after[i] == u;
    if id != u.id {
      forall v | v in after && v.id == id ensures v in users {
        var k :| 0 <= k < |after| && after[k] == v;
        assert k != i;
      }
      forall v | v in users && v.id == id ensures v in after {
        var k :| 0 <= k < |users| && users[k] == v;
        assert k != i;
        assert after[k] == v;
      }
    }
  }
}

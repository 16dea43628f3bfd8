/** The comparison selection (funcionalidade.js, selectUser): at most two user
    ids in the order they were picked, toggled by a click. */
module Selection {
  import opened Domain

  /** `selectedUsers.findIndex(u => u.id === id)`: the first position of x, or -1. */
  function IndexOf(s: seq<int>, x: int): (r: int)
    ensures -1 <= r < |s|
    ensures r == -1 <==> x !in s
    ensures r >= 0 ==> s[r] == x && x !in s[..r]
  {
    if s == [] then -1
    else if s[0] == x then 0
    else
      var k := IndexOf(s[1..], x);
      assert s == [s[0]] + s[1..];
      if k == -1 then -1
      else
        assert s[..k + 1] == [s[0]] + s[1..][..k];
        k + 1
  }

  /** The entries of s other than x, in their order. */
  function Without(s: seq<int>, x: int): (r: seq<int>)
    ensures x !in r
    ensures forall y :: y in r <==> y in s && y != x
  {
    if s == [] then []
    else if s[0] == x then Without(s[1..], x)
    else [s[0]] + Without(s[1..], x)
  }

  /** A click on a user: a selected id is removed (`splice`); otherwise it is
      appended (`push`), after the oldest entry is dropped (`shift`) when two
      are already selected. */
  function Toggle(selected: seq<int>, id: int): (r: seq<int>)
    ensures |selected| <= 2 ==> |r| <= 2
    ensures forall x :: x in r ==> x in selected || x == id
    ensures NoDuplicates(selected) ==> (id in r <==> id !in selected)
  {
    var index := IndexOf(selected, id);
    if index > -1 then selected[..index] + selected[index + 1..]
    else if |selected| < 2 then selected + [id]
    else selected[1..] + [id]
  }

  /** The shape every reachable selection has. */
  predicate WellFormed(selected: seq<int>)
  {
    |selected| <= 2 && NoDuplicates(selected)
  }

  /** Toggling keeps the selection to at most two distinct ids. */
  lemma ToggleWellFormed(selected: seq<int>, id: int)
    requires WellFormed(selected)
    ensures WellFormed(Toggle(selected, id))
  {
  }

  lemma {:induction false} WithoutAppend(a: seq<int>, b: seq<int>, x: int)
    ensures Without(a + b, x) == Without(a, x) + Without(b, x)
  {
    if a == [] {
      assert a + b == b;
    } else {
      assert (a + b)[0] == a[0];
      assert (a + b)[1..] == a[1..] + b;
      WithoutAppend(a[1..], b, x);
    }
  }

  lemma {:induction false} WithoutAbsent(s: seq<int>, x: int)
    requires x !in s
    ensures Without(s, x) == s
  {
    if s != [] {
      WithoutAbsent(s[1..], x);
    }
  }

  /** Deselecting removes the id and keeps the other entries in their order. */
  lemma ToggleDeselects(selected: seq<int>, id: int)
    requires NoDuplicates(selected) && id in selected
    ensures Toggle(selected, id) == Without(selected, id)
  {
    var index := IndexOf(selected, id);
    var before, after := selected[..index], selected[index + 1..];
    assert id !in after by {
      forall k | index < k < |selected| ensures selected[k] != id {
        assert selected[index] == id;
      }
    }
    var tail := [id] + after;
    assert selected == before + tail;
    WithoutAppend(before, tail, id);
    WithoutAbsent(before, id);
    assert tail[0] == id && tail[1..] == after;
    assert Without(tail, id) == Without(after, id);
    WithoutAbsent(after, id);
  }

  /** With room left, a new id is appended. */
  lemma ToggleAppends(selected: seq<int>, id: int)
    requires id !in selected && |selected| < 2
    ensures Toggle(selected, id) == selected + [id]
  {
  }

  /** A third distinct id evicts exactly the earliest selected one. */
  lemma ToggleEvictsOldest(selected: seq<int>, id: int)
    requires id !in selected && |selected| == 2
    ensures Toggle(selected, id) == [selected[1], id]
  {
  }

  /** Clicking a newly selected user again restores the previous selection. */
  lemma ToggleTwiceRestores(selected: seq<int>, id: int)
    requires id !in selected && |selected| < 2
    ensures Toggle(Toggle(selected, id), id) == selected
  {
  }
}

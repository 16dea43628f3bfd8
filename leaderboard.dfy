/** The ranking of the leaderboard: the roster ordered by descending xp
    (`users.sort((a, b) => b.xp - a.xp)`), the badge class of a rank and the
    xp bar of a user (funcionalidade.js, getRankClass, calculateProgress). */
module Leaderboard {
  import opened Domain

  /** Non-increasing xp from the first user to the last. */
  predicate RankedByXp(s: seq<User>)
  {
    forall i, j :: 0 <= i < j < |s| ==> s[i].xp >= s[j].xp
  }

  /** Places u before the first user with no more xp than u. */
  function Insert(u: User, s: seq<User>): (r: seq<User>)
    ensures multiset(r) == multiset(s) + multiset{u}
  {
    if s == [] || u.xp >= s[0].xp then [u] + s
    else
      assert s == [s[0]] + s[1..];
      [s[0]] + Insert(u, s[1..])
  }

  /** Every user of an insertion is the inserted one or was there before. */
  lemma MemberOfInsert(u: User, s: seq<User>, x: User)
    requires x in Insert(u, s)
    ensures x == u || x in s
  {
  }

  lemma {:induction false} InsertRanked(u: User, s: seq<User>)
    requires RankedByXp(s)
    ensures RankedByXp(Insert(u, s))
  {
    if s != [] && u.xp < s[0].xp {
      InsertRanked(u, s[1..]);
      var t := Insert(u, s[1..]);
      forall j | 0 <= j < |t| ensures t[j].xp <= s[0].xp {
        MemberOfInsert(u, s[1..], t[j]);
        if t[j] != u {
          var k :| 0 <= k < |s[1..]| && s[1..][k] == t[j];
          assert s[k + 1] == t[j];
        }
      }
    }
  }

  /** The re-sort of the roster: a permutation of it, ordered by descending xp.
      Users with equal xp keep their previous order, as the stable sort of the
      original does, but no contract here states that order. */
  function Rank(s: seq<User>): (r: seq<User>)
    ensures multiset(r) == multiset(s)
    ensures RankedByXp(r)
  {
    if s == [] then []
    else
      var rest := Rank(s[1..]);
      InsertRanked(s[0], rest);
      assert s == [s[0]] + s[1..];
      Insert(s[0], rest)
  }

  /** Sorting keeps the users' ids distinct. */
  lemma {:induction false} InsertKeepsDistinctIds(u: User, s: seq<User>)
    requires DistinctIds(s)
    requires forall x :: x in s ==> x.id != u.id
    ensures DistinctIds(Insert(u, s))
  {
    if s != [] && u.xp < s[0].xp {
      InsertKeepsDistinctIds(u, s[1..]);
      var t := Insert(u, s[1..]);
      forall j | 0 <= j < |t| ensures t[j].id != s[0].id {
        MemberOfInsert(u, s[1..], t[j]);
        if t[j] != u {
          var k :| 0 <= k < |s[1..]| && s[1..][k] == t[j];
          assert s[k + 1] == t[j];
        }
      }
    }
  }

  lemma {:induction false} RankKeepsDistinctIds(s: seq<User>)
    requires DistinctIds(s)
    ensures DistinctIds(Rank(s))
  {
    if s != [] {
      RankKeepsDistinctIds(s[1..]);
      var rest := Rank(s[1..]);
      forall x | x in rest ensures x.id != s[0].id {
        assert x in multiset(rest);
        assert x in multiset(s[1..]);
        var k :| 0 <= k < |s[1..]| && s[1..][k] == x;
        assert s[k + 1] == x;
      }
      InsertKeepsDistinctIds(s[0], rest);
    }
  }

  /** A roster already in order is left exactly as it is by the re-sort. */
  lemma {:induction false} RankOfRanked(s: seq<User>)
    requires RankedByXp(s)
    ensures Rank(s) == s
  {
    if s != [] {
      RankOfRanked(s[1..]);
      assert s == [s[0]] + s[1..];
    }
  }

  const RANK_CLASSES: seq<string> := ["rank-1", "rank-2", "rank-3", "rank-other"]

  /** The badge class of the user at a position of the leaderboard: the table
      entry at that position, or "rank-other" wherever the table has none
      (JavaScript's `classes[index] || 'rank-other'`, where a missing entry or
      an empty string falls through). */
  function RankClass(index: int): (r: string)
    ensures index == 0 ==> r == "rank-1"
    ensures index == 1 ==> r == "rank-2"
    ensures index == 2 ==> r == "rank-3"
    ensures !(0 <= index < 3) ==> r == "rank-other"
  {
    if 0 <= index < |RANK_CLASSES| && RANK_CLASSES[index] != "" then RANK_CLASSES[index]
    else "rank-other"
  }

  /** The width of the xp bar, in percent: `Math.min((xp / xpToNextLevel) * 100, 100)`. */
  function Progress(u: User): (r: real)
    requires u.xpToNextLevel != 0
    ensures r <= 100.0
    ensures u.xp >= 0 && u.xpToNextLevel > 0 ==> r >= 0.0
    ensures u.xpToNextLevel > 0 ==> (r == 100.0 <==> u.xp >= u.xpToNextLevel)
    ensures u.xpToNextLevel < 0 ==> (r == 100.0 <==> u.xp <= u.xpToNextLevel)
    ensures r < 100.0 ==> r * u.xpToNextLevel as real == 100.0 * u.xp as real
  {
    var ratio := (u.xp as real / u.xpToNextLevel as real) * 100.0;
    if ratio < 100.0 then ratio else 100.0
  }
}

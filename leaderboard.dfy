/** The "Top Performers" card (`src/components/Leaderboard.tsx`): a copy of
    the users sorted by descending total reward, cut to `limit`, each shown
    with a 1-based rank. */
module Leaderboard {
  import opened Collections
  import opened Data

  /** The `limit` prop defaults to 5 when it is not given. */
  const DefaultLimit: int := 5

  function EffectiveLimit(limit: Option<int>): (n: int)
    ensures limit.None? ==> n == DefaultLimit
    ensures limit.Some? ==> n == limit.value
  {
    match limit
    case None => DefaultLimit
    case Some(n) => n
  }

  /** `sortedUsers = [...users].sort(byRewardDesc).slice(0, limit)`: a prefix
      of the stable descending ranking of `users`. */
  function SortedUsers(users: seq<User>, limit: Option<int>): (top: seq<User>)
    ensures EffectiveLimit(limit) >= 0 ==>
      |top| == if EffectiveLimit(limit) < |users| then EffectiveLimit(limit) else |users|
    ensures top <= RankByReward(users)
    ensures SortedByRewardDesc(top)
    ensures multiset(top) <= multiset(users)
    ensures forall u :: u in top ==> u in users
  {
    var ranked := RankByReward(users);
    var top := SliceTo(ranked, EffectiveLimit(limit));
    PrefixOfRanking(top, ranked);
    assert forall u :: u in top ==> u in users by {
      forall u | u in top ensures u in users {
        assert u in multiset(top);
      }
    }
    top
  }

  /** A prefix of a sorted list is sorted and holds no more than the list. */
  lemma PrefixOfRanking(top: seq<User>, ranked: seq<User>)
    requires top <= ranked && SortedByRewardDesc(ranked)
    ensures SortedByRewardDesc(top)
    ensures multiset(top) <= multiset(ranked)
  {
    assert ranked == top + ranked[|top|..];
  }

  /** The entry at index `i` is shown with rank `i + 1`. */
  datatype Entry = Entry(rank: nat, user: User)

  /** `sortedUsers.map((user, index) => ...)` with the displayed rank. */
  function Entries(top: seq<User>): (rows: seq<Entry>)
    ensures |rows| == |top|
    ensures forall i :: 0 <= i < |rows| ==> rows[i].user == top[i] && rows[i].rank == i + 1
  {
    seq(|top|, i requires 0 <= i < |top| => Entry(i + 1, top[i]))
  }

  /** The rows of the card: ranks run 1, 2, 3, ... and a better (smaller)
      rank never has a smaller total reward. */
  lemma RanksFollowRewards(users: seq<User>, limit: Option<int>)
    ensures var rows := Entries(SortedUsers(users, limit));
      (rows != [] ==> rows[0].rank == 1) &&
      forall i, j :: 0 <= i < j < |rows| ==>
        rows[i].rank < rows[j].rank && rows[i].user.totalReward >= rows[j].user.totalReward
  {
  }

  /** The first row holds a user whose total reward is the largest of all. */
  lemma LeaderHasLargestReward(users: seq<User>, limit: Option<int>)
    requires SortedUsers(users, limit) != []
    ensures forall u :: u in users ==> SortedUsers(users, limit)[0].totalReward >= u.totalReward
  {
    var ranked := RankByReward(users);
    forall u | u in users
      ensures ranked[0].totalReward >= u.totalReward
    {
      assert u in multiset(ranked);
      var k :| 0 <= k < |ranked| && ranked[k] == u;
    }
  }

  /** A limit of at least the number of users shows all of them. */
  lemma LargeLimitShowsEveryone(users: seq<User>, limit: Option<int>)
    requires EffectiveLimit(limit) >= |users|
    ensures SortedUsers(users, limit) == RankByReward(users)
  {
  }

  /** On the page (mock users, default limit) the card shows the whole
      ranking: users 1, 3, 5, 2, 4. */
  lemma MockLeaderboard()
    ensures SortedUsers(MockUsers, None) == UserRanking()
    ensures SortedUsers(MockUsers, None) == [MockUser1, MockUser3, MockUser5, MockUser2, MockUser4]
  {
    LargeLimitShowsEveryone(MockUsers, None);
    MockRanking();
  }
}

/**
 * The leaderboard (leaderboards/views.py): every user except "admin" scored by the sum of
 * their earned-coins ledger rows, ranked by that score, highest first, ties in user order;
 * and the garden tooltip, which shows another user's squares as a grid.
 */
module Leaderboard {
  import opened Basics
  import opened Sorting
  import Garden

  /** A `User` row with its profile picture and its `UserEarntCoins.score` values. */
  datatype Member = Member(username: string, picture: string, earned: seq<int>)

  /** One `coin_map` item: a user and their summed score. */
  datatype Standing = Standing(username: string, picture: string, score: int)

  /** One entry of the `rankedUsers` response. */
  datatype RankedUser = RankedUser(username: string, pfpUrl: string, score: int)

  /** The `current_user_data` response. */
  datatype CurrentUserData = CurrentUserData(username: string, score: int, rank: nat)

  const Admin: string := "admin"
  const PicturePrefix: string := "/media/pfps/"

  /** Django usernames are unique. */
  predicate UniqueUsernames(users: seq<Member>)
  {
    forall i, j :: 0 <= i < j < |users| ==> users[i].username != users[j].username
  }

  predicate UniqueNames(ss: seq<Standing>)
  {
    forall i, j :: 0 <= i < j < |ss| ==> ss[i].username != ss[j].username
  }

  function StandingOf(m: Member): Standing
  {
    Standing(m.username, m.picture, Sum(m.earned))
  }

  function Score(s: Standing): int
  {
    s.score
  }

  /** The `coin_map` items, in the order the users are listed. */
  function CoinMap(users: seq<Member>): seq<Standing>
  {
    if users == [] then []
    else
      var last := users[|users| - 1];
      CoinMap(users[..|users| - 1]) + (if last.username != Admin then [StandingOf(last)] else [])
  }

  /** `coin_map[user]`. */
  function Lookup(items: seq<Standing>, name: string): (r: Option<int>)
    ensures r.None? <==> forall s :: s in items ==> s.username != name
    ensures r.Some? ==> exists s :: s in items && s.username == name && s.score == r.value
  {
    if items == [] then None
    else if items[0].username == name then Some(items[0].score)
    else Lookup(items[1..], name)
  }

  /** `sorted_users`: the items by non-increasing score, a stable sort. */
  function Ranking(users: seq<Member>): seq<Standing>
  {
    SortDesc(CoinMap(users), Score)
  }

  function Present(s: Standing): RankedUser
  {
    RankedUser(s.username, PicturePrefix + s.picture, s.score)
  }

  /** The `rankedUsers` list. */
  function RankedUsers(users: seq<Member>): (r: seq<RankedUser>)
    ensures |r| == |Ranking(users)|
    ensures forall i :: 0 <= i < |r| ==> r[i] == Present(Ranking(users)[i])
  {
    seq(|Ranking(users)|, i requires 0 <= i < |Ranking(users)| => Present(Ranking(users)[i]))
  }

  /** `coin_map` holds one item per non-admin user, scored by that user's ledger total. */
  lemma {:induction false} CoinMapMembers(users: seq<Member>)
    ensures forall s :: s in CoinMap(users) <==> exists m :: m in users && m.username != Admin && s == StandingOf(m)
    ensures UniqueUsernames(users) ==> UniqueNames(CoinMap(users))
  {
    CoinMapHolds(users);
    if UniqueUsernames(users) {
      CoinMapUnique(users);
    }
  }

  lemma {:induction false} CoinMapHolds(users: seq<Member>)
    ensures forall s :: s in CoinMap(users) <==> exists m :: m in users && m.username != Admin && s == StandingOf(m)
  {
    if users != [] {
      var init, last := users[..|users| - 1], users[|users| - 1];
      CoinMapHolds(init);
      assert users == init + [last];
    }
  }

  lemma {:induction false} CoinMapUnique(users: seq<Member>)
    requires UniqueUsernames(users)
    ensures UniqueNames(CoinMap(users))
  {
    if users != [] {
      var init, last := users[..|users| - 1], users[|users| - 1];
      assert users == init + [last];
      assert UniqueUsernames(init);
      CoinMapUnique(init);
      CoinMapHolds(init);
      forall s | s in CoinMap(init) ensures s.username != last.username {
        var m :| m in init && m.username != Admin && s == StandingOf(m);
        var k :| 0 <= k < |init| && init[k] == m;
      }
    }
  }

  /** Two items of `coin_map` with the same username are the same item. */
  lemma SameNameSameStanding(ss: seq<Standing>, s: Standing, t: Standing)
    requires UniqueNames(ss) && s in ss && t in ss && s.username == t.username
    ensures s == t
  {
    var i :| 0 <= i < |ss| && ss[i] == s;
    var j :| 0 <= j < |ss| && ss[j] == t;
  }

  /**
   * The ranking is ordered by non-increasing score, holds exactly the non-admin users, each once,
   * each with their ledger total, and users with equal scores keep their listed order.
   */
  lemma RankingCorrect(users: seq<Member>)
    requires UniqueUsernames(users)
    ensures SortedDesc(Ranking(users), Score)
    ensures multiset(Ranking(users)) == multiset(CoinMap(users))
    ensures forall s :: s in Ranking(users) <==> exists m :: m in users && m.username != Admin && s == StandingOf(m)
    ensures UniqueNames(Ranking(users))
    ensures forall k :: WithKey(Ranking(users), Score, k) == WithKey(CoinMap(users), Score, k)
  {
    var items, ranked := CoinMap(users), Ranking(users);
    SortDescCorrect(items, Score);
    CoinMapMembers(users);
    forall s ensures s in ranked <==> s in items {
      assert s in ranked <==> s in multiset(ranked);
    }
    forall i, j | 0 <= i < j < |items| ensures items[i] != items[j] {
    }
    DistinctByMultiset(ranked, items);
    forall i, j | 0 <= i < j < |ranked| ensures ranked[i].username != ranked[j].username {
      if ranked[i].username == ranked[j].username {
        assert ranked[i] in items && ranked[j] in items;
        SameNameSameStanding(items, ranked[i], ranked[j]);
      }
    }
  }

  /** The rank and score reported for the requester agree with the ranking. */
  lemma CurrentUserInRanking(users: seq<Member>, current: Member)
    requires UniqueUsernames(users)
    requires current in users && current.username != Admin
    ensures StandingOf(current) in Ranking(users)
    ensures Lookup(CoinMap(users), current.username) == Some(Sum(current.earned))
  {
    RankingCorrect(users);
    CoinMapMembers(users);
    var r := Lookup(CoinMap(users), current.username);
    assert StandingOf(current) in CoinMap(users);
    var s :| s in CoinMap(users) && s.username == current.username && s.score == r.value;
    SameNameSameStanding(CoinMap(users), s, StandingOf(current));
  }

  /** No username appears twice in `rankedUsers`. */
  lemma RankedNamesUnique(users: seq<Member>)
    requires UniqueUsernames(users)
    ensures forall i, j :: 0 <= i < j < |RankedUsers(users)| ==> RankedUsers(users)[i].username != RankedUsers(users)[j].username
  {
    RankingCorrect(users);
  }

  /** Every non-admin user has an entry in `rankedUsers`, and `coin_map` scores them by their ledger total. */
  lemma RankedHasUser(users: seq<Member>, m: Member)
    requires UniqueUsernames(users)
    requires m in users && m.username != Admin
    ensures exists k :: 0 <= k < |RankedUsers(users)| && RankedUsers(users)[k].username == m.username
    ensures Lookup(CoinMap(users), m.username) == Some(Sum(m.earned))
  {
    CurrentUserInRanking(users, m);
    var at :| 0 <= at < |Ranking(users)| && Ranking(users)[at] == StandingOf(m);
    assert RankedUsers(users)[at].username == m.username;
  }

  /**
   * `get_ranked_users` for the request of user `current`. The requester is logged in, and the
   * view fails when the requester is "admin", since "admin" has no `coin_map` item.
   */
  method GetRankedUsers(users: seq<Member>, current: string) returns (ranked: seq<RankedUser>, me: CurrentUserData)
    requires UniqueUsernames(users)
    requires current != Admin
    requires exists m :: m in users && m.username == current
    ensures ranked == RankedUsers(users)
    ensures me.username == current
    ensures 1 <= me.rank <= |ranked| && ranked[me.rank - 1].username == current
    ensures forall k :: 0 <= k < |ranked| && ranked[k].username == current ==> me.rank == k + 1
    ensures forall m :: m in users && m.username == current ==> me.score == Sum(m.earned)
  {
    var coinMap := SumEarned(users);
    var sorted := SortDesc(coinMap, Score);
    ranked := PresentAll(sorted);
    assert sorted == Ranking(users);
    forall k | 0 <= k < |ranked|
      ensures ranked[k] == RankedUsers(users)[k]
    {
    }
    assert ranked == RankedUsers(users);
    var rank := RankOf(users, ranked, current);
    var score := ScoreOf(users, coinMap, current);
    me := CurrentUserData(current, score, rank);
  }

  /** The third loop of `get_ranked_users`: the requester's 1-based position, found once. */
  method RankOf(users: seq<Member>, ranked: seq<RankedUser>, current: string) returns (rank: nat)
    requires UniqueUsernames(users) && ranked == RankedUsers(users)
    requires current != Admin && exists m :: m in users && m.username == current
    ensures 1 <= rank <= |ranked| && ranked[rank - 1].username == current
    ensures forall k :: 0 <= k < |ranked| && ranked[k].username == current ==> rank == k + 1
  {
    ghost var m :| m in users && m.username == current;
    RankedHasUser(users, m);
    rank := FindRank(ranked, current);
    RankedNamesUnique(users);
    RankIsUnique(ranked, current, rank);
  }

  /** `coin_map[request.user.username]`: the requester's ledger total. */
  method ScoreOf(users: seq<Member>, coinMap: seq<Standing>, current: string) returns (score: int)
    requires UniqueUsernames(users) && coinMap == CoinMap(users)
    requires current != Admin && exists m :: m in users && m.username == current
    ensures forall m :: m in users && m.username == current ==> score == Sum(m.earned)
  {
    ghost var m :| m in users && m.username == current;
    RankedHasUser(users, m);
    var found := Lookup(coinMap, current);
    score := found.value;
    forall m' | m' in users && m'.username == current
      ensures score == Sum(m'.earned)
    {
      RankedHasUser(users, m');
    }
  }

  /** The first loop of `get_ranked_users`: one `coin_map` item per non-admin user. */
  method SumEarned(users: seq<Member>) returns (coinMap: seq<Standing>)
    ensures coinMap == CoinMap(users)
  {
    coinMap := [];
    for i := 0 to |users|
      invariant coinMap == CoinMap(users[..i])
    {
      assert users[..i + 1][..i] == users[..i];
      if users[i].username != Admin {
        coinMap := coinMap + [StandingOf(users[i])];
      }
    }
    assert users[..|users|] == users;
  }

  /** The second loop: one response entry per sorted item, in the same order. */
  method PresentAll(sorted: seq<Standing>) returns (ranked: seq<RankedUser>)
    ensures |ranked| == |sorted|
    ensures forall k :: 0 <= k < |sorted| ==> ranked[k] == Present(sorted[k])
  {
    ranked := [];
    for i := 0 to |sorted|
      invariant |ranked| == i
      invariant forall k :: 0 <= k < i ==> ranked[k] == Present(sorted[k])
    {
      ranked := ranked + [Present(sorted[i])];
    }
  }

  /** The third loop: the 1-based position of the first entry with the requester's username. */
  method FindRank(ranked: seq<RankedUser>, current: string) returns (rank: nat)
    requires exists k :: 0 <= k < |ranked| && ranked[k].username == current
    ensures 1 <= rank <= |ranked| && ranked[rank - 1].username == current
    ensures forall k :: 0 <= k < rank - 1 ==> ranked[k].username != current
  {
    var i := 0;
    while i < |ranked|
      invariant 0 <= i <= |ranked|
      invariant forall k :: 0 <= k < i ==> ranked[k].username != current
    {
      if ranked[i].username == current {
        return i + 1;
      }
      i := i + 1;
    }
    assert false;
  }

  /** With names unique, the rank found is the only index holding the requester. */
  lemma RankIsUnique(ranked: seq<RankedUser>, current: string, rank: nat)
    requires forall i, j :: 0 <= i < j < |ranked| ==> ranked[i].username != ranked[j].username
    requires 1 <= rank <= |ranked| && ranked[rank - 1].username == current
    ensures forall k :: 0 <= k < |ranked| && ranked[k].username == current ==> rank == k + 1
  {
  }

  /** `get_tooltip_template`: the requested user's squares as `size` rows of `size`, row-major. */
  function Tooltip<T>(squares: seq<T>, size: nat): (grid: seq<seq<T>>)
    requires size * size <= |squares|
    ensures |grid| == size
    ensures forall i :: 0 <= i < size ==> |grid[i]| == size
    ensures Garden.Flatten(grid) == squares[..size * size]
  {
    Garden.FlattenReshape(squares, size);
    Garden.Reshape(squares, size)
  }
}

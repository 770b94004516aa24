/**
 * The challenge feed (forum/views.py, `get_challenge_info`): the completed challenges and
 * objectives shown under the 'my', 'friends' and university-wide filters. Friends are the other
 * member of every `Friends` row that contains the requester, in either column.
 */
module Feed {
  import opened Basics
  import opened Challenges

  /** A `Friends` row. */
  datatype Friendship = Friendship(user1: UserId, user2: UserId)

  /** Whose completed items a filter shows. */
  datatype Audience = OnlyUser(user: UserId) | AmongUsers(ids: set<UserId>) | AllUsers

  predicate Includes(audience: Audience, u: UserId)
  {
    match audience
    case OnlyUser(v) => u == v
    case AmongUsers(ids) => u in ids
    case AllUsers => true
  }

  /** The JSON answer: the `has_no_friends` flag and the two lists (their rows, before formatting). */
  datatype ChallengeInfo = ChallengeInfo(hasNoFriends: bool, challenges: seq<Ongoing>, objectives: seq<Objective>)

  /** The filter in force: the `filter` query parameter, 'my' when it is absent. */
  function FilterType(filter: Option<string>): (f: string)
    ensures filter.None? ==> f == "my"
    ensures filter.Some? ==> f == filter.value
  {
    if filter.Some? then filter.value else "my"
  }

  predicate Involves(r: Friendship, me: UserId)
  {
    r.user1 == me || r.user2 == me
  }

  /** The `Friends` query: the rows with the requester in either column, in table order. */
  function Involving(rows: seq<Friendship>, me: UserId): (mine: seq<Friendship>)
    ensures forall r :: r in mine <==> r in rows && Involves(r, me)
  {
    if rows == [] then []
    else (if Involves(rows[0], me) then [rows[0]] else []) + Involving(rows[1..], me)
  }

  /** The other member of a row: the second column when the requester is in the first, else the first. */
  function Other(r: Friendship, me: UserId): UserId
  {
    if r.user1 == me then r.user2 else r.user1
  }

  /** The ids the loop collects from the given rows. */
  function Others(friends: seq<Friendship>, me: UserId): set<UserId>
  {
    set r | r in friends :: Other(r, me)
  }

  lemma OthersAppend(friends: seq<Friendship>, r: Friendship, me: UserId)
    ensures Others(friends + [r], me) == Others(friends, me) + {Other(r, me)}
  {
    var left, right := Others(friends + [r], me), Others(friends, me) + {Other(r, me)};
    forall v | v in right
      ensures v in left
    {
      if v != Other(r, me) {
        var x :| x in friends && Other(x, me) == v;
        assert x in friends + [r];
      }
    }
  }

  /** The requester's friends, read off all `Friends` rows. */
  function FriendIdsOf(rows: seq<Friendship>, me: UserId): set<UserId>
  {
    Others(Involving(rows, me), me)
  }

  /** Being a friend means sharing a row, in either order. */
  lemma FriendIdsCharacterised(rows: seq<Friendship>, me: UserId, v: UserId)
    ensures v in FriendIdsOf(rows, me) <==> Friendship(me, v) in rows || Friendship(v, me) in rows
  {
    var mine := Involving(rows, me);
    if v in FriendIdsOf(rows, me) {
      var r :| r in mine && Other(r, me) == v;
      assert r == Friendship(me, v) || r == Friendship(v, me);
    }
    if Friendship(me, v) in rows {
      assert Other(Friendship(me, v), me) == v;
    } else if Friendship(v, me) in rows {
      assert Friendship(v, me) in mine;
      assert Other(Friendship(v, me), me) == v;
    }
  }

  /** Friendship is symmetric: u counts v as a friend exactly when v counts u as one. */
  lemma FriendsSymmetric(rows: seq<Friendship>, u: UserId, v: UserId)
    ensures v in FriendIdsOf(rows, u) <==> u in FriendIdsOf(rows, v)
  {
    FriendIdsCharacterised(rows, u, v);
    FriendIdsCharacterised(rows, v, u);
  }

  /** The completed challenges (`submitted_on` set) of the audience, in table order. */
  function CompletedChallenges(rows: seq<Ongoing>, audience: Audience): (shown: seq<Ongoing>)
    ensures forall c :: c in shown <==> c in rows && c.submittedOn.Some? && Includes(audience, c.user)
    ensures |shown| <= |rows|
  {
    if rows == [] then []
    else (if rows[0].submittedOn.Some? && Includes(audience, rows[0].user) then [rows[0]] else [])
         + CompletedChallenges(rows[1..], audience)
  }

  /** The completed objectives of the audience, in table order. */
  function CompletedObjectives(rows: seq<Objective>, audience: Audience): (shown: seq<Objective>)
    ensures forall o :: o in shown <==> o in rows && o.completed && Includes(audience, o.user)
    ensures |shown| <= |rows|
  {
    if rows == [] then []
    else (if rows[0].completed && Includes(audience, rows[0].user) then [rows[0]] else [])
         + CompletedObjectives(rows[1..], audience)
  }

  /** The answer for one audience, with `has_no_friends` false. */
  function Shown(audience: Audience, ongoing: seq<Ongoing>, objectives: seq<Objective>): ChallengeInfo
  {
    ChallengeInfo(false, CompletedChallenges(ongoing, audience), CompletedObjectives(objectives, audience))
  }

  /** What `get_challenge_info` answers. */
  function Info(filter: Option<string>, me: UserId, rows: seq<Friendship>,
                ongoing: seq<Ongoing>, objectives: seq<Objective>): ChallengeInfo
  {
    var f := FilterType(filter);
    if f == "my" then Shown(OnlyUser(me), ongoing, objectives)
    else if f == "friends" then
      (if Involving(rows, me) == [] then ChallengeInfo(true, [], [])
       else Shown(AmongUsers(FriendIdsOf(rows, me)), ongoing, objectives))
    else Shown(AllUsers, ongoing, objectives)
  }

  /** The `friend_ids` loop over the requester's rows. */
  method FriendIds(friends: seq<Friendship>, me: UserId) returns (ids: set<UserId>)
    ensures ids == Others(friends, me)
  {
    ids := {};
    for i := 0 to |friends|
      invariant ids == Others(friends[..i], me)
    {
      assert friends[..i + 1] == friends[..i] + [friends[i]];
      OthersAppend(friends[..i], friends[i], me);
      if friends[i].user1 == me {
        ids := ids + {friends[i].user2};
      } else {
        ids := ids + {friends[i].user1};
      }
    }
    assert friends[..|friends|] == friends;
  }

  /** `get_challenge_info` over the `Friends`, `ongoingChallenge` and `dailyObjective` tables. */
  method GetChallengeInfo(filter: Option<string>, me: UserId, rows: seq<Friendship>,
                          ongoing: seq<Ongoing>, objectives: seq<Objective>) returns (info: ChallengeInfo)
    ensures info == Info(filter, me, rows, ongoing, objectives)
  {
    var f := FilterType(filter);
    var audience: Audience;
    if f == "my" {
      audience := OnlyUser(me);
    } else if f == "friends" {
      var friends := Involving(rows, me);
      if friends == [] {
        return ChallengeInfo(true, [], []);
      }
      var ids := FriendIds(friends, me);
      audience := AmongUsers(ids);
    } else {
      audience := AllUsers;
    }
    info := ChallengeInfo(false, CompletedChallenges(ongoing, audience), CompletedObjectives(objectives, audience));
  }

  /** Whatever the filter, only submitted challenges and completed objectives are listed. */
  lemma OnlyCompletedShown(filter: Option<string>, me: UserId, rows: seq<Friendship>,
                           ongoing: seq<Ongoing>, objectives: seq<Objective>)
    ensures forall c :: c in Info(filter, me, rows, ongoing, objectives).challenges ==> c in ongoing && c.submittedOn.Some?
    ensures forall o :: o in Info(filter, me, rows, ongoing, objectives).objectives ==> o in objectives && o.completed
  {
  }

  /** With no filter (or 'my'), exactly the requester's own completed items are listed. */
  lemma DefaultShowsMine(filter: Option<string>, me: UserId, rows: seq<Friendship>,
                         ongoing: seq<Ongoing>, objectives: seq<Objective>)
    requires filter.None? || filter == Some("my")
    ensures !Info(filter, me, rows, ongoing, objectives).hasNoFriends
    ensures forall c :: c in Info(filter, me, rows, ongoing, objectives).challenges <==>
                        c in ongoing && c.submittedOn.Some? && c.user == me
    ensures forall o :: o in Info(filter, me, rows, ongoing, objectives).objectives <==>
                        o in objectives && o.completed && o.user == me
  {
  }

  /** `has_no_friends` is set exactly under 'friends' for a requester in no row, and then both lists are empty. */
  lemma NoFriendsFlag(filter: Option<string>, me: UserId, rows: seq<Friendship>,
                      ongoing: seq<Ongoing>, objectives: seq<Objective>)
    ensures Info(filter, me, rows, ongoing, objectives).hasNoFriends <==>
            filter == Some("friends") && forall r :: r in rows ==> !Involves(r, me)
    ensures Info(filter, me, rows, ongoing, objectives).hasNoFriends ==>
            Info(filter, me, rows, ongoing, objectives).challenges == [] &&
            Info(filter, me, rows, ongoing, objectives).objectives == []
  {
    var mine := Involving(rows, me);
    if mine != [] {
      assert mine[0] in mine;
    }
  }

  /** Under 'friends', a completed challenge is listed iff its owner shares a `Friends` row with the requester. */
  lemma FriendsFilterShows(me: UserId, rows: seq<Friendship>, ongoing: seq<Ongoing>, objectives: seq<Objective>, c: Ongoing)
    requires exists r :: r in rows && Involves(r, me)
    ensures c in Info(Some("friends"), me, rows, ongoing, objectives).challenges <==>
            c in ongoing && c.submittedOn.Some? &&
            (Friendship(me, c.user) in rows || Friendship(c.user, me) in rows)
  {
    var r :| r in rows && Involves(r, me);
    assert r in Involving(rows, me);
    FriendIdsCharacterised(rows, me, c.user);
  }

  /** Any other filter value lists every user's completed items. */
  lemma UniversityShowsAll(filter: string, me: UserId, rows: seq<Friendship>,
                           ongoing: seq<Ongoing>, objectives: seq<Objective>)
    requires filter != "my" && filter != "friends"
    ensures !Info(Some(filter), me, rows, ongoing, objectives).hasNoFriends
    ensures forall c :: c in Info(Some(filter), me, rows, ongoing, objectives).challenges <==> c in ongoing && c.submittedOn.Some?
    ensures forall o :: o in Info(Some(filter), me, rows, ongoing, objectives).objectives <==> o in objectives && o.completed
  {
  }
}

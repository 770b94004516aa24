/**
 * Challenges and daily objectives (EcoWorld/utils.py): which of a user's ongoing
 * challenges the challenge page shows, when the daily objectives are reset, and how
 * fresh challenges are drawn from the catalogue without replacement.
 * Times are integers on one clock; `today` and `submittedOn` are day numbers.
 */
module Challenges {
  import opened Basics
  import Sorting

  /** A `challenge` row of the catalogue. */
  datatype Challenge = Challenge(id: ChallengeId, name: string, description: string, worth: int)

  /** An `ongoingChallenge` row. */
  datatype Ongoing = Ongoing(
    id: nat,
    challenge: Challenge,
    user: UserId,
    submission: Option<string>,
    submittedOn: Option<int>,
    createdOn: int)

  /** A `dailyObjective` row. */
  datatype Objective = Objective(user: UserId, name: string, goal: int, progress: int, lastReset: int, completed: bool)

  /** An ongoing challenge with the `is_completed` annotation of the challenge page. */
  datatype Annotated = Annotated(row: Ongoing, isCompleted: bool)

  function OfUser(rows: seq<Ongoing>, u: UserId): seq<Ongoing>
  {
    Filter(rows, (o: Ongoing) => o.user == u)
  }

  /** Sorting by this key in non-increasing order is `order_by("created_on")`. */
  function CreationKey(o: Ongoing): int
  {
    -o.createdOn
  }

  /** `order_by("created_on")[:2]` on the user's challenges. */
  function Earliest(rows: seq<Ongoing>, u: UserId): seq<Ongoing>
  {
    var mine := OfUser(rows, u);
    var n := if |mine| < 2 then |mine| else 2;
    Sorting.TopOfSorted(mine, CreationKey, n);
    Sorting.SortDesc(mine, CreationKey)[..n]
  }

  /**
   * The page shows two of the user's challenges (fewer if the user has fewer), earliest
   * created first, and none created later than a challenge it leaves out.
   */
  lemma EarliestCorrect(rows: seq<Ongoing>, u: UserId)
    ensures |Earliest(rows, u)| == if |OfUser(rows, u)| < 2 then |OfUser(rows, u)| else 2
    ensures forall o :: o in Earliest(rows, u) ==> o in rows && o.user == u
    ensures forall i, j :: 0 <= i < j < |Earliest(rows, u)| ==> Earliest(rows, u)[i].createdOn <= Earliest(rows, u)[j].createdOn
    ensures forall i, o :: 0 <= i < |Earliest(rows, u)| && o in OfUser(rows, u) && o !in Earliest(rows, u) ==>
              Earliest(rows, u)[i].createdOn <= o.createdOn
  {
    var mine := OfUser(rows, u);
    var n := if |mine| < 2 then |mine| else 2;
    Sorting.TopOfSorted(mine, CreationKey, n);
    var top := Earliest(rows, u);
    assert top == Sorting.SortDesc(mine, CreationKey)[..n];
    forall o | o in top
      ensures o in rows && o.user == u
    {
      assert o in mine;
    }
    forall i, j | 0 <= i < j < |top|
      ensures top[i].createdOn <= top[j].createdOn
    {
      assert CreationKey(top[i]) >= CreationKey(top[j]);
    }
    forall i, o | 0 <= i < |top| && o in mine && o !in top
      ensures top[i].createdOn <= o.createdOn
    {
      assert CreationKey(top[i]) >= CreationKey(o);
    }
  }

  /**
   * `getUsersChallenges`: the user's two earliest-created challenges, earliest first,
   * each marked completed iff it was submitted today.
   */
  function UsersChallenges(rows: seq<Ongoing>, u: UserId, today: int): (r: seq<Annotated>)
    ensures |r| == if |OfUser(rows, u)| < 2 then |OfUser(rows, u)| else 2
    ensures forall i :: 0 <= i < |r| ==> r[i].row in rows && r[i].row.user == u
    ensures forall i :: 0 <= i < |r| ==> (r[i].isCompleted <==> r[i].row.submittedOn == Some(today))
    ensures forall i, j :: 0 <= i < j < |r| ==> r[i].row.createdOn <= r[j].row.createdOn
    ensures forall i, o :: 0 <= i < |r| && o in OfUser(rows, u) && (forall j :: 0 <= j < |r| ==> r[j].row != o)
              ==> r[i].row.createdOn <= o.createdOn
  {
    var top := Earliest(rows, u);
    EarliestCorrect(rows, u);
    var r := Annotate(top, today);
    NotShownNotInTop(top, r);
    r
  }

  function Annotate(top: seq<Ongoing>, today: int): (r: seq<Annotated>)
    ensures |r| == |top|
    ensures forall i :: 0 <= i < |r| ==> r[i].row == top[i] && (r[i].isCompleted <==> top[i].submittedOn == Some(today))
  {
    seq(|top|, i requires 0 <= i < |top| => Annotated(top[i], top[i].submittedOn == Some(today)))
  }

  lemma NotShownNotInTop(top: seq<Ongoing>, r: seq<Annotated>)
    requires |r| == |top| && forall i :: 0 <= i < |r| ==> r[i].row == top[i]
    ensures forall o :: (forall j :: 0 <= j < |r| ==> r[j].row != o) ==> o !in top
  {
  }

  function ObjectivesOf(rows: seq<Objective>, u: UserId): seq<Objective>
  {
    Filter(rows, (o: Objective) => o.user == u)
  }

  function WithoutUser(rows: seq<Objective>, u: UserId): seq<Objective>
  {
    Filter(rows, (o: Objective) => o.user != u)
  }

  /** The newest `last_reset` among a user's objectives. */
  function LatestReset(mine: seq<Objective>): int
    requires mine != []
  {
    Max(seq(|mine|, i requires 0 <= i < |mine| => mine[i].lastReset))
  }

  /** A reset is due when the user has no objectives or the newest reset is older than now minus the interval. */
  predicate ResetDue(mine: seq<Objective>, now: int, interval: int)
  {
    mine == [] || LatestReset(mine) < now - interval
  }

  /** The three objectives a reset creates. */
  function FreshObjectives(u: UserId, now: int): seq<Objective>
  {
    [Objective(u, "Recycle 10 Items", 10, 0, now, false),
     Objective(u, "Turn Off Lights", 5, 0, now, false),
     Objective(u, "Use Refill Station", 1, 0, now, false)]
  }

  /** The rows `createChallenges` keeps: all but the user's challenges created before the cutoff. */
  function Kept(rows: seq<Ongoing>, u: UserId, cutoff: int): seq<Ongoing>
  {
    Filter(rows, (o: Ongoing) => !(o.user == u && o.createdOn < cutoff))
  }

  /** The challenge and objective tables. */
  class ChallengeBoard {
    var ongoing: seq<Ongoing>
    var objectives: seq<Objective>
    /** The next primary key of `ongoingChallenge`. */
    var nextId: nat

    /** Primary keys identify rows and lie below the next key. */
    ghost predicate Valid()
      reads this
    {
      KeysValid(ongoing, nextId)
    }

    constructor ()
      ensures Valid()
      ensures ongoing == [] && objectives == [] && nextId == 0
    {
      ongoing, objectives, nextId := [], [], 0;
    }

    /**
     * `getUsersDailyObjectives`: when a reset is due, the user's objectives are replaced
     * by the three fresh ones; the user's objectives are returned.
     */
    method DailyObjectives(u: UserId, now: int, interval: int) returns (r: seq<Objective>)
      modifies this
      ensures ongoing == old(ongoing) && nextId == old(nextId)
      ensures ResetDue(ObjectivesOf(old(objectives), u), now, interval) ==>
                objectives == WithoutUser(old(objectives), u) + FreshObjectives(u, now)
      ensures !ResetDue(ObjectivesOf(old(objectives), u), now, interval) ==> objectives == old(objectives)
      ensures r == ObjectivesOf(objectives, u)
    {
      var mine := ObjectivesOf(objectives, u);
      if mine == [] || LatestReset(mine) < now - interval {
        objectives := WithoutUser(objectives, u) + FreshObjectives(u, now);
      }
      r := ObjectivesOf(objectives, u);
    }

    /**
     * `createChallenges`: drops the user's challenges created before now minus the interval;
     * if the user then has none, draws up to `num` challenges from the catalogue, each removed
     * from the pool once drawn, and creates one unsubmitted row for each.
     */
    method CreateChallenges(u: UserId, now: int, interval: int, num: nat, catalog: seq<Challenge>)
      requires Valid()
      requires Distinct(catalog)
      modifies this
      ensures Valid()
      ensures objectives == old(objectives)
      ensures var kept := Kept(old(ongoing), u, now - interval);
              |kept| <= |ongoing| && ongoing[..|kept|] == kept &&
              FreshDraw(ongoing[|kept|..], u, now, catalog) &&
              |ongoing| - |kept| == if OfUser(kept, u) != [] then 0 else if num < |catalog| then num else |catalog|
    {
      KeptKeepsKeys(ongoing, u, now - interval, nextId);
      ongoing := Kept(ongoing, u, now - interval);
      ghost var kept := ongoing;
      if OfUser(ongoing, u) == [] {
        Draw(u, now, num, catalog);
      }
      assert ongoing[..|kept|] == kept;
    }

    /** The drawing loop of `createChallenges`: appends one row per drawn challenge. */
    method Draw(u: UserId, now: int, num: nat, catalog: seq<Challenge>)
      requires Valid()
      requires Distinct(catalog)
      modifies this
      ensures Valid()
      ensures objectives == old(objectives)
      ensures |old(ongoing)| <= |ongoing| && ongoing[..|old(ongoing)|] == old(ongoing)
      ensures FreshDraw(ongoing[|old(ongoing)|..], u, now, catalog)
      ensures |ongoing| - |old(ongoing)| == if num < |catalog| then num else |catalog|
    {
      ghost var start := ongoing;
      ghost var added: seq<Ongoing> := [];
      var pool := catalog;
      var i := 0;
      while i < num
        invariant 0 <= i <= num
        invariant objectives == old(objectives)
        invariant ongoing == start + added
        invariant Valid()
        invariant Distinct(pool)
        invariant forall c :: c in pool ==> c in catalog
        invariant |added| + |pool| == |catalog|
        invariant |added| <= i && (|added| < i ==> pool == [])
        invariant FreshDraw(added, u, now, catalog)
        invariant forall k :: 0 <= k < |added| ==> added[k].challenge !in pool
      {
        if pool != [] {
          assert pool[0] in pool;
          var c :| c in pool;
          var row := Ongoing(nextId, c, u, None, None, now);
          DrawStep(added, pool, row, u, now, catalog);
          Create(row);
          pool := RemoveFirst(pool, c);
          added := added + [row];
        }
        i := i + 1;
      }
      assert ongoing[..|start|] == start && ongoing[|start|..] == added;
    }

    /** `ongoingChallenge.objects.create`: the row is stored under the next key. */
    method Create(row: Ongoing)
      requires Valid() && row.id == nextId
      modifies this
      ensures Valid()
      ensures ongoing == old(ongoing) + [row] && nextId == old(nextId) + 1 && objectives == old(objectives)
    {
      AppendKeepsKeys(ongoing, nextId, row);
      ongoing := ongoing + [row];
      nextId := nextId + 1;
    }

    /** The submission step of `completeChallenge`: the row with key `id` is stamped submitted `today`. */
    method Submit(id: nat, today: int)
      requires Valid()
      modifies this
      ensures Valid()
      ensures ongoing == MarkSubmitted(old(ongoing), id, today)
      ensures objectives == old(objectives) && nextId == old(nextId)
    {
      MarkSubmittedKeepsKeys(ongoing, id, today, nextId);
      ongoing := MarkSubmitted(ongoing, id, today);
    }
  }

  /** Primary keys identify rows and lie below `next`. */
  ghost predicate KeysValid(rows: seq<Ongoing>, next: nat)
  {
    (forall a, b :: a in rows && b in rows && a.id == b.id ==> a == b) &&
    (forall a :: a in rows ==> a.id < next)
  }

  /** Rows created by one draw: the user's, from the catalogue, unsubmitted, stamped `now`, no challenge twice. */
  ghost predicate FreshDraw(added: seq<Ongoing>, u: UserId, now: int, catalog: seq<Challenge>)
  {
    (forall k :: 0 <= k < |added| ==>
       added[k].user == u && added[k].challenge in catalog && added[k].submission == None &&
       added[k].submittedOn == None && added[k].createdOn == now) &&
    (forall j, k :: 0 <= j < k < |added| ==> added[j].challenge != added[k].challenge)
  }

  lemma KeptKeepsKeys(rows: seq<Ongoing>, u: UserId, cutoff: int, next: nat)
    requires KeysValid(rows, next)
    ensures KeysValid(Kept(rows, u, cutoff), next)
  {
  }

  /** One turn of the drawing loop keeps the draw fresh and the pool disjoint from what was drawn. */
  lemma DrawStep(added: seq<Ongoing>, pool: seq<Challenge>, row: Ongoing, u: UserId, now: int, catalog: seq<Challenge>)
    requires FreshDraw(added, u, now, catalog) && Distinct(pool)
    requires forall c :: c in pool ==> c in catalog
    requires forall k :: 0 <= k < |added| ==> added[k].challenge !in pool
    requires row.challenge in pool && row.user == u && row.submission == None && row.submittedOn == None && row.createdOn == now
    ensures FreshDraw(added + [row], u, now, catalog)
    ensures Distinct(RemoveFirst(pool, row.challenge)) && |RemoveFirst(pool, row.challenge)| == |pool| - 1
    ensures forall c :: c in RemoveFirst(pool, row.challenge) ==> c in catalog
    ensures forall k :: 0 <= k < |added + [row]| ==> (added + [row])[k].challenge !in RemoveFirst(pool, row.challenge)
  {
    RemoveFirstDistinct(pool, row.challenge);
    var next := added + [row];
    forall k | 0 <= k < |next| ensures next[k].challenge !in RemoveFirst(pool, row.challenge) {
      if k < |added| {
        assert next[k] == added[k];
      }
    }
    forall j, k | 0 <= j < k < |next| ensures next[j].challenge != next[k].challenge {
      assert next[j] == added[j];
      if k < |added| {
        assert next[k] == added[k];
      }
    }
  }

  lemma AppendKeepsKeys(rows: seq<Ongoing>, next: nat, row: Ongoing)
    requires KeysValid(rows, next) && row.id == next
    ensures KeysValid(rows + [row], next + 1)
  {
  }

  /** Objectives just reset at `now` are not due again at `now`. */
  lemma FreshNotDue(u: UserId, now: int, interval: int)
    requires interval >= 0
    ensures !ResetDue(FreshObjectives(u, now), now, interval)
  {
    var f := FreshObjectives(u, now);
    var times := seq(|f|, i requires 0 <= i < |f| => f[i].lastReset);
    assert times == [now, now, now];
  }

  /** After a reset, the user's objectives are exactly the three fresh ones and no other user's change. */
  lemma ResetScopedToUser(rows: seq<Objective>, u: UserId, v: UserId, now: int)
    ensures ObjectivesOf(WithoutUser(rows, u) + FreshObjectives(u, now), u) == FreshObjectives(u, now)
    ensures v != u ==> ObjectivesOf(WithoutUser(rows, u) + FreshObjectives(u, now), v) == ObjectivesOf(rows, v)
  {
    var renewed := FreshObjectives(u, now);
    ObjectivesOfAppend(WithoutUser(rows, u), renewed, u);
    ObjectivesOfAppend(WithoutUser(rows, u), renewed, v);
    OnlyUser(renewed, u);
    NoneOfUser(WithoutUser(rows, u), u);
    assert [] + renewed == renewed;
    if v != u {
      WithoutOtherUser(rows, u, v);
      NoneOfUser(renewed, v);
    }
  }

  lemma {:induction false} ObjectivesOfAppend(a: seq<Objective>, b: seq<Objective>, u: UserId)
    ensures ObjectivesOf(a + b, u) == ObjectivesOf(a, u) + ObjectivesOf(b, u)
  {
    if a == [] {
      assert a + b == b;
    } else {
      assert (a + b)[1..] == a[1..] + b;
      ObjectivesOfAppend(a[1..], b, u);
    }
  }

  lemma {:induction false} OnlyUser(rows: seq<Objective>, u: UserId)
    requires forall o :: o in rows ==> o.user == u
    ensures ObjectivesOf(rows, u) == rows
  {
    if rows != [] {
      OnlyUser(rows[1..], u);
      assert rows == [rows[0]] + rows[1..];
    }
  }

  lemma {:induction false} NoneOfUser(rows: seq<Objective>, u: UserId)
    requires forall o :: o in rows ==> o.user != u
    ensures ObjectivesOf(rows, u) == []
  {
    if rows != [] {
      NoneOfUser(rows[1..], u);
    }
  }

  lemma {:induction false} WithoutOtherUser(rows: seq<Objective>, u: UserId, v: UserId)
    requires u != v
    ensures ObjectivesOf(WithoutUser(rows, u), v) == ObjectivesOf(rows, v)
  {
    if rows != [] {
      var head := if rows[0].user != u then [rows[0]] else [];
      assert WithoutUser(rows, u) == head + WithoutUser(rows[1..], u);
      WithoutOtherUser(rows[1..], u, v);
      ObjectivesOfAppend(head, WithoutUser(rows[1..], u), v);
      assert head == [] || head[1..] == [];
    }
  }

  /** `ongoingChallenge.objects.get(id=id)`: the row with that key, or None where `get` raises. */
  function FindById(rows: seq<Ongoing>, id: nat): (r: Option<Ongoing>)
    ensures r.Some? ==> r.value in rows && r.value.id == id
    ensures r.None? ==> forall o :: o in rows ==> o.id != id
  {
    if rows == [] then None
    else if rows[0].id == id then Some(rows[0])
    else FindById(rows[1..], id)
  }

  /** Setting `submitted_on` to today on the row with key `id` and saving it. */
  function MarkSubmitted(rows: seq<Ongoing>, id: nat, today: int): (r: seq<Ongoing>)
    ensures |r| == |rows|
    ensures forall k :: 0 <= k < |r| && rows[k].id != id ==> r[k] == rows[k]
    ensures forall k :: 0 <= k < |r| && rows[k].id == id ==> r[k] == rows[k].(submittedOn := Some(today))
  {
    seq(|rows|, k requires 0 <= k < |rows| => if rows[k].id == id then rows[k].(submittedOn := Some(today)) else rows[k])
  }

  /** Marking a row submitted keeps the keys valid and is the only change to the rows with that key. */
  lemma MarkSubmittedKeepsKeys(rows: seq<Ongoing>, id: nat, today: int, next: nat)
    requires KeysValid(rows, next)
    ensures KeysValid(MarkSubmitted(rows, id, today), next)
  {
    var r := MarkSubmitted(rows, id, today);
    forall a, b | a in r && b in r && a.id == b.id ensures a == b {
      var i :| 0 <= i < |r| && r[i] == a;
      var j :| 0 <= j < |r| && r[j] == b;
      assert rows[i] in rows && rows[j] in rows;
    }
    forall a | a in r ensures a.id < next {
      var i :| 0 <= i < |r| && r[i] == a;
      assert rows[i] in rows;
    }
  }

  /** Once the challenge `id` is submitted today, the challenge page shows it as completed whenever it shows it. */
  lemma SubmittedShowsCompleted(rows: seq<Ongoing>, u: UserId, id: nat, today: int)
    ensures forall a :: a in UsersChallenges(MarkSubmitted(rows, id, today), u, today) && a.row.id == id ==> a.isCompleted
  {
    var marked := MarkSubmitted(rows, id, today);
    var page := UsersChallenges(marked, u, today);
    forall a | a in page && a.row.id == id ensures a.isCompleted {
      var i :| 0 <= i < |page| && page[i] == a;
      var k :| 0 <= k < |marked| && marked[k] == a.row;
    }
  }

  /** After marking, the lookup by key finds the same row, now submitted today. */
  lemma {:induction false} FindAfterMark(rows: seq<Ongoing>, id: nat, today: int)
    requires FindById(rows, id).Some?
    ensures FindById(MarkSubmitted(rows, id, today), id) == Some(FindById(rows, id).value.(submittedOn := Some(today)))
  {
    if rows[0].id != id {
      assert MarkSubmitted(rows, id, today)[1..] == MarkSubmitted(rows[1..], id, today);
      FindAfterMark(rows[1..], id, today);
    }
  }
}

/**
 * The leaderboard queries of the user controller: the top ten by xp, and a
 * user's rank with the nearest users above and below.
 */
module Leaderboard {
  import opened Common
  import opened Users
  import opened Sorting

  const TOP_LIMIT: nat := 10

  /** `User.count({ where: { xp: { [Op.gt]: xp } } })`. */
  function CountAbove(users: seq<User>, xp: int): (n: nat)
    ensures n <= |users|
    ensures n == 0 <==> forall i :: 0 <= i < |users| ==> users[i].xp <= xp
  {
    if users == [] then 0
    else (if users[0].xp > xp then 1 else 0) + CountAbove(users[1..], xp)
  }

  /** The rank: one more than the number of users with strictly more xp. */
  function Rank(users: seq<User>, u: User): (r: nat)
    ensures 1 <= r <= |users| + 1
    ensures r == 1 <==> forall i :: 0 <= i < |users| ==> users[i].xp <= u.xp
  {
    CountAbove(users, u.xp) + 1
  }

  /** Raising the bar never counts more users above it. */
  lemma {:induction false} CountAboveAntitone(users: seq<User>, lo: int, hi: int)
    requires lo <= hi
    ensures CountAbove(users, hi) <= CountAbove(users, lo)
  {
    if users != [] {
      CountAboveAntitone(users[1..], lo, hi);
    }
  }

  /** A user of the table ranks between 1 and the number of users. */
  lemma {:induction false} RankWithinTable(users: seq<User>, u: User)
    requires u in users
    ensures 1 <= Rank(users, u) <= |users|
  {
    if users[0] != u {
      RankWithinTable(users[1..], u);
    }
  }

  /** Users with equal xp share a rank; strictly more xp means a strictly better rank. */
  lemma {:induction false} MoreXpBetterRank(users: seq<User>, a: User, b: User)
    requires a in users
    ensures a.xp == b.xp ==> Rank(users, a) == Rank(users, b)
    ensures a.xp > b.xp ==> Rank(users, a) < Rank(users, b)
  {
    if a.xp > b.xp {
      if users[0] == a {
        CountAboveAntitone(users[1..], b.xp, a.xp);
      } else {
        MoreXpBetterRank(users[1..], a, b);
      }
    }
  }

  /** The user above: least xp strictly greater than `xp` (`Op.gt`, ordered ASC, first row). */
  function NearestAbove(users: seq<User>, xp: int): (r: Option<User>)
    ensures r.Some? ==> r.value in users && r.value.xp > xp
    ensures r.Some? ==> forall w :: w in users && w.xp > xp ==> r.value.xp <= w.xp
    ensures r.None? <==> forall w :: w in users ==> w.xp <= xp
  {
    if users == [] then None
    else
      var rest := NearestAbove(users[1..], xp);
      assert forall w :: w in users ==> w == users[0] || w in users[1..];
      if users[0].xp <= xp then rest
      else if rest.Some? && rest.value.xp < users[0].xp then rest
      else Some(users[0])
  }

  /** The user below: greatest xp strictly less than `xp` (`Op.lt`, ordered DESC, first row). */
  function NearestBelow(users: seq<User>, xp: int): (r: Option<User>)
    ensures r.Some? ==> r.value in users && r.value.xp < xp
    ensures r.Some? ==> forall w :: w in users && w.xp < xp ==> r.value.xp >= w.xp
    ensures r.None? <==> forall w :: w in users ==> w.xp >= xp
  {
    if users == [] then None
    else
      var rest := NearestBelow(users[1..], xp);
      assert forall w :: w in users ==> w == users[0] || w in users[1..];
      if users[0].xp >= xp then rest
      else if rest.Some? && rest.value.xp > users[0].xp then rest
      else Some(users[0])
  }

  /** Rank 1 exactly when nobody is above; the neighbour above ranks strictly better. */
  lemma NeighbourAboveAndRank(users: seq<User>, u: User)
    ensures Rank(users, u) == 1 <==> NearestAbove(users, u.xp).None?
    ensures NearestAbove(users, u.xp).Some? ==>
      Rank(users, NearestAbove(users, u.xp).value) < Rank(users, u)
  {
    if NearestAbove(users, u.xp).Some? {
      MoreXpBetterRank(users, NearestAbove(users, u.xp).value, u);
    } else {
      assert forall i :: 0 <= i < |users| ==> users[i] in users;
    }
  }

  /**
   * getTopUsersByXP: at most ten users from the table in non-increasing xp
   * order, and no user left out has more xp than one listed.
   */
  function TopUsersByXp(users: seq<User>): (r: seq<User>)
    ensures |r| == if |users| < TOP_LIMIT then |users| else TOP_LIMIT
    ensures forall i, j :: 0 <= i < j < |r| ==> r[i].xp >= r[j].xp
    ensures multiset(r) <= multiset(users)
    ensures forall x, y :: x in multiset(users) - multiset(r) && y in r ==> y.xp >= x.xp
  {
    TopByKey(users, TOP_LIMIT, (u: User) => u.xp)
  }

  datatype LeaderboardError = CurrentUserNotFound {
    function Status(): nat { 404 }
  }

  /** The response of getTopUsersWithCurrentPosition. */
  datatype Standing = Standing(
    topUsers: seq<User>,
    currentUser: User,
    rank: nat,
    above: Option<User>,
    below: Option<User>)

  /** getTopUsersWithCurrentPosition for the authenticated user `currentUserId`. */
  function TopUsersWithCurrentPosition(users: seq<User>, currentUserId: UserId)
    : (r: Result<Standing, LeaderboardError>)
    ensures r.Err? <==> forall i :: 0 <= i < |users| ==> users[i].id != currentUserId
    ensures r.Ok? ==>
      var s := r.value;
      && s.currentUser in users && s.currentUser.id == currentUserId
      && s.topUsers == TopUsersByXp(users)
      && s.rank == Rank(users, s.currentUser)
      && 1 <= s.rank <= |users|
      && s.above == NearestAbove(users, s.currentUser.xp)
      && s.below == NearestBelow(users, s.currentUser.xp)
  {
    match IndexOf(users, currentUserId)
    case None => Err(CurrentUserNotFound)
    case Some(i) =>
      var current := users[i];
      RankWithinTable(users, current);
      Ok(Standing(TopUsersByXp(users), current, CountAbove(users, current.xp) + 1,
                  NearestAbove(users, current.xp), NearestBelow(users, current.xp)))
  }
}

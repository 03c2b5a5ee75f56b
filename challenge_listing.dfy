/**
 * The challenge controller's reads: the validated and unvalidated listings
 * with their optional filters and title order, the `hasVoted` flags, the
 * participants of one challenge, and the three most recent validated
 * challenges. Each takes the rows the database query joins, in table order.
 */
module ChallengeListing {
  import opened Common
  import opened Sorting

  /** A challenge as the listing queries join it: names of its difficulty, types and genres, its voters. */
  datatype Listed = Listed(
    id: ChallengeId,
    title: string,
    statut: bool,
    difficulty: Option<string>,
    types: seq<string>,
    gamegenres: seq<string>,
    voters: seq<UserId>,
    createdAt: int)

  /** The query string of a listing request. */
  datatype ListQuery = ListQuery(
    searchTerm: Option<string>,
    challengeType: Option<string>,
    difficulty: Option<string>,
    gameGenre: Option<string>,
    sortOrder: Option<string>)

  /** The `whereConditions` object: the fixed `statut` condition and the optional ones. */
  datatype Where = Where(
    statut: bool,
    titleContains: Option<string>,
    difficulty: Option<string>,
    typeName: Option<string>,
    genreName: Option<string>)

  predicate OccursAt(t: string, s: string, i: int) {
    0 <= i && i + |t| <= |s| && s[i..i + |t|] == t
  }

  /** `t` occurs in `s` (the `%t%` pattern, without case folding or wildcards in `t`). */
  function IsSubstring(t: string, s: string): (r: bool)
    ensures t == [] ==> r
    ensures r ==> |t| <= |s|
    ensures |t| <= |s| && s[..|t|] == t ==> r
    ensures |t| <= |s| && s[|s| - |t|..] == t ==> r
  {
    assert t == [] ==> OccursAt(t, s, 0);
    assert |t| <= |s| && s[..|t|] == t ==> OccursAt(t, s, 0);
    assert |t| <= |s| && s[|s| - |t|..] == t ==> OccursAt(t, s, |s| - |t|);
    exists i :: 0 <= i <= |s| && OccursAt(t, s, i)
  }

  /** A row satisfies every condition of the where object. */
  predicate Satisfies(w: Where, c: Listed) {
    && c.statut == w.statut
    && (w.titleContains.Some? ==> IsSubstring(w.titleContains.value, c.title))
    && (w.difficulty.Some? ==> c.difficulty == w.difficulty)
    && (w.typeName.Some? ==> w.typeName.value in c.types)
    && (w.genreName.Some? ==> w.genreName.value in c.gamegenres)
  }

  /** What a listing request asks of a row, read straight from the query. */
  predicate MatchesQuery(q: ListQuery, c: Listed) {
    && (Present(q.searchTerm) ==> IsSubstring(q.searchTerm.value, c.title))
    && (Present(q.difficulty) ==> c.difficulty == q.difficulty)
    && (Present(q.challengeType) ==> q.challengeType.value in c.types)
    && (Present(q.gameGenre) ==> q.gameGenre.value in c.gamegenres)
  }

  /**
   * The `whereConditions` of getAll (`statut` true) and of
   * getUnvalidatedChallenges (`statut` false): each optional filter adds its
   * own condition exactly when its parameter is present.
   */
  method BuildWhere(q: ListQuery, statut: bool) returns (w: Where)
    ensures w.statut == statut
    ensures w.titleContains.Some? <==> Present(q.searchTerm)
    ensures w.titleContains.Some? ==> w.titleContains == q.searchTerm
    ensures w.difficulty.Some? <==> Present(q.difficulty)
    ensures w.difficulty.Some? ==> w.difficulty == q.difficulty
    ensures w.typeName.Some? <==> Present(q.challengeType)
    ensures w.typeName.Some? ==> w.typeName == q.challengeType
    ensures w.genreName.Some? <==> Present(q.gameGenre)
    ensures w.genreName.Some? ==> w.genreName == q.gameGenre
    ensures forall c :: Satisfies(w, c) <==> c.statut == statut && MatchesQuery(q, c)
  {
    w := Where(statut, None, None, None, None);
    if Present(q.searchTerm) {
      w := w.(titleContains := q.searchTerm);
    }
    if Present(q.difficulty) {
      w := w.(difficulty := q.difficulty);
    }
    if Present(q.challengeType) {
      w := w.(typeName := q.challengeType);
    }
    if Present(q.gameGenre) {
      w := w.(genreName := q.gameGenre);
    }
  }

  /** `Challenge.findAll({ where })` before ordering: the rows meeting every condition. */
  function Select(rows: seq<Listed>, w: Where): (r: seq<Listed>)
    ensures multiset(r) <= multiset(rows)
    ensures forall c :: c in r <==> c in rows && Satisfies(w, c)
  {
    if rows == [] then []
    else
      assert rows == [rows[0]] + rows[1..];
      (if Satisfies(w, rows[0]) then [rows[0]] else []) + Select(rows[1..], w)
  }

  /** The rows a listing with flag `statut` and query `q` must return, in table order. */
  function Matching(rows: seq<Listed>, statut: bool, q: ListQuery): (r: seq<Listed>)
    ensures forall c :: c in r <==> c in rows && c.statut == statut && MatchesQuery(q, c)
  {
    if rows == [] then []
    else
      assert forall c :: c in rows ==> c == rows[0] || c in rows[1..];
      (if rows[0].statut == statut && MatchesQuery(q, rows[0]) then [rows[0]] else [])
        + Matching(rows[1..], statut, q)
  }

  /** Selecting by a where object that means the query picks exactly the matching rows. */
  lemma {:induction false} SelectIsMatching(rows: seq<Listed>, w: Where, statut: bool, q: ListQuery)
    requires forall c :: Satisfies(w, c) <==> c.statut == statut && MatchesQuery(q, c)
    ensures Select(rows, w) == Matching(rows, statut, q)
  {
    if rows != [] {
      SelectIsMatching(rows[1..], w, statut, q);
    }
  }

  /** Code-point lexicographic order of titles. */
  predicate TitleLe(a: string, b: string) {
    if a == [] then true
    else if b == [] then false
    else if a[0] != b[0] then a[0] < b[0]
    else TitleLe(a[1..], b[1..])
  }

  /** The title order is lexicographic: reflexive, a prefix first, then the first differing character decides. */
  lemma {:induction false} TitleLeLexicographic(a: string, b: string)
    ensures TitleLe(a, a)
    ensures |a| <= |b| && b[..|a|] == a ==> TitleLe(a, b)
    ensures forall k :: 0 <= k < |a| && k < |b| && a[..k] == b[..k] && a[k] != b[k] ==>
      (TitleLe(a, b) <==> a[k] < b[k])
  {
    if a != [] {
      TitleLeLexicographic(a[1..], a[1..]);
      if b != [] {
        TitleLeLexicographic(a[1..], b[1..]);
        forall k | 0 <= k < |a| && k < |b| && a[..k] == b[..k] && a[k] != b[k]
          ensures TitleLe(a, b) <==> a[k] < b[k]
        {
          if k > 0 {
            assert a[0] == a[..k][0] == b[..k][0] == b[0];
            assert a[1..][..k - 1] == a[..k][1..] == b[..k][1..] == b[1..][..k - 1];
            assert a[1..][k - 1] == a[k] && b[1..][k - 1] == b[k];
          }
        }
        if |a| <= |b| && b[..|a|] == a {
          assert a[0] == b[0];
          assert b[1..][..|a[1..]|] == b[..|a|][1..];
        }
      }
    }
  }

  lemma {:induction false} TitleLeTotal(a: string, b: string)
    ensures TitleLe(a, b) || TitleLe(b, a)
  {
    if a != [] && b != [] && a[0] == b[0] {
      TitleLeTotal(a[1..], b[1..]);
    }
  }

  lemma {:induction false} TitleLeTransitive(a: string, b: string, c: string)
    requires TitleLe(a, b) && TitleLe(b, c)
    ensures TitleLe(a, c)
  {
    if a != [] && b != [] && c != [] && a[0] == b[0] && b[0] == c[0] {
      TitleLeTransitive(a[1..], b[1..], c[1..]);
    }
  }

  /** `[['title', 'DESC']]` when `descending`, `[['title', 'ASC']]` otherwise. */
  function TitleOrder(descending: bool): (le: (Listed, Listed) -> bool)
    ensures TotalPreorder(le)
    ensures forall a: Listed, b: Listed :: le(a, b) <==> if descending then TitleLe(b.title, a.title) else TitleLe(a.title, b.title)
  {
    forall a: Listed, b: Listed ensures TitleLe(a.title, b.title) || TitleLe(b.title, a.title) {
      TitleLeTotal(a.title, b.title);
    }
    forall a: Listed, b: Listed, c: Listed | TitleLe(a.title, b.title) && TitleLe(b.title, c.title)
      ensures TitleLe(a.title, c.title)
    {
      TitleLeTransitive(a.title, b.title, c.title);
    }
    if descending then (a: Listed, b: Listed) => TitleLe(b.title, a.title)
    else (a: Listed, b: Listed) => TitleLe(a.title, b.title)
  }

  /** The rows of one listing, filtered by `w` and ordered by title in the requested direction. */
  method FindAllOrdered(rows: seq<Listed>, w: Where, q: ListQuery) returns (r: seq<Listed>)
    requires forall c :: Satisfies(w, c) <==> c.statut == w.statut && MatchesQuery(q, c)
    ensures multiset(r) == multiset(Matching(rows, w.statut, q))
    ensures forall i :: 0 <= i < |r| ==> r[i].statut == w.statut
    ensures q.sortOrder == Some("desc") ==> forall i, j :: 0 <= i < j < |r| ==> TitleLe(r[j].title, r[i].title)
    ensures q.sortOrder != Some("desc") ==> forall i, j :: 0 <= i < j < |r| ==> TitleLe(r[i].title, r[j].title)
  {
    var descending := q.sortOrder == Some("desc");
    var order := TitleOrder(descending);
    SelectIsMatching(rows, w, w.statut, q);
    r := SortBy(Select(rows, w), order);
    assert SortedBy(r, order);
    forall i | 0 <= i < |r| ensures r[i].statut == w.statut {
      assert r[i] in multiset(Select(rows, w));
    }
  }

  /** getAll: the validated challenges matching the query, ordered by title. */
  method GetAll(rows: seq<Listed>, q: ListQuery) returns (r: seq<Listed>)
    ensures forall c :: c in r ==> c.statut
    ensures multiset(r) == multiset(Matching(rows, true, q))
    ensures q.sortOrder == Some("desc") ==> forall i, j :: 0 <= i < j < |r| ==> TitleLe(r[j].title, r[i].title)
    ensures q.sortOrder != Some("desc") ==> forall i, j :: 0 <= i < j < |r| ==> TitleLe(r[i].title, r[j].title)
  {
    var w := BuildWhere(q, true);
    r := FindAllOrdered(rows, w, q);
  }

  /** `challenge.voters.some((voter) => voter.id === Number(userId))`; `None` is a NaN user id. */
  function HasVoted(voters: seq<UserId>, userId: Option<int>): (r: bool)
    ensures r <==> userId.Some? && exists i :: 0 <= i < |voters| && voters[i] == userId.value
  {
    if voters == [] then false
    else if userId.Some? && voters[0] == userId.value then true
    else
      var rest := HasVoted(voters[1..], userId);
      assert rest ==> exists i :: 1 <= i < |voters| && voters[i] == userId.value by {
        if rest {
          var j :| 0 <= j < |voters[1..]| && voters[1..][j] == userId.value;
          assert voters[j + 1] == userId.value;
        }
      }
      assert (exists i :: 0 <= i < |voters| && userId.Some? && voters[i] == userId.value) ==> rest by {
        if exists i :: 0 <= i < |voters| && userId.Some? && voters[i] == userId.value {
          var i :| 0 <= i < |voters| && userId.Some? && voters[i] == userId.value;
          assert i != 0;
          assert voters[1..][i - 1] == userId.value;
        }
      }
      rest
  }

  /** An unvalidated challenge with the requester's `hasVoted` flag. */
  datatype WithHasVoted = WithHasVoted(challenge: Listed, hasVoted: bool)

  /** The `unvalidatedChallenges.map` adding `hasVoted` to each challenge. */
  function WithHasVotedFlags(challenges: seq<Listed>, userId: Option<int>): (r: seq<WithHasVoted>)
    ensures |r| == |challenges|
    ensures forall i :: 0 <= i < |r| ==> r[i].challenge == challenges[i]
    ensures forall i :: 0 <= i < |r| ==>
      (r[i].hasVoted <==> userId.Some? && exists k :: 0 <= k < |challenges[i].voters| && challenges[i].voters[k] == userId.value)
  {
    if challenges == [] then []
    else [WithHasVoted(challenges[0], HasVoted(challenges[0].voters, userId))]
         + WithHasVotedFlags(challenges[1..], userId)
  }

  /**
   * getUnvalidatedChallenges: the unvalidated challenges matching the query,
   * ordered by title, each flagged when the requester is among its voters.
   */
  method GetUnvalidatedChallenges(rows: seq<Listed>, q: ListQuery, userId: Option<int>)
    returns (r: seq<WithHasVoted>)
    ensures forall i :: 0 <= i < |r| ==> !r[i].challenge.statut
    ensures exists listed: seq<Listed> ::
      && multiset(listed) == multiset(Matching(rows, false, q))
      && r == WithHasVotedFlags(listed, userId)
    ensures q.sortOrder == Some("desc") ==>
      forall i, j :: 0 <= i < j < |r| ==> TitleLe(r[j].challenge.title, r[i].challenge.title)
    ensures q.sortOrder != Some("desc") ==>
      forall i, j :: 0 <= i < j < |r| ==> TitleLe(r[i].challenge.title, r[j].challenge.title)
    ensures forall i :: 0 <= i < |r| ==>
      (r[i].hasVoted <==> userId.Some? && exists k :: 0 <= k < |r[i].challenge.voters| && r[i].challenge.voters[k] == userId.value)
  {
    var w := BuildWhere(q, false);
    var unvalidated := FindAllOrdered(rows, w, q);
    r := WithHasVotedFlags(unvalidated, userId);
    assert forall i :: 0 <= i < |r| ==> r[i].challenge == unvalidated[i];
  }

  /** A participation of the challenge, joined with its user and the ids of its voters. */
  datatype ParticipationRow = ParticipationRow(
    challengeId: ChallengeId,
    userId: UserId,
    pseudo: string,
    urlVideo: string,
    description: Option<string>,
    date: int,
    voters: seq<UserId>)

  /** One entry of `participantsWithVotes`. */
  datatype ParticipantView = ParticipantView(
    id: UserId,
    pseudo: string,
    urlVideo: string,
    description: Option<string>,
    date: int,
    hasVoted: bool,
    votedBy: seq<UserId>)

  /**
   * The `participations.map` of getById: `votedBy` lists the voter ids and
   * `hasVoted` says that there is at least one voter, whoever asks.
   */
  function ParticipantViews(parts: seq<ParticipationRow>): (r: seq<ParticipantView>)
    ensures |r| == |parts|
    ensures forall i :: 0 <= i < |r| ==>
      && r[i].id == parts[i].userId && r[i].pseudo == parts[i].pseudo
      && r[i].urlVideo == parts[i].urlVideo && r[i].description == parts[i].description
      && r[i].date == parts[i].date
      && r[i].votedBy == parts[i].voters
      && (r[i].hasVoted <==> |parts[i].voters| > 0)
  {
    if parts == [] then []
    else
      var p := parts[0];
      [ParticipantView(p.userId, p.pseudo, p.urlVideo, p.description, p.date, |p.voters| > 0, p.voters)]
        + ParticipantViews(parts[1..])
  }

  /** `Participate.findAll({ where: { id_challenge: id } })`, in table order. */
  function OfChallenge(parts: seq<ParticipationRow>, id: ChallengeId): (r: seq<ParticipationRow>)
    ensures forall p :: p in r <==> p in parts && p.challengeId == id
    ensures forall p :: multiset(r)[p] == if p.challengeId == id then multiset(parts)[p] else 0
    ensures |r| <= |parts|
  {
    if parts == [] then []
    else
      assert parts == [parts[0]] + parts[1..];
      assert forall p :: p in parts ==> p == parts[0] || p in parts[1..];
      (if parts[0].challengeId == id then [parts[0]] else []) + OfChallenge(parts[1..], id)
  }

  /** Each view of a challenge's participants comes from one of its participations. */
  lemma ViewsComeFromParticipations(parts: seq<ParticipationRow>, id: ChallengeId)
    ensures var views := ParticipantViews(OfChallenge(parts, id));
      forall i :: 0 <= i < |views| ==>
        exists p :: p in parts && p.challengeId == id && views[i].id == p.userId
                    && views[i].votedBy == p.voters && (views[i].hasVoted <==> |p.voters| > 0)
  {
    var mine := OfChallenge(parts, id);
    var views := ParticipantViews(mine);
    forall i | 0 <= i < |views|
      ensures exists p :: p in parts && p.challengeId == id && views[i].id == p.userId
                          && views[i].votedBy == p.voters && (views[i].hasVoted <==> |p.voters| > 0)
    {
      assert mine[i] in mine;
    }
  }

  datatype GetByIdError = ChallengeNotFound {
    function Status(): nat { 404 }
  }

  /** getById: 404 for an unknown id, otherwise the challenge and its participants with their votes. */
  function GetById(challenges: map<ChallengeId, Listed>, parts: seq<ParticipationRow>, id: ChallengeId)
    : (r: Result<(Listed, seq<ParticipantView>), GetByIdError>)
    ensures r.Err? <==> id !in challenges
    ensures r.Ok? ==> r.value.0 == challenges[id] && r.value.1 == ParticipantViews(OfChallenge(parts, id))
    ensures r.Ok? ==> forall i :: 0 <= i < |r.value.1| ==>
      exists p :: p in parts && p.challengeId == id && r.value.1[i].id == p.userId
                  && r.value.1[i].votedBy == p.voters && (r.value.1[i].hasVoted <==> |p.voters| > 0)
  {
    if id !in challenges then Err(ChallengeNotFound)
    else
      ViewsComeFromParticipations(parts, id);
      Ok((challenges[id], ParticipantViews(OfChallenge(parts, id))))
  }

  const RECENT_LIMIT: nat := 3

  /** The rows with `statut` true, in table order. */
  function Validated(rows: seq<Listed>): (r: seq<Listed>)
    ensures multiset(r) <= multiset(rows)
    ensures forall c :: c in r <==> c in rows && c.statut
  {
    Select(rows, Where(true, None, None, None, None))
  }

  /**
   * getRecentValidatedChallenges: at most three validated challenges, newest
   * first, and no validated challenge left out is newer than one listed.
   */
  function RecentValidated(rows: seq<Listed>): (r: seq<Listed>)
    ensures forall c :: c in r ==> c in rows && c.statut
    ensures multiset(r) <= multiset(Validated(rows))
    ensures forall i, j :: 0 <= i < j < |r| ==> r[i].createdAt >= r[j].createdAt
    ensures |r| == if |Validated(rows)| < RECENT_LIMIT then |Validated(rows)| else RECENT_LIMIT
    ensures forall x, y :: x in multiset(Validated(rows)) - multiset(r) && y in r ==> y.createdAt >= x.createdAt
  {
    var r := TopByKey(Validated(rows), RECENT_LIMIT, (c: Listed) => c.createdAt);
    assert forall c :: c in r ==> c in multiset(r);
    r
  }
}

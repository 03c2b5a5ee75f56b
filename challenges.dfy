/**
 * The challenge controller's writes: creation with its guard and defaults,
 * and the patch of an existing challenge. A challenge's `statut` and voters
 * live in the challenge kind's vote table.
 */
module Challenges {
  import opened Common
  import opened Votes

  /** A row of the challenge table with its associations, without `statut`. */
  datatype Challenge = Challenge(
    id: ChallengeId,
    title: string,
    description: string,
    trick: string,
    media: string,
    creator: UserId,
    difficulty: Option<nat>,
    games: set<GameId>,
    types: set<nat>,
    gamegenres: set<nat>,
    createdAt: int)

  /** The ids present in the game, type, genre and difficulty tables. */
  datatype Catalog = Catalog(games: set<GameId>, types: set<nat>, gamegenres: set<nat>, difficulties: set<nat>)

  /** The body of a creation request; association lists carry ids. */
  datatype ChallengeRequest = ChallengeRequest(
    title: Option<string>,
    description: Option<string>,
    trick: Option<string>,
    media: Option<string>,
    types: Option<seq<nat>>,
    gamegenres: Option<seq<nat>>,
    difficulty: Option<nat>,
    creator: Option<int>,
    games: Option<seq<GameId>>)

  datatype ChallengeError =
    | MissingCreator     // 400 before anything is written
    | ChallengeNotFound  // the thrown HttpError of patchChallenge
    | StoreRejected      // a NOT NULL, UNIQUE or foreign-key violation: rolled back, 500

  predicate TitleTaken(rows: map<ChallengeId, Challenge>, title: string) {
    exists id :: id in rows && rows[id].title == title
  }

  predicate CreatorExists(users: set<UserId>, creator: int) {
    creator >= 0 && creator as nat in users
  }

  /**
   * The store accepts the insert: a title that is given and not yet used,
   * an existing creator, and an existing difficulty when one is given.
   */
  predicate Insertable(users: set<UserId>, catalog: Catalog, rows: map<ChallengeId, Challenge>, req: ChallengeRequest)
    requires req.creator.Some?
  {
    && req.title.Some? && !TitleTaken(rows, req.title.value)
    && CreatorExists(users, req.creator.value)
    && (req.difficulty.Some? ==> req.difficulty.value in catalog.difficulties)
  }

  /** createChallenge's outcome before the insert: the creator guard first, then the store's constraints. */
  function CreateChallengeCheck(users: set<UserId>, catalog: Catalog, rows: map<ChallengeId, Challenge>, req: ChallengeRequest)
    : (r: Option<ChallengeError>)
    ensures r == Some(MissingCreator) <==> !PresentId(req.creator)
    ensures r == Some(StoreRejected) <==> PresentId(req.creator) && !Insertable(users, catalog, rows, req)
    ensures r == None ==> req.title.Some? && !TitleTaken(rows, req.title.value) && CreatorExists(users, req.creator.value)
    ensures r != Some(ChallengeNotFound)
  {
    if !PresentId(req.creator) then Some(MissingCreator)
    else if !Insertable(users, catalog, rows, req) then Some(StoreRejected)
    else None
  }

  /** The associated ids of a request that exist in their table; none when no list is sent. */
  function Linked(requested: Option<seq<nat>>, existing: set<nat>): (s: set<nat>)
    ensures s <= existing
    ensures forall x :: x in s <==> requested.Some? && x in requested.value && x in existing
  {
    if requested.Some? then set x | x in requested.value && x in existing else {}
  }

  /** The row `Challenge.create` stores, with empty strings for missing free text. */
  function NewChallenge(id: ChallengeId, req: ChallengeRequest, catalog: Catalog, now: int): (c: Challenge)
    requires req.title.Some? && req.creator.Some? && req.creator.value >= 0
    ensures c.id == id && c.title == req.title.value && c.creator == req.creator.value
    ensures c.description == (if Present(req.description) then req.description.value else "")
    ensures c.trick == (if Present(req.trick) then req.trick.value else "")
    ensures c.media == (if Present(req.media) then req.media.value else "")
    ensures c.difficulty == req.difficulty && c.createdAt == now
    ensures c.games == Linked(req.games, catalog.games) && c.games <= catalog.games
    ensures c.types == Linked(req.types, catalog.types) && c.types <= catalog.types
    ensures c.gamegenres == Linked(req.gamegenres, catalog.gamegenres) && c.gamegenres <= catalog.gamegenres
  {
    Challenge(id, req.title.value, req.description.GetOr(""), req.trick.GetOr(""), req.media.GetOr(""),
              req.creator.value as nat, req.difficulty,
              Linked(req.games, catalog.games), Linked(req.types, catalog.types),
              Linked(req.gamegenres, catalog.gamegenres), now)
  }

  /**
   * The columns a patch request supplies: the whole body goes to
   * `challenge.update`, so the creator (`id_user`) and the difficulty
   * (`id_difficulty`) can be rewritten too.
   */
  datatype ChallengePatch = ChallengePatch(
    title: Option<string>,
    description: Option<string>,
    trick: Option<string>,
    media: Option<string>,
    creator: Option<int>,
    difficulty: Option<nat>,
    statut: Option<bool>)

  /** The store refuses the update: a title another row holds, or a foreign key to no row. */
  predicate PatchRejected(users: set<UserId>, catalog: Catalog, rows: map<ChallengeId, Challenge>,
                          id: ChallengeId, p: ChallengePatch)
  {
    || (p.title.Some? && TitleTakenByOther(rows, id, p.title.value))
    || (p.creator.Some? && !CreatorExists(users, p.creator.value))
    || (p.difficulty.Some? && p.difficulty.value !in catalog.difficulties)
  }

  /** `challenge.update(updates)` on the row: supplied columns replaced, the others kept. */
  function ApplyPatch(c: Challenge, p: ChallengePatch): (d: Challenge)
    requires p.creator.Some? ==> p.creator.value >= 0
    ensures d.id == c.id && d.createdAt == c.createdAt
    ensures d.games == c.games && d.types == c.types && d.gamegenres == c.gamegenres
    ensures d.title == p.title.GetOr(c.title) && d.media == p.media.GetOr(c.media)
    ensures d.description == p.description.GetOr(c.description) && d.trick == p.trick.GetOr(c.trick)
    ensures p.creator.Some? ==> d.creator == p.creator.value
    ensures p.creator.None? ==> d.creator == c.creator
    ensures d.difficulty == if p.difficulty.Some? then p.difficulty else c.difficulty
    ensures p == ChallengePatch(None, None, None, None, None, None, p.statut) ==> d == c
  {
    c.(title := p.title.GetOr(c.title),
       description := p.description.GetOr(c.description),
       trick := p.trick.GetOr(c.trick),
       media := p.media.GetOr(c.media),
       creator := if p.creator.Some? then p.creator.value as nat else c.creator,
       difficulty := if p.difficulty.Some? then p.difficulty else c.difficulty)
  }

  ghost predicate UniqueTitles(rows: map<ChallengeId, Challenge>) {
    forall a, b :: a in rows && b in rows && a != b ==> rows[a].title != rows[b].title
  }

  /** Another row than `id` already has this title. */
  predicate TitleTakenByOther(rows: map<ChallengeId, Challenge>, id: ChallengeId, title: string) {
    exists other :: other in rows && other != id && rows[other].title == title
  }

  /** A patch that passes the UNIQUE check keeps titles unique. */
  lemma PatchKeepsUniqueTitles(rows: map<ChallengeId, Challenge>, id: ChallengeId, p: ChallengePatch)
    requires UniqueTitles(rows) && id in rows
    requires p.creator.Some? ==> p.creator.value >= 0
    requires p.title.Some? ==> !TitleTakenByOther(rows, id, p.title.value)
    ensures UniqueTitles(rows[id := ApplyPatch(rows[id], p)])
  {
    var after := rows[id := ApplyPatch(rows[id], p)];
    forall a, b | a in after && b in after && a != b ensures after[a].title != after[b].title {
      if a == id && p.title.Some? {
        assert b in rows && b != id;
      } else if b == id && p.title.Some? {
        assert a in rows && a != id;
      }
    }
  }

  /** The challenge table, with its auto-incremented key and its vote table. */
  class ChallengeTable {
    var rows: map<ChallengeId, Challenge>
    var nextId: nat
    const votes: VoteTable

    ghost predicate Valid()
      reads this, votes
    {
      && votes.Valid()
      && rows.Keys == votes.statut.Keys
      && (forall id :: id in rows ==> id < nextId && rows[id].id == id)
      && UniqueTitles(rows)
    }

    constructor ()
      ensures Valid() && fresh(votes)
      ensures rows == map[] && votes.statut == map[] && nextId == 1
    {
      rows, nextId := map[], 1;
      votes := new VoteTable();
    }

    /**
     * createChallenge: refuse a request without creator, then insert the row
     * unvalidated with no voters and its existing associations; a store
     * constraint violation rolls the whole insert back.
     */
    method CreateChallenge(users: set<UserId>, catalog: Catalog, req: ChallengeRequest, now: int)
      returns (r: Result<Challenge, ChallengeError>)
      requires Valid()
      modifies this, votes
      ensures Valid()
      ensures CreateChallengeCheck(users, catalog, old(rows), req).Some? ==>
        && r == Err(CreateChallengeCheck(users, catalog, old(rows), req).value)
        && rows == old(rows) && nextId == old(nextId)
        && votes.statut == old(votes.statut) && votes.voters == old(votes.voters)
      ensures CreateChallengeCheck(users, catalog, old(rows), req).None? ==>
        && r == Ok(NewChallenge(old(nextId), req, catalog, now))
        && rows == old(rows)[old(nextId) := r.value]
        && votes.statut == old(votes.statut)[old(nextId) := false]
        && votes.voters == old(votes.voters)[old(nextId) := {}]
        && nextId == old(nextId) + 1
    {
      if !PresentId(req.creator) {
        return Err(MissingCreator);
      }
      if !Insertable(users, catalog, rows, req) {
        return Err(StoreRejected);
      }
      var id := nextId;
      var created := NewChallenge(id, req, catalog, now);
      rows := rows[id := created];
      votes.Register(id, false);
      nextId := nextId + 1;
      r := Ok(created);
    }

    /**
     * patchChallenge: throw for an unknown id, otherwise write the supplied
     * columns; a supplied `statut` is written as is, whatever the vote count.
     * `users` and `catalog` are the ids the foreign keys may point to.
     */
    method PatchChallenge(users: set<UserId>, catalog: Catalog, id: ChallengeId, patch: ChallengePatch)
      returns (r: Result<Challenge, ChallengeError>)
      requires Valid()
      modifies this, votes
      ensures Valid() && nextId == old(nextId) && votes.voters == old(votes.voters)
      ensures id !in old(rows) ==>
        r == Err(ChallengeNotFound) && rows == old(rows) && votes.statut == old(votes.statut)
      ensures id in old(rows) && PatchRejected(users, catalog, old(rows), id, patch) ==>
        r == Err(StoreRejected) && rows == old(rows) && votes.statut == old(votes.statut)
      ensures id in old(rows) && !PatchRejected(users, catalog, old(rows), id, patch) ==>
        && r == Ok(ApplyPatch(old(rows)[id], patch))
        && rows == old(rows)[id := r.value]
        && votes.statut == (if patch.statut.Some? then old(votes.statut)[id := patch.statut.value] else old(votes.statut))
    {
      if id !in rows {
        return Err(ChallengeNotFound);
      }
      if PatchRejected(users, catalog, rows, id, patch) {
        return Err(StoreRejected);
      }
      var updated := ApplyPatch(rows[id], patch);
      PatchKeepsUniqueTitles(rows, id, patch);
      rows := rows[id := updated];
      if patch.statut.Some? {
        votes.SetStatut(id, patch.statut.value);
      }
      r := Ok(updated);
    }
  }
}

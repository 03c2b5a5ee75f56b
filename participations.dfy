/**
 * The participation controller: a user's proof for a challenge, at most one
 * per (user, challenge), created already validated; its `statut` and voters
 * live in the participation kind's vote table.
 */
module Participations {
  import opened Common
  import opened Votes

  /** A row of the participation table, without `statut` (kept by the vote table). */
  datatype Participation = Participation(
    id: ParticipationId,
    userId: UserId,
    challengeId: ChallengeId,
    urlVideo: string,
    description: Option<string>,
    valueXp: int,
    date: int)

  /** The body of a creation request; `now` stands for `new Date()`. */
  datatype CreateRequest = CreateRequest(
    userId: Option<UserId>,
    challengeId: Option<ChallengeId>,
    urlVideo: Option<string>,
    description: Option<string>,
    valueXp: Option<int>)

  datatype CreateError =
    | UserOrChallengeNotFound  // HttpError 404
    | AlreadyParticipating     // HttpError 409
    | StoreRejected            // url_video is NOT NULL: the insert throws, answered 500
  {
    function Status(): nat {
      match this
      case UserOrChallengeNotFound => 404
      case AlreadyParticipating => 409
      case StoreRejected => 500
    }
  }

  /** `Participate.findOne({ where: { id_user, id_challenge } })` finds a row. */
  predicate Participates(rows: map<ParticipationId, Participation>, u: UserId, c: ChallengeId) {
    exists id :: id in rows && rows[id].userId == u && rows[id].challengeId == c
  }

  /** At most one participation per (user, challenge). */
  ghost predicate OnePerPair(rows: map<ParticipationId, Participation>) {
    forall a, b :: a in rows && b in rows && a != b ==>
      rows[a].userId != rows[b].userId || rows[a].challengeId != rows[b].challengeId
  }

  /**
   * createParticipate's refusals in their order: a missing user or challenge,
   * an existing participation for the pair, then the store's NOT NULL check.
   */
  function CreateCheck(users: set<UserId>, challenges: set<ChallengeId>,
                       rows: map<ParticipationId, Participation>, req: CreateRequest)
    : (r: Option<CreateError>)
    ensures r == Some(UserOrChallengeNotFound) <==>
      !(req.userId.Some? && req.userId.value in users && req.challengeId.Some? && req.challengeId.value in challenges)
    ensures r == Some(AlreadyParticipating) <==>
      && req.userId.Some? && req.userId.value in users
      && req.challengeId.Some? && req.challengeId.value in challenges
      && Participates(rows, req.userId.value, req.challengeId.value)
    ensures r == None ==> req.urlVideo.Some? && !Participates(rows, req.userId.value, req.challengeId.value)
    ensures r == Some(StoreRejected) <==> r != Some(UserOrChallengeNotFound) && r != Some(AlreadyParticipating) && req.urlVideo.None?
  {
    if req.userId.None? || req.userId.value !in users || req.challengeId.None? || req.challengeId.value !in challenges then
      Some(UserOrChallengeNotFound)
    else if Participates(rows, req.userId.value, req.challengeId.value) then Some(AlreadyParticipating)
    else if req.urlVideo.None? then Some(StoreRejected)
    else None
  }

  /** The row `Participate.create` stores: `value_xp` 0 when omitted. */
  function NewParticipation(id: ParticipationId, req: CreateRequest, now: int): (p: Participation)
    requires req.userId.Some? && req.challengeId.Some? && req.urlVideo.Some?
    ensures p.id == id && p.userId == req.userId.value && p.challengeId == req.challengeId.value
    ensures p.urlVideo == req.urlVideo.value && p.description == req.description && p.date == now
    ensures req.valueXp.None? ==> p.valueXp == 0
    ensures req.valueXp.Some? ==> p.valueXp == req.valueXp.value
  {
    Participation(id, req.userId.value, req.challengeId.value, req.urlVideo.value,
                  req.description, req.valueXp.GetOr(0), now)
  }

  /** A creation that passes the checks keeps one participation per pair. */
  lemma CreateKeepsOnePerPair(users: set<UserId>, challenges: set<ChallengeId>,
                              rows: map<ParticipationId, Participation>, req: CreateRequest,
                              id: ParticipationId, now: int)
    requires OnePerPair(rows) && id !in rows
    requires CreateCheck(users, challenges, rows, req).None?
    ensures OnePerPair(rows[id := NewParticipation(id, req, now)])
  {
    var after := rows[id := NewParticipation(id, req, now)];
    forall a, b | a in after && b in after && a != b
      ensures after[a].userId != after[b].userId || after[a].challengeId != after[b].challengeId
    {
      if a == id {
        assert b in rows;
      } else if b == id {
        assert a in rows;
      }
    }
  }

  /** Once a participation is created, the same request for the same pair is refused with 409. */
  lemma SecondCreateConflicts(users: set<UserId>, challenges: set<ChallengeId>,
                              rows: map<ParticipationId, Participation>, req: CreateRequest,
                              id: ParticipationId, now: int)
    requires CreateCheck(users, challenges, rows, req).None?
    ensures CreateCheck(users, challenges, rows[id := NewParticipation(id, req, now)], req)
            == Some(AlreadyParticipating)
  {
    var after := rows[id := NewParticipation(id, req, now)];
    assert after[id].userId == req.userId.value && after[id].challengeId == req.challengeId.value;
  }

  datatype PatchError =
    | ParticipationNotFound  // the thrown HttpError
    | EndDateNotDefined      // the ReferenceError thrown by reading `endDate`

  /** The participation table, with its auto-incremented key and its vote table. */
  class ParticipationTable {
    var rows: map<ParticipationId, Participation>
    var nextId: nat
    const votes: VoteTable

    ghost predicate Valid()
      reads this, votes
    {
      && votes.Valid()
      && rows.Keys == votes.statut.Keys
      && (forall id :: id in rows ==> id < nextId && rows[id].id == id)
      && OnePerPair(rows)
    }

    constructor ()
      ensures Valid() && fresh(votes)
      ensures rows == map[] && votes.statut == map[] && nextId == 1
    {
      rows, nextId := map[], 1;
      votes := new VoteTable();
    }

    /**
     * createParticipate: check existence and uniqueness, then insert the row
     * with `statut` true and no voters.
     */
    method CreateParticipate(users: set<UserId>, challenges: set<ChallengeId>, req: CreateRequest, now: int)
      returns (r: Result<Participation, CreateError>)
      requires Valid()
      modifies this, votes
      ensures Valid()
      ensures CreateCheck(users, challenges, old(rows), req).Some? ==>
        && r == Err(CreateCheck(users, challenges, old(rows), req).value)
        && rows == old(rows) && nextId == old(nextId)
        && votes.statut == old(votes.statut) && votes.voters == old(votes.voters)
      ensures CreateCheck(users, challenges, old(rows), req).None? ==>
        && r == Ok(NewParticipation(old(nextId), req, now))
        && rows == old(rows)[old(nextId) := r.value]
        && votes.statut == old(votes.statut)[old(nextId) := true]
        && votes.voters == old(votes.voters)[old(nextId) := {}]
        && nextId == old(nextId) + 1
    {
      if req.userId.None? || req.userId.value !in users || req.challengeId.None? || req.challengeId.value !in challenges {
        return Err(UserOrChallengeNotFound);
      }
      if Participates(rows, req.userId.value, req.challengeId.value) {
        return Err(AlreadyParticipating);
      }
      if req.urlVideo.None? {
        return Err(StoreRejected);
      }
      var id := nextId;
      var created := NewParticipation(id, req, now);
      CreateKeepsOnePerPair(users, challenges, rows, req, id, now);
      rows := rows[id := created];
      votes.Register(id, true);
      nextId := nextId + 1;
      r := Ok(created);
    }

    /**
     * patchParticipate as written: after the lookup, the handler reads the
     * unbound name `endDate` and throws before `save`, so no call persists
     * anything, whatever `status` and `enDate` hold.
     */
    method PatchParticipate(id: ParticipationId, status: Option<bool>, enDate: Option<string>)
      returns (r: Result<(), PatchError>)
      requires Valid()
      ensures id !in rows ==> r == Err(ParticipationNotFound)
      ensures id in rows ==> r == Err(EndDateNotDefined)
      ensures r.Err?
    {
      if id !in rows {
        return Err(ParticipationNotFound);
      }
      // `participate.status = status` only sets a property of the loaded
      // instance (`status` is not a column), dropped when the handler throws.
      return Err(EndDateNotDefined);
    }
  }
}

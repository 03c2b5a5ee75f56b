/**
 * The vote/validation state machine shared by challenges and participations.
 * Each votable entity has a `statut` flag and a set of voters; casting a vote
 * may validate it once the count reaches the threshold, retracting one may
 * de-validate it once the count falls below.
 */
module Votes {
  import opened Common

  /** Votes needed for validation; the same constant for both entity kinds. */
  const VOTE_THRESHOLD: nat := 5

  datatype VoteError =
    | NotFound      // the user or the votable does not exist
    | AlreadyVoted  // addVote by a user already in the voter set
    | NoVote        // removeVote by a user not in the voter set
  {
    function Status(): nat {
      match this
      case NotFound => 404
      case AlreadyVoted => 400
      case NoVote => 400
    }
  }

  /** What a successful handler reports: the recount and the resulting flag. */
  datatype Tally = Tally(voteCount: nat, validated: bool)

  /** One votable entity's share of the store: its flag and its voter set. */
  datatype Ballot = Ballot(statut: bool, voters: set<UserId>)

  /** A handler's answer together with the entity's state afterwards. */
  datatype Outcome = Outcome(result: Result<Tally, VoteError>, after: Ballot)

  /**
   * addVote once both records exist: reject a duplicate voter, otherwise
   * insert, recount, and set the flag when the count reaches the threshold.
   */
  function CastVote(b: Ballot, u: UserId): (o: Outcome)
    ensures u in b.voters ==> o == Outcome(Err(AlreadyVoted), b)
    ensures u !in b.voters ==>
      && o.after.voters == b.voters + {u}
      && o.result == Ok(Tally(|b.voters| + 1, o.after.statut))
      && (o.after.statut <==> b.statut || |o.after.voters| >= VOTE_THRESHOLD)
    ensures b.statut ==> o.after.statut
  {
    if u in b.voters then Outcome(Err(AlreadyVoted), b)
    else
      var voters := b.voters + {u};
      var voteCount := |voters|;
      var statut := if voteCount >= VOTE_THRESHOLD then true else b.statut;
      Outcome(Ok(Tally(voteCount, statut)), Ballot(statut, voters))
  }

  /**
   * removeVote once both records exist: reject a user who has not voted,
   * otherwise remove, recount, and clear the flag only if it was set and the
   * count fell below the threshold.
   */
  function RetractVote(b: Ballot, u: UserId): (o: Outcome)
    ensures u !in b.voters ==> o == Outcome(Err(NoVote), b)
    ensures u in b.voters ==>
      && o.after.voters == b.voters - {u}
      && o.result == Ok(Tally(|b.voters| - 1, o.after.statut))
      && (o.after.statut <==> b.statut && |o.after.voters| >= VOTE_THRESHOLD)
    ensures o.after.statut ==> b.statut
  {
    if u !in b.voters then Outcome(Err(NoVote), b)
    else
      var voters := b.voters - {u};
      var remainingVotes := |voters|;
      if remainingVotes < VOTE_THRESHOLD && b.statut then
        Outcome(Ok(Tally(remainingVotes, false)), Ballot(false, voters))
      else
        Outcome(Ok(Tally(remainingVotes, b.statut)), Ballot(b.statut, voters))
  }

  /** One vote request on an existing entity by an existing user. */
  datatype VoteRequest = Add(voter: UserId) | Remove(voter: UserId)

  function Apply(b: Ballot, req: VoteRequest): Outcome {
    match req
    case Add(u) => CastVote(b, u)
    case Remove(u) => RetractVote(b, u)
  }

  /** The entity's state after a sequence of requests, each one atomic. */
  function Run(b: Ballot, reqs: seq<VoteRequest>): Ballot
    decreases |reqs|
  {
    if reqs == [] then b else Run(Apply(b, reqs[0]).after, reqs[1..])
  }

  /** The flag agrees with the count, as for an entity created unvalidated. */
  predicate Consistent(b: Ballot) {
    b.statut <==> |b.voters| >= VOTE_THRESHOLD
  }

  /** Enough votes imply the flag; the flag may be set with fewer (seeding, creation, patch). */
  predicate Settled(b: Ballot) {
    |b.voters| >= VOTE_THRESHOLD ==> b.statut
  }

  /** A second vote by the same user is refused, so one user adds exactly one vote. */
  lemma DuplicateVoteRejected(b: Ballot, u: UserId)
    requires u !in b.voters
    ensures CastVote(b, u).result == Ok(Tally(|b.voters| + 1, CastVote(b, u).after.statut))
    ensures CastVote(CastVote(b, u).after, u) == Outcome(Err(AlreadyVoted), CastVote(b, u).after)
    ensures |CastVote(CastVote(b, u).after, u).after.voters| == |b.voters| + 1
  {
  }

  /** With four distinct voters, a fifth validates; with three, a fourth does not. */
  lemma ThresholdCrossing(b: Ballot, u: UserId)
    requires !b.statut && u !in b.voters
    ensures |b.voters| == VOTE_THRESHOLD - 1 ==> CastVote(b, u).result == Ok(Tally(VOTE_THRESHOLD, true))
    ensures |b.voters| < VOTE_THRESHOLD - 1 ==> CastVote(b, u).result.value.validated == false
  {
  }

  /** Validation is reversible: retracting from exactly five voters de-validates, voting again restores. */
  lemma Reversibility(b: Ballot, u: UserId)
    requires b.statut && |b.voters| == VOTE_THRESHOLD && u in b.voters
    ensures RetractVote(b, u).result == Ok(Tally(VOTE_THRESHOLD - 1, false))
    ensures CastVote(RetractVote(b, u).after, u) == Outcome(Ok(Tally(VOTE_THRESHOLD, true)), b)
  {
    assert b.voters - {u} + {u} == b.voters;
  }

  /** The first retraction on an entity validated with fewer than five voters clears its flag. */
  lemma UndervotedValidationLostOnRetraction(b: Ballot, u: UserId)
    requires b.statut && |b.voters| <= VOTE_THRESHOLD && u in b.voters
    ensures RetractVote(b, u).result == Ok(Tally(|b.voters| - 1, false))
    ensures Consistent(RetractVote(b, u).after)
  {
  }

  /** Each request keeps a consistent entity consistent. */
  lemma ApplyKeepsConsistent(b: Ballot, req: VoteRequest)
    requires Consistent(b)
    ensures Consistent(Apply(b, req).after)
  {
  }

  /** An entity whose flag agrees with its count keeps it so under any requests. */
  lemma {:induction false} RunKeepsConsistent(b: Ballot, reqs: seq<VoteRequest>)
    requires Consistent(b)
    ensures Consistent(Run(b, reqs))
    decreases |reqs|
  {
    if reqs != [] {
      ApplyKeepsConsistent(b, reqs[0]);
      RunKeepsConsistent(Apply(b, reqs[0]).after, reqs[1..]);
    }
  }

  /** Enough votes always imply the flag, whatever the starting flag. */
  lemma {:induction false} RunKeepsSettled(b: Ballot, reqs: seq<VoteRequest>)
    requires Settled(b)
    ensures Settled(Run(b, reqs))
    decreases |reqs|
  {
    if reqs != [] {
      var next := Apply(b, reqs[0]).after;
      assert Settled(next);
      RunKeepsSettled(next, reqs[1..]);
    }
  }

  /** Votes alone never clear the flag: a participation created validated stays so. */
  lemma {:induction false} AddsNeverClear(b: Ballot, reqs: seq<VoteRequest>)
    requires b.statut
    requires forall i :: 0 <= i < |reqs| ==> reqs[i].Add?
    ensures Run(b, reqs).statut
    decreases |reqs|
  {
    if reqs != [] {
      AddsNeverClear(Apply(b, reqs[0]).after, reqs[1..]);
    }
  }

  /** Retractions alone never set the flag. */
  lemma {:induction false} RemovesNeverValidate(b: Ballot, reqs: seq<VoteRequest>)
    requires !b.statut
    requires forall i :: 0 <= i < |reqs| ==> reqs[i].Remove?
    ensures !Run(b, reqs).statut
    decreases |reqs|
  {
    if reqs != [] {
      RemovesNeverValidate(Apply(b, reqs[0]).after, reqs[1..]);
    }
  }

  /**
   * Four voters leave an entity unvalidated, a fifth validates it, and the
   * first voter's retraction de-validates it again.
   */
  lemma FiveVotesThenRetraction(a: UserId, b: UserId, c: UserId, d: UserId, e: UserId)
    requires |{a, b, c, d, e}| == 5
    ensures var s0 := Ballot(false, {});
            var s4 := Run(s0, [Add(a), Add(b), Add(c), Add(d)]);
            && s4 == Ballot(false, {a, b, c, d})
            && CastVote(s4, e).result == Ok(Tally(5, true))
            && RetractVote(CastVote(s4, e).after, a).result == Ok(Tally(4, false))
  {
    var s0 := Ballot(false, {});
    var reqs := [Add(a), Add(b), Add(c), Add(d)];
    assert {a, b, c, d} + {e} == {a, b, c, d, e};
    assert |{a, b, c, d}| == 4;
    assert |{a, b, c}| == 3;
    assert |{a, b}| == 2;
    var s1 := Apply(s0, reqs[0]).after;
    assert s1 == Ballot(false, {a});
    var s2 := Apply(s1, reqs[1]).after;
    assert s2 == Ballot(false, {a, b});
    var s3 := Apply(s2, reqs[2]).after;
    assert s3 == Ballot(false, {a, b, c});
    var s4 := Apply(s3, reqs[3]).after;
    assert s4 == Ballot(false, {a, b, c, d});
    assert Run(s0, reqs) == Run(s1, reqs[1..]) == Run(s2, reqs[2..]) == Run(s3, reqs[3..]) == s4;
  }

  /**
   * The voter join table and the `statut` column of one votable kind.
   * Challenges and participations each own one, and their vote handlers are
   * the two methods below.
   */
  class VoteTable {
    var statut: map<nat, bool>
    var voters: map<nat, set<UserId>>

    ghost predicate Valid()
      reads this
    {
      statut.Keys == voters.Keys
    }

    function BallotOf(id: nat): (b: Ballot)
      reads this
      requires Valid() && id in statut
      ensures b.statut == statut[id] && b.voters == voters[id]
    {
      Ballot(statut[id], voters[id])
    }

    constructor ()
      ensures Valid() && statut == map[] && voters == map[]
    {
      statut, voters := map[], map[];
    }

    /** A new entity with no voters and the given initial flag. */
    method Register(id: nat, initial: bool)
      requires Valid() && id !in statut
      modifies this
      ensures Valid()
      ensures statut == old(statut)[id := initial] && voters == old(voters)[id := {}]
    {
      statut := statut[id := initial];
      voters := voters[id := {}];
    }

    /** A direct write of the flag, as a patch of the record does. */
    method SetStatut(id: nat, value: bool)
      requires Valid() && id in statut
      modifies this
      ensures Valid()
      ensures statut == old(statut)[id := value] && voters == old(voters)
    {
      statut := statut[id := value];
    }

    /** voteController's addVote, for the kind this table holds. */
    method AddVote(users: set<UserId>, userId: UserId, id: nat) returns (r: Result<Tally, VoteError>)
      requires Valid()
      modifies this
      ensures Valid()
      ensures userId !in users || id !in old(statut) ==>
        r == Err(NotFound) && statut == old(statut) && voters == old(voters)
      ensures userId in users && id in old(statut) ==>
        var o := CastVote(old(BallotOf(id)), userId);
        && r == o.result
        && statut == old(statut)[id := o.after.statut]
        && voters == old(voters)[id := o.after.voters]
    {
      if userId !in users || id !in statut {
        return Err(NotFound);
      }
      if userId in voters[id] {
        return Err(AlreadyVoted);
      }
      voters := voters[id := voters[id] + {userId}];
      var voteCount := |voters[id]|;
      if voteCount >= VOTE_THRESHOLD {
        statut := statut[id := true];
      }
      r := Ok(Tally(voteCount, statut[id]));
    }

    /** voteController's removeVote, for the kind this table holds. */
    method RemoveVote(users: set<UserId>, userId: UserId, id: nat) returns (r: Result<Tally, VoteError>)
      requires Valid()
      modifies this
      ensures Valid()
      ensures userId !in users || id !in old(statut) ==>
        r == Err(NotFound) && statut == old(statut) && voters == old(voters)
      ensures userId in users && id in old(statut) ==>
        var o := RetractVote(old(BallotOf(id)), userId);
        && r == o.result
        && statut == old(statut)[id := o.after.statut]
        && voters == old(voters)[id := o.after.voters]
    {
      if userId !in users || id !in statut {
        return Err(NotFound);
      }
      if userId !in voters[id] {
        return Err(NoVote);
      }
      var wasValidated := statut[id];
      voters := voters[id := voters[id] - {userId}];
      var remainingVotes := |voters[id]|;
      if remainingVotes < VOTE_THRESHOLD && wasValidated {
        statut := statut[id := false];
      }
      r := Ok(Tally(remainingVotes, statut[id]));
    }
  }
}

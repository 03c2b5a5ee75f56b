# GamerChallenge back end: votes, validation and the rules around them

This project models the core of the GamerChallenge REST back end in Dafny and
proves properties of the model. Users create gaming challenges, post
participations (a video proving they completed a challenge), and vote on
both. The heart of the system is the vote/validation state machine of
`voteController.js`. Each challenge and each participation has a voter set and
a boolean `statut`. A vote that brings the count to at least five sets
`statut`. A retraction that leaves fewer than five clears it, but only if it
was set. The smaller rules around that machine are modelled too:

- `votes.dfy` (module `Votes`): the machine as two pure step functions
  (`CastVote`, `RetractVote`) over a `Ballot` (flag and voter set). The class
  `VoteTable` keeps the `statut` column and the voter join table of one
  votable kind. Its methods `AddVote` and `RemoveVote` are the handlers, and
  their contracts tie the new state to the step functions. Challenges and
  participations each own a `VoteTable`, so the threshold and the
  transitions are the same for both kinds by construction.
- `users.dfy` (module `Users`): `validatePassword`, the order of the checks in
  `createUser`, and the change set that `updateUser` builds and writes, with
  the class `UserTable` holding the user rows.
- `leaderboard.dfy` (module `Leaderboard`): rank, the nearest users above and
  below, and the top ten by xp.
- `participations.dfy` (module `Participations`): `createParticipate` with
  its one-participation-per-(user, challenge) rule, and `patchParticipate` as
  written.
- `challenges.dfy` (module `Challenges`): `createChallenge` with its guard and
  defaults, and `patchChallenge`.
- `challenge_listing.dfy` (module `ChallengeListing`): the where object and
  title order of the two listings, the `hasVoted` flags, the participant views
  of `getById`, and the three most recent validated challenges.
- `sorting.dfy` (module `Sorting`): the `ORDER BY … LIMIT k` the queries ask
  the database for, as a generic insertion sort and a top-k selection.
- `common.dfy` (module `Common`): `Option`, `Result`, the id types, and
  JavaScript truthiness of optional request fields.

`statut` is not a function of the vote count. A participation is created with
`statut` true and no voters (`participateController.js:93`). The seed script
inserts validated challenges without voters. `patchChallenge` writes any
supplied `statut`. So the model lets `statut` be true with fewer than five
voters, and the first retraction on such an entity clears it
(`Votes.UndervotedValidationLostOnRetraction`). What holds under votes alone
is that five or more voters imply the flag (`Votes.RunKeepsSettled`). A flag
that agrees with the count keeps agreeing (`Votes.RunKeepsConsistent`).

The model follows the code in four places where a reader might expect
otherwise:

- not every votable starts unvalidated: participations start validated;
- a duplicate vote is answered 400, not 409;
- in `getById`, a participant's `hasVoted` says whether the participation has
  any voter at all, not whether the requester voted
  (`challengeController.js:114`);
- `patchParticipate` reads the unbound name `endDate` (the body binds
  `enDate`), so every call on an existing participation throws before `save`
  and nothing is persisted (`participateController.js:125-142`).

Calls the model cannot see are parameters: the bcrypt comparison is a
function `matches`, the bcrypt hash of a new password is an input string,
`new Date()` is an input `now`, and the ids present in the user, game, type
and genre tables are input sets. Each database query becomes the filter,
count or selection it expresses over in-memory rows.

## Model

| member | source | states |
|---|---|---|
| Votes.CastVote | app/controllers/voteController.js:21-43 | A duplicate voter is refused with the entity unchanged. Otherwise exactly that voter is added, the reported count is the old count plus one, and the flag afterwards is set iff it was set or the count reached five. addVote never clears the flag. |
| Votes.RetractVote | app/controllers/voteController.js:60-84 | A user who has not voted is refused with the entity unchanged. Otherwise exactly that voter is removed, the count is the old count minus one, and the flag afterwards is set iff it was set and at least five voters remain. removeVote never sets the flag. |
| Votes.DuplicateVoteRejected | app/controllers/voteController.js:21-33 | After a first vote by a user, a second vote by the same user is refused and leaves the count at the old count plus one. |
| Votes.ThresholdCrossing | app/controllers/voteController.js:35-43 | On an unvalidated entity, the fifth distinct voter validates it with count 5, and a vote that leaves fewer than five keeps it unvalidated. |
| Votes.Reversibility | app/controllers/voteController.js:68-84 | Retracting from a validated entity with exactly five voters de-validates it with count 4. The same user voting again restores exactly the former state. |
| Votes.UndervotedValidationLostOnRetraction | app/controllers/voteController.js:74-84 | On an entity validated with at most five voters, the first retraction clears the flag, after which flag and count agree. |
| Votes.ApplyKeepsConsistent | app/controllers/voteController.js:29-84 | One add or remove request keeps "flag set iff at least five voters" true. |
| Votes.RunKeepsConsistent | app/controllers/voteController.js:29-84 | Any sequence of add and remove requests on an entity whose flag agrees with its count keeps them in agreement. |
| Votes.RunKeepsSettled | app/controllers/voteController.js:29-84 | Under any sequence of requests, five or more voters always imply the flag, whatever the flag started as. |
| Votes.AddsNeverClear | app/controllers/voteController.js:115-129 | A validated entity, such as a newly created participation, stays validated under any sequence of added votes. |
| Votes.RemovesNeverValidate | app/controllers/voteController.js:155-171 | An unvalidated entity stays unvalidated under any sequence of retractions. |
| Votes.FiveVotesThenRetraction | app/controllers/voteController.js:7-85 | Four distinct voters leave a new challenge unvalidated. The fifth validates it with count 5. The first voter's retraction de-validates it with count 4. |
| Votes.VoteTable.AddVote | app/controllers/voteController.js:7-44 | A missing user or entity answers not-found and changes nothing. Otherwise the answer and the new flag and voter set of that entity are those of `CastVote`, and no other entity changes. The participation handler (lines 90-130) runs the same steps on the participation table. |
| Votes.VoteTable.RemoveVote | app/controllers/voteController.js:47-85 | A missing user or entity answers not-found and changes nothing. Otherwise the answer and the new flag and voter set of that entity are those of `RetractVote`, and no other entity changes. The participation handler (lines 133-172) runs the same steps. |
| Users.Utf16Length | app/controllers/userController.js:11 | JavaScript's `length`: between the number of characters and twice that number. |
| Users.HasSpecialChar | app/controllers/userController.js:9 | True iff some character of the password is one of `!@#$%^&*(),.?":{}\|<>`. |
| Users.ValidatePassword | app/controllers/userController.js:7-19 | No error iff the password is at least eight units long and holds a special character. A short password always gets the length error. The special-character error comes iff the password is long enough and holds no special character. |
| Users.CreateUserCheck | app/controllers/userController.js:125-148 | The first failing check wins, in order: a missing pseudo, e-mail or password (400), a weak password (400, with its reason), an e-mail in use (409), a pseudo in use (409). Each error holds iff its condition holds and all earlier checks pass. |
| Users.UserTable.CreateUser | app/controllers/userController.js:122-170 | A refused request changes nothing and answers the check's error. An accepted one appends a row with the next id, the hashed password, xp 0, no description, image or favourites, and keeps ids, e-mails and pseudos unique. |
| Users.ChangeSet | app/controllers/userController.js:193-250 | The update is accepted iff the pseudo does not clash, the image URL is valid and the password change (if asked) has a correct current password and a valid new one. The first failing check wins, in the source's order: pseudo clash (409), bad image URL (400), missing current password (400), wrong current password (401), weak new password (400, with its reason); each error holds iff its condition holds and all earlier checks pass. On success, each field is in the change set iff it was supplied and differs from the stored value, and the password is there iff a new password was supplied, as its hash. |
| Users.ApplyChanges | app/controllers/userController.js:252-254 | Each field in the change set is written to the row and each field not in it keeps its stored value. Id, e-mail, xp and favourites are kept, and an empty change set changes nothing. |
| Users.WithFavorites | app/controllers/userController.js:265-289 | When a list is sent, the favourites become the requested ids that exist in the game table. When none is sent, they are kept. No other field changes. |
| Users.NothingSuppliedNothingChanged | app/controllers/userController.js:193-250 | A request supplying nothing different and no new password yields an empty change set and leaves the profile as it was. |
| Users.UpdateKeepsUnique | app/controllers/userController.js:196-205 | A profile write that keeps id and e-mail, and whose pseudo is unchanged or unused, keeps ids, e-mails and pseudos unique. |
| Users.CreateKeepsUnique | app/controllers/userController.js:138-158 | Appending a user with a fresh id, an unused e-mail and an unused pseudo keeps them unique. |
| Users.UserTable.UpdateUser | app/controllers/userController.js:173-289 | An unknown user answers not-found and changes nothing. A refused change set changes nothing and answers its error. Otherwise only that user's row changes, to the stored row with the change set written and the favourites replaced. |
| Leaderboard.CountAbove | app/controllers/userController.js:96-99 | The number of users with strictly more xp: at most the table size, and zero iff nobody has more. |
| Leaderboard.CountAboveAntitone | app/controllers/userController.js:96-99 | A higher xp never has more users above it. |
| Leaderboard.Rank | app/controllers/userController.js:96-99 | `currentUserRank`: one more than the number of users with strictly more xp, so at least 1 and at most one more than the table size, and 1 iff nobody has more xp. |
| Leaderboard.RankWithinTable | app/controllers/userController.js:96-99 | A user of the table ranks between 1 and the number of users. |
| Leaderboard.MoreXpBetterRank | app/controllers/userController.js:96-99 | Users with equal xp share a rank, and strictly more xp gives a strictly better rank. |
| Leaderboard.NearestAbove | app/controllers/userController.js:101-106 | The neighbour above is a user with xp strictly greater than the given xp, with the least such xp. It is absent iff nobody has more xp. |
| Leaderboard.NearestBelow | app/controllers/userController.js:107-111 | The neighbour below is a user with xp strictly less than the given xp, with the greatest such xp. It is absent iff nobody has less xp. |
| Leaderboard.NeighbourAboveAndRank | app/controllers/userController.js:96-117 | Rank 1 iff there is no neighbour above, and the neighbour above ranks strictly better. |
| Leaderboard.TopUsersByXp | app/controllers/userController.js:63-73 | Ten users, or all users if there are fewer, drawn from the table in non-increasing xp order. No user left out has more xp than a listed one. |
| Leaderboard.TopUsersWithCurrentPosition | app/controllers/userController.js:76-119 | 404 iff the current user is not in the table. Otherwise the answer holds that user, the top list, its rank (between 1 and the table size) and its two neighbours. |
| Participations.CreateCheck | app/controllers/participateController.js:61-95 | 404 iff the user or the challenge is missing. 409 iff both exist and the pair already has a participation. A missing video URL is refused by the store. Acceptance implies no participation for the pair. |
| Participations.NewParticipation | app/controllers/participateController.js:62-95 | The new row has the given id, the requested user, challenge, video URL and description, the creation time as its date, and `value_xp` 0 when omitted, else the requested value. |
| Participations.CreateKeepsOnePerPair | app/controllers/participateController.js:75-95 | An accepted creation keeps at most one participation per (user, challenge). |
| Participations.SecondCreateConflicts | app/controllers/participateController.js:75-84 | Once a participation is created, the same request for the same pair is refused with 409. |
| Participations.ParticipationTable.CreateParticipate | app/controllers/participateController.js:61-120 | A refused request changes nothing and answers the check's error. An accepted one inserts the row under the next id, registers it validated with no voters, and keeps one participation per pair. |
| Participations.ParticipationTable.PatchParticipate | app/controllers/participateController.js:123-142 | An unknown id answers not-found. Any other call fails on the unbound `endDate`. No call changes anything. |
| Challenges.CreateChallengeCheck | app/controllers/challengeController.js:167-183 | 400 iff the creator is missing or 0. When the creator is given, the store refuses iff the title is missing or taken, the creator does not exist, or the difficulty does not exist. Acceptance implies a fresh title and an existing creator. |
| Challenges.Linked | app/controllers/challengeController.js:185-210 | The linked games, types or genres are exactly the requested ids that exist in their table, and none when no list is sent. |
| Challenges.NewChallenge | app/controllers/challengeController.js:173-210 | The new row has the requested title, creator and difficulty, and the creation time. A missing or empty description, trick or media becomes the empty string. The linked games, types and genres are exactly the requested ids that exist in their table. |
| Challenges.ApplyPatch | app/controllers/challengeController.js:239-248 | Every supplied column (title, description, trick, media, creator, difficulty) replaces the stored one and every other is kept. Id, creation date and the linked games, types and genres are kept. A patch with no column changes nothing. |
| Challenges.PatchKeepsUniqueTitles | app/controllers/challengeController.js:237-252 | A patch whose title no other challenge holds keeps titles unique. |
| Challenges.ChallengeTable.CreateChallenge | app/controllers/challengeController.js:150-234 | A refused request changes nothing. An accepted one inserts the row under the next id and registers it unvalidated with no voters. |
| Challenges.ChallengeTable.PatchChallenge | app/controllers/challengeController.js:237-252 | An unknown id throws before any change. A title held by another challenge, or a creator or difficulty that does not exist, is refused by the store with nothing changed. Otherwise the row is patched, and a supplied `statut` is written as is, whatever the vote count. |
| ChallengeListing.IsSubstring | app/controllers/challengeController.js:24-26 | The title filter `%term%`: an empty term matches every title, a term longer than the title never matches, and a term that starts or ends the title matches. |
| ChallengeListing.BuildWhere | app/controllers/challengeController.js:303-328 | The where object restricts `statut` to the given flag. Each optional filter adds exactly its own condition when its parameter is present and none when absent. A row satisfies it iff it has that flag and matches the query. getAll builds the same object with `statut` true (lines 23-35). |
| ChallengeListing.Select | app/controllers/challengeController.js:40-57 | The rows found are a sub-multiset of the table, holding exactly the rows that satisfy the where object. |
| ChallengeListing.SelectIsMatching | app/controllers/challengeController.js:40-57 | Selecting by a where object that means the query yields exactly the rows matching the query, in table order. |
| ChallengeListing.TitleLeLexicographic | app/controllers/challengeController.js:37-38 | The title order of `ORDER BY title` is lexicographic: every title precedes itself, a prefix precedes the longer title, and otherwise the first differing character decides. |
| ChallengeListing.TitleLeTotal | app/controllers/challengeController.js:37-38 | Any two titles are comparable. |
| ChallengeListing.TitleLeTransitive | app/controllers/challengeController.js:37-38 | The title order is transitive. |
| ChallengeListing.TitleOrder | app/controllers/challengeController.js:37-38 | The order is title DESC when descending, title ASC otherwise, and it is a total preorder. |
| ChallengeListing.FindAllOrdered | app/controllers/challengeController.js:37-57 | The result is a permutation of the matching rows, all with the where object's `statut`, by title DESC iff `sortOrder` is `desc`, otherwise ASC. |
| ChallengeListing.GetAll | app/controllers/challengeController.js:17-60 | Only validated challenges. The result is a permutation of the validated rows matching the query, ordered by title DESC iff `sortOrder` is `desc`. |
| ChallengeListing.HasVoted | app/controllers/challengeController.js:356 | True iff `Number(userId)` is a number equal to some voter id. |
| ChallengeListing.WithHasVotedFlags | app/controllers/challengeController.js:355-358 | Each challenge is kept in place and flagged iff the requester is among its voters. |
| ChallengeListing.GetUnvalidatedChallenges | app/controllers/challengeController.js:303-365 | Only unvalidated challenges: a permutation of the unvalidated rows matching the query, ordered by title DESC iff `sortOrder` is `desc`. Each is flagged iff the requester is among its voters. |
| ChallengeListing.ParticipantViews | app/controllers/challengeController.js:111-125 | One entry per participation, with the participant's id, pseudo, video, description and date. `votedBy` is the list of voter ids, and `hasVoted` is true iff there is at least one voter. |
| ChallengeListing.OfChallenge | app/controllers/challengeController.js:96-109 | Exactly the participations of the given challenge, each as many times as it occurs in the table. |
| ChallengeListing.ViewsComeFromParticipations | app/controllers/challengeController.js:111-125 | Every participant view of a challenge comes from a participation of that challenge and carries its voters. |
| ChallengeListing.GetById | app/controllers/challengeController.js:64-140 | 404 iff the id is unknown. Otherwise the challenge and the views of its participations, one per participation in table order, each carrying that participation's voters. |
| ChallengeListing.Validated | app/controllers/challengeController.js:257 | Exactly the rows with `statut` true. |
| ChallengeListing.RecentValidated | app/controllers/challengeController.js:255-276 | Three validated challenges, or all of them if there are fewer, drawn from the validated rows without repeats, newest `createdAt` first. No validated challenge left out is newer than a listed one. |
| Sorting.SortBy | app/controllers/challengeController.js:37-57 | The `ORDER BY` of a query: a permutation of the rows, sorted by the given total preorder. |
| Sorting.TopK | app/controllers/userController.js:64-70 | `ORDER BY … LIMIT k`: k rows, or all if there are fewer, sorted, drawn from the rows, and none left out before a listed one. |
| Sorting.TopByKey | app/controllers/challengeController.js:256-259 | `ORDER BY key DESC LIMIT k` on an integer key: the same guarantees with the key in non-increasing order. |

## Left out

- Seeding and migrations (the RAWG API fetch, table reset): only the state they reach is modelled, which is validated challenges without voters.
- The Sequelize schema and associations: relations are read as sets of ids. Column length limits (`STRING(64)`, `STRING(150)`) are not modelled.
- JWT authentication and bcrypt: the comparison is a parameter and the hash an input string.
- Response messages, logging and the `withTryCatch` / error-handler plumbing. The swapped `HttpError(message, status)` calls of `patchChallenge` and `patchParticipate` are modelled only as "throws".
- Store failures answered 500 are not modelled, except the ones a request can cause by itself: a missing `url_video`, and a missing or duplicate title, unknown creator or unknown difficulty in `createChallenge`, whose transaction rolls back, and a title held by another challenge or an unknown creator or difficulty in `patchChallenge`.
- `getTopGamesByChallenges`: a raw SQL aggregate with no controller logic.
- The category controller and the plain `getAll` / `getById` queries of users and participations: queries with no rule to state.
- Concurrency: each request is one atomic step, so the race between recount and flag write is not modelled.
- ChallengeListing.IsSubstring: Postgres `ILIKE` folds case and treats `%` and `_` in the search term as wildcards. The model matches the term as a case-sensitive substring.
- Challenges.ApplyPatch: an explicit `null` in a patch (which would clear `description` or `trick`, clear the difficulty, or violate NOT NULL on `title` or `media`) and body keys that are not columns are not modelled; a supplied column is a present value.
- ChallengeListing.TitleLe: titles are compared by code point, not by the database collation.
- ChallengeListing.GetAll: under a type or genre filter, the database puts the `$types.name$` / `$gamegenres.name$` condition on the outer joins, so each returned challenge carries only its matching type or genre; the model returns the row with all its types and genres. The same holds for ChallengeListing.GetUnvalidatedChallenges.
- ChallengeListing.FindAllOrdered: the order the database gives to equal titles is unspecified, so the contract fixes the result only up to that order (a permutation sorted by title).
- ChallengeListing.RecentValidated: among challenges with the same `createdAt`, which ones the database keeps at the limit is unspecified, so the contract does not fix it. Sorting.TopK and Leaderboard.TopUsersByXp have the same limit for ties.
- ChallengeListing.GetById: the `include` of participants in the first query is superseded by the participation query and is not modelled separately. A 500 from the store is not modelled.
- ChallengeListing.HasVoted: `Number(userId)` is taken as already converted, with `None` standing for `NaN`.
- Users.WithFavorites: the 500 answered when saving favourites fails is not modelled, and a request whose `favoriteGames` is not an array is modelled as no list.
- Users.UserTable.UpdateUser: the 500 answered when `user.update` fails is not modelled.
- Participations.NewParticipation: an explicit `null` for `value_xp` would violate NOT NULL; the model only distinguishes omitted from given.
- Timestamps: `new Date()` and `createdAt` are integer inputs.

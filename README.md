# IPL fantasy league — a Dafny model of the server handlers

This project models the request handlers of an IPL fantasy-league web
server, plus the list transforms of its admin points-entry page. The
server keeps matches, IPL players, per-match fantasy points, tournaments
(private leagues with a join code), tournament participants and user
accounts in a relational database. Its handlers:

- create and read matches and players;
- register and log in users;
- create and join tournaments;
- record fantasy points one at a time or in bulk, inside a transaction;
- compute a tournament's leaderboard.

Writes that change points notify connected clients over sockets, both
globally and per tournament room.

The model has these parts:

- `Store` (store.dfy): the database as a class `Database`. It has one
  sequence per table and the SERIAL counters. `Valid()` keeps the
  constraints of the schema: unique ids, one points entry per
  (match, player), unique (name, team) and usernames, one edge per
  (user, tournament), entries that reference existing matches and
  players, and edges that reference existing tournaments. The module also holds the row lookups, the truthiness tests the
  handlers apply to request fields, and the socket events with their
  audience.
- `Seqs` and `Ordering` (seqs.dfy, ordering.dfy): the search, filter
  and count helpers. `Ordering` also has the one stable insertion
  sort that stands for every `ORDER BY` and for `Array.prototype.sort`.
  It comes with sortedness, permutation and stability lemmas, and with
  lexicographic string order.
- `Queries` (queries.dfy): the joined reads shared by several handlers,
  namely a match's point sheet and a player's points history.
- `MatchController`, `PlayerController`, `AuthController`,
  `PointsController`, `TournamentController`, `Leaderboard`: one module
  per controller. Each read handler is a function of the tables. Each
  write handler is a module-level method that takes `db: Database`. Its
  postcondition states the reply, the new tables and counters, and the
  emitted events. The leaderboard's loops
  are methods proved equal to the function `LeaderboardOf`.
- `PointsEntry` (points_entry.dfy): the points-entry page's state
  transitions. These are the sheet it builds, the merge with stored
  points, editing a row, and the request it submits. They are connected
  to the bulk endpoint they call.

Replies are `Ok(status, body)` or `Err(status, message)`, using the
handlers' own status codes and messages. A request field that may be
absent is an `Option`. For an id, "given" means JavaScript-truthy: present
and non-zero. For text, it means present and non-empty. Password hashing,
password comparison, token signing and the random join code come in as
parameters. So do the current time and the fault that makes a bulk
request fail.

`bulkAddPoints` sets the match's status to `completed` after `COMMIT`,
outside the transaction (pointsController.js:263-269). So
`PointsController.BulkAddPoints` has an outcome in which the points are
stored, the reply is 500 and the match is not completed.

## Model

| member | source | states |
|---|---|---|
| `Ordering.SortBySorted` | matchController.js:11-13 | the sort that stands for `ORDER BY` puts its output in the requested order |
| `Ordering.SortByStable` | tournamentController.js:321 | the sort is stable: elements tied under the comparator keep their input order |
| `MatchController.AllMatches` | matchController.js:9-20 | every match, as a permutation of the table, earliest date first |
| `MatchController.UpcomingMatches` | matchController.js:144-157 | exactly the `scheduled` matches later than now, each with its multiplicity, earliest first |
| `MatchController.CompletedMatches` | matchController.js:164-177 | exactly the `completed` matches, latest first |
| `MatchController.MatchById` | matchController.js:27-60 | 404 "Match not found" iff the id is unknown; otherwise that match with its own point entries, one row per entry whose player exists and no other, highest points first |
| `MatchController.CreateMatch` | matchController.js:67-97 | 400 with nothing written and the counter unchanged unless date, both teams and venue are given; otherwise one row with the next id, the counter advanced by one, and status `scheduled` by default, reply 201, one `new-match` event; the store stays valid |
| `MatchController.UpdateMatchStatus` | matchController.js:104-137 | 400 without a status, 404 for an unknown match; otherwise only that match's status changes, and the updated row is returned and broadcast |
| `MatchController.SetStatusKeepsStore` | matchController.js:114-117 | a status update keeps match ids unique and every point entry's match reference |
| `MatchController.SetStatusLookup` | matchController.js:114-117 | after the update the match is found with the new status and otherwise unchanged; other ids find what they found before |
| `PlayerController.AllPlayers` | playerController.js:8-19 | every player, as a permutation, ordered by team and then by name |
| `PlayerController.PlayersByTeam` | playerController.js:106-120 | exactly the players of the team, by name |
| `PlayerController.AllTeams` | playerController.js:127-139 | every team some player has, each exactly once, in ascending order |
| `PlayerController.PlayerById` | playerController.js:26-58 | 404 "Player not found" iff unknown; otherwise the player and their own entries, one row per entry whose match exists and no other, latest match first |
| `PlayerController.CreatePlayer` | playerController.js:65-99 | 400 unless name and team are given, 400 "Player already exists" for a taken (name, team); otherwise one row is appended with the next id, the counter advances by one, and (name, team) stays unique; error paths leave the table and the counter unchanged |
| `PlayerController.PlayerOrdersArePreorders` | playerController.js:10-12 | team-then-name order, name order and string order are total preorders, so the sorts above are well defined |
| `Ordering.StrLeTransitive` | playerController.js:10-12 | lexicographic string order is transitive |
| `AuthController.RegisterUser` | authController.js:10-55 | 400 for a missing field; 400 "User already exists" when the username or email is taken, with nothing inserted and the counter unchanged; otherwise one row with the next id (the counter advances by one) with role `user` and the hashed password, and a session for that row |
| `AuthController.LoginUser` | authController.js:62-104 | 400 unless email and password are given; otherwise the reply is Ok iff the email is registered and the password verifies against its hash, and every other reply, for an unknown email or a wrong password alike, is the same 401 "Invalid email or password" |
| `AuthController.UserProfile` | authController.js:111-129 | 404 "User not found" iff the id is unknown; otherwise the row without its password hash |
| `Queries.MatchSheet` | pointsController.js:24-31 | one row per entry of the match whose player exists (each entry as many times as the table holds it, no other row), with that player's name and team, highest points first |
| `Queries.PlayerHistory` | pointsController.js:168-175 | one row per entry of the player whose match exists (each entry as many times as the table holds it, no other row), with that match, latest first |
| `PointsController.PointsByMatch` | pointsController.js:9-38 | 404 "Match not found" iff unknown; otherwise one row per entry of the match whose player exists, with that player's name and team, highest points first |
| `PointsController.PointsByPlayer` | pointsController.js:154-183 | 404 "Player not found" iff unknown; otherwise one row per entry of the player whose match exists, with that match, latest match first |
| `PointsController.ReadsAgree` | pointsController.js:9-38 | the match-points endpoint answers 404 exactly when the match-detail endpoint does, with the same sheet; the player-points endpoint answers 404 exactly when the player-detail endpoint does, with the same history |
| `PointsController.Upserted` | pointsController.js:76-100 | after the existence test and then UPDATE or INSERT, the key is present and every row with the key is the new entry; no other row changes |
| `PointsController.UpsertFind` | pointsController.js:76-100 | a lookup of the written key finds the new entry; every other key finds what it found before |
| `PointsController.UpsertKeepsUnique` | pointsController.js:76-100 | the upsert keeps one entry per (match, player), and exactly one position holds the key |
| `PointsController.UpsertIdempotent` | pointsController.js:76-100 | writing the same entry twice leaves the table as writing it once |
| `PointsController.AddOrUpdatePoints` | pointsController.js:45-147 | 400 unless match id, player id and points are given (0 points allowed); 404 for an unknown match, then for an unknown player, with nothing written; otherwise the table is the upsert, reply 201, one global `points-update` (added or updated as the key existed), then one room event per tournament whose window covers the match date |
| `PointsController.RoomsCoveringOnce` | pointsController.js:121-125 | with unique tournament ids, each tournament is named once when its window covers the date and never otherwise |
| `PointsController.PointsEventsAudience` | pointsController.js:108-140 | a single upsert notifies every client once and each covering tournament room exactly once |
| `PointsController.BulkEventsAudience` | pointsController.js:279-292 | a bulk request notifies every client once and each covering tournament room exactly once |
| `PointsController.BatchLastWins` | pointsController.js:222-258 | after the loop a known player holds the points of its last element; unknown players, players without elements and other matches keep their entries |
| `PointsController.BatchKeepsStore` | pointsController.js:222-258 | the loop keeps one entry per key and every entry referencing existing rows |
| `PointsController.BatchResultsFollowKnownItems` | pointsController.js:222-258 | `results` has one element per request element whose player exists, in request order, each the entry written for that element |
| `PointsController.RunBatch` | pointsController.js:215-261 | the loop fails iff a fault strikes at one of its elements (rollback); otherwise it yields the batch's table and its `results` |
| `PointsController.BulkAddPoints` | pointsController.js:190-305 | 400 unless a match id and a non-empty array are given; 404 for an unknown match; a fault inside the loop gives 500 with nothing changed; a fault at the status update gives 500 with the points already stored and the match unchanged; otherwise the batch is stored, the match is `completed`, reply 201 with `results`, one bulk event and one leaderboard event per covering room |
| `PointsController.CompleteIsIdempotent` | pointsController.js:263-269 | marking a match completed twice gives the same table as once |
| `TournamentController.AllTournaments` | tournamentController.js:10-27 | one row per tournament whose creator exists and no other, with the creator's username and participant count, newest first |
| `TournamentController.UserTournaments` | tournamentController.js:34-72 | the user's created tournaments, each captioned `creator`, newest first, then the ones joined without creating them, captioned `participant`, newest first; one row per such tournament and no other, with its participant count; no tournament appears in both parts |
| `TournamentController.UserTournamentsComplete` | tournamentController.js:34-72 | every tournament the user created or belongs to is listed |
| `TournamentController.TournamentById` | tournamentController.js:79-115 | Ok iff the tournament exists and its creator's user row exists; 404 "Tournament not found" for an unknown tournament or a missing creator row; otherwise the tournament, its creator's name and one row per membership edge of the tournament whose user exists, and no other, earliest joined first |
| `TournamentController.CreateTournament` | tournamentController.js:122-158 | 400 with nothing written and the counter unchanged unless name, start and end are given; otherwise the tournament is appended with the next id, the counter advanced by one, and the requester as creator, the requester becomes a member, and the store stays valid |
| `TournamentController.JoinTournament` | tournamentController.js:165-230 | 400 without a code, 404 for an unknown code, 400 for an existing member, all with nothing written; otherwise exactly one edge is appended; a missing user row then gives 500 with the edge kept and no event, else 200 and one room event with the username |
| `TournamentController.EdgeCount` | tournamentController.js:13-17 | the participant count is the number of membership edges of the tournament, so 0 iff it has none |
| `TournamentController.EdgeCountAppend` | tournamentController.js:13-17 | a new edge raises its own tournament's participant count by one and leaves every other tournament's count unchanged |
| `Leaderboard.WindowMatches` | tournamentController.js:253-258 | exactly the matches with start ≤ date ≤ end, earliest first |
| `Leaderboard.MatchPoints` | tournamentController.js:293-300 | the sum of the team players' points in the match is 0 when none of them has an entry, and 0 for an empty team |
| `Leaderboard.Breakdown` | tournamentController.js:287-310 | one `match_points` element for each completed window match, and nothing else |
| `Leaderboard.BreakdownFollowsCompleted` | tournamentController.js:287-310 | the breakdown has exactly one element per completed window match, in window order, and the k-th element is the team's score in the k-th such match |
| `Leaderboard.TotalIsBreakdownSum` | tournamentController.js:287-317 | `total_points` is the sum of the `match_points` elements |
| `Leaderboard.BreakdownAscending` | tournamentController.js:253-310 | the breakdown lists its matches earliest first |
| `Leaderboard.MatchPointsAppend` | tournamentController.js:293-300 | a further entry adds its points exactly when it is for the match and a team player |
| `Leaderboard.LeaderboardOf` | tournamentController.js:237-333 | 404 "Tournament not found" iff unknown; otherwise one entry per participant, totals non-increasing, ranks 1..n |
| `Leaderboard.LeaderboardIsStablePermutation` | tournamentController.js:274-326 | the leaderboard is a permutation of the participants' entries, and equal totals keep participant order |
| `Leaderboard.ScoreAll` | tournamentController.js:274-318 | the loop over the participants yields one entry per participant, in participant order, each that participant's total and breakdown |
| `Leaderboard.ScoreParticipant` | tournamentController.js:287-317 | the per-participant loop yields that participant's total and breakdown |
| `Leaderboard.AssignRanks` | tournamentController.js:324-326 | the rank loop gives the entry at index i rank i + 1 and keeps the order |
| `Leaderboard.GetTournamentLeaderboard` | tournamentController.js:237-333 | the handler's lookups and loops compute exactly `LeaderboardOf` of the tables |
| `PointsEntry.InitialSheet` | PointsEntry.js:51-56 | one row per fetched player, in order, each at 0 points |
| `PointsEntry.FetchPlayers` | PointsEntry.js:45-66 | a player response replaces the players, builds row i from the i-th fetched player (its id, name and team) at 0 points, and clears the error; the selected match and team stay |
| `PointsEntry.SelectMatch` | PointsEntry.js:101-106 | selecting a match clears the team, the players and the sheet |
| `PointsEntry.ChangePoints` | PointsEntry.js:117-129 | only the rows of the edited player take the parsed value (0 for text that does not parse); the others are unchanged |
| `PointsEntry.HandlePointsChange` | PointsEntry.js:117-129 | editing a row changes only the sheet, as `ChangePoints` gives it; the match, team, players and error stay |
| `PointsEntry.ChangePointsProperties` | PointsEntry.js:117-129 | entering the same value twice is entering it once; unparsable text sets the row to 0 |
| `PointsEntry.MergeExisting` | PointsEntry.js:79-89 | a row takes the points of the first server row for its player; a row without one is kept; names and teams never change |
| `PointsEntry.FetchExistingPoints` | PointsEntry.js:69-98 | an empty response leaves the sheet as it is; a non-empty one merges it into the sheet; either way the error is cleared and the players, the selected match and the selected team stay |
| `PointsEntry.MergeShowsStored` | PointsEntry.js:69-90 | merged with the server's answer, each row shows the points stored for the selected match, or is unchanged when none are stored |
| `PointsEntry.PayloadMembers` | PointsEntry.js:138-153 | the submitted elements are exactly the rows with points above 0; the payload is empty iff no row has points above 0 |
| `PointsEntry.PayloadAppend` | PointsEntry.js:138-153 | the payload keeps sheet order |
| `PointsEntry.SubmitPoints` | PointsEntry.js:131-153 | nothing is sent and the hint is shown when no row is positive; nothing is sent without a selected match; when some row is positive and a match is selected, the request is sent, names the selected match and carries the payload, and the error is cleared |
| `PointsEntry.FreshSheetIsNotSubmitted` | PointsEntry.js:51-57 | a sheet just built from the fetched players is never submitted |
| `PointsEntry.SubmittedRequestIsValid` | PointsEntry.js:145-153 | a request the page sends for a match with a real id passes the bulk endpoint's validation |

## Left out

- Network, HTTP framing, JSON encoding, logging and React rendering are
  not modelled. Socket delivery is modelled as the list of events each
  handler emits, with their audiences.
- Timestamps (`created_at`, `joined_at`, the event timestamps) come in
  as a parameter `now`. Event timestamps are dropped.
- Fantasy points are modelled as integers, not floating point. This
  covers `parseFloat` and the `SUM` over `DECIMAL`.
- Dates are integers. The schema's DATE and TIMESTAMP columns are not
  distinguished.
- Where SQL gives no order for ties, or no `ORDER BY` at all (the
  participants read), the model uses table order.
- The random join code of `createTournament` is a parameter. A
  collision with an existing code is not checked, and neither is the
  UNIQUE constraint that would reject it.
- Database failures are modelled only where a handler's outcome depends
  on them. That is the bulk request's faults inside the transaction and
  at the status update, and the missing user row in `joinTournament`.
  Every other query failure ends in the same 500 "Server error" and is
  left out. This includes the second insert of `createTournament`.
- Foreign-key and CHECK constraints of the schema are not re-checked
  beyond the invariants in `Store.Database.Valid`.
- `Promise.all` runs the per-participant work concurrently. Its result
  is the same as the sequential loop in `Leaderboard.ScoreAll`, which is
  what the model states.
- `Leaderboard.GetTournamentLeaderboard` sorts by value with
  `Ordering.SortBy`, not in place.
- A bulk element without `fantasy_points` is not modelled: every
  element carries an integer.
- The teams tables (`user_tournament_teams`) are a read-only map from
  (user, tournament) to player ids. The model has no handler that
  writes them.
- Route ids that are not numbers are not modelled; ids are naturals.
- The points-entry page's loading flags and its success message are not
  modelled. So are the refresh after a submit, the server's error
  message shown after a failed submit, and the failed player and
  points fetches.
- String order is code-point lexicographic (`Ordering.StrLe`). Every
  `ORDER BY` on a text column (names, teams) uses it, while the database
  orders text by its collation, which can differ for case and accents.
- `Queries.HistoryRow` carries the whole `Match`. The source selects
  only some match columns: `getPlayerById` returns `match_date`,
  `team1` and `team2`; `getPointsByPlayer` also returns `venue`; neither
  returns the status. `PointsController.ReadsAgree` therefore equates
  two histories that differ in the `venue` column on the wire.
- `handleTeamSelect` (PointsEntry.js:108-114) starts `fetchPlayers`
  and `fetchExistingPoints` without awaiting either. The model has
  each response as its own transition (`PointsEntry.FetchPlayers`,
  `PointsEntry.FetchExistingPoints`) and states the merge for a sheet
  already built, that is, for the player response arriving first. The
  other interleaving, where the later player response overwrites the
  merged sheet with zeros, is not modelled.
- `AuthController.UserProfile`: the JWT middleware that identifies the
  user is not modelled; the user id is a parameter.

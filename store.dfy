/** The relational store the controllers query: one table per entity,
    held by a single `Database` object whose fields the handlers update,
    plus the reply and notification shapes every handler produces. */
module Store {
  import opened Seqs

  // ---------------------------------------------------------------------
  // Rows

  const Completed: string := "completed"
  const Scheduled: string := "scheduled"

  /** `matches` row. Dates are whole numbers on one clock; `status` is free
      text, because `updateMatchStatus` stores whatever it is given. */
  datatype Match = Match(id: nat, date: int, team1: string, team2: string,
                         venue: string, status: string)

  /** `ipl_players` row. */
  datatype Player = Player(id: nat, name: string, team: string)

  /** `match_fantasy_points` row, keyed by (match, player). */
  datatype PointEntry = PointEntry(matchId: nat, playerId: nat, points: int,
                                   enteredBy: nat, enteredAt: int)

  /** `tournaments` row; the window [start, end] is inclusive. */
  datatype Tournament = Tournament(id: nat, name: string, code: string, creator: nat,
                                   start: int, end: int, createdAt: int)

  /** `tournament_participants` row: the (user, tournament) membership edge. */
  datatype Participant = Participant(userId: nat, tournamentId: nat, joinedAt: int)

  /** `users` row. */
  datatype User = User(id: nat, username: string, email: string, passwordHash: string,
                       role: string, createdAt: int)

  // ---------------------------------------------------------------------
  // Request fields and replies

  /** A request id is present when it is truthy: given and not 0. */
  predicate GivenId(o: Option<nat>) { o.Some? && o.value != 0 }

  /** A request text is present when it is truthy: given and not empty. */
  predicate GivenText(o: Option<string>) { o.Some? && o.value != "" }

  const StatusOk: nat := 200
  const StatusCreated: nat := 201
  const StatusBadRequest: nat := 400
  const StatusUnauthorized: nat := 401
  const StatusNotFound: nat := 404
  const StatusServerError: nat := 500

  /** An HTTP reply: a success status with its JSON body, or an error
      status with the `message` the handler sends. */
  datatype Reply<T> = Ok(status: nat, body: T) | Err(status: nat, message: string)

  const ServerError: string := "Server error"

  // ---------------------------------------------------------------------
  // Notifications

  /** Who receives an event: every connected client, or the sockets that
      joined the room `tournament-<id>`. */
  datatype Audience = Everyone | Room(tournamentId: nat)

  datatype MatchChange = NewMatch | StatusUpdate
  datatype PointsChange = PointsAdded | PointsUpdated

  /** The socket events the handlers emit, with their payload fields
      (timestamps left out). */
  datatype Event =
    | MatchUpdate(change: MatchChange, m: Match)
    | PointsUpdate(kind: PointsChange, matchId: nat, player: Player, points: int)
    | PointsBulkUpdate(matchId: nat)
    | TournamentUpdate(tournamentId: nat, userId: nat, username: string)
    | TournamentPointsUpdate(tournamentId: nat, matchId: nat, player: Player, points: int)
    | TournamentLeaderboardUpdate(tournamentId: nat, matchId: nat)

  function AudienceOf(e: Event): Audience {
    match e
    case MatchUpdate(_, _) => Everyone
    case PointsUpdate(_, _, _, _) => Everyone
    case PointsBulkUpdate(_) => Everyone
    case TournamentUpdate(t, _, _) => Room(t)
    case TournamentPointsUpdate(t, _, _, _) => Room(t)
    case TournamentLeaderboardUpdate(t, _) => Room(t)
  }

  // ---------------------------------------------------------------------
  // Lookups (`SELECT * ... WHERE id = $1`, first row)

  function FindMatch(ms: seq<Match>, id: nat): (r: Option<Match>)
    ensures r.Some? <==> HasMatch(ms, id)
    ensures r.Some? ==> r.value in ms && r.value.id == id
    ensures MatchIdsUnique(ms) ==> forall i :: 0 <= i < |ms| && ms[i].id == id ==> r == Some(ms[i])
  {
    Find(ms, (m: Match) => m.id == id)
  }

  function FindPlayer(ps: seq<Player>, id: nat): (r: Option<Player>)
    ensures r.Some? <==> HasPlayer(ps, id)
    ensures r.Some? ==> r.value in ps && r.value.id == id
    ensures PlayerIdsUnique(ps) ==> forall i :: 0 <= i < |ps| && ps[i].id == id ==> r == Some(ps[i])
  {
    Find(ps, (p: Player) => p.id == id)
  }

  function FindTournament(ts: seq<Tournament>, id: nat): (r: Option<Tournament>)
    ensures r.Some? <==> HasTournament(ts, id)
    ensures r.Some? ==> r.value in ts && r.value.id == id
    ensures TournamentIdsUnique(ts) ==> forall i :: 0 <= i < |ts| && ts[i].id == id ==> r == Some(ts[i])
  {
    Find(ts, (t: Tournament) => t.id == id)
  }

  function FindUser(us: seq<User>, id: nat): (r: Option<User>)
    ensures r.Some? ==> r.value in us && r.value.id == id
    ensures r.None? <==> forall u :: u in us ==> u.id != id
  {
    Find(us, (u: User) => u.id == id)
  }

  /** Lookup of a point entry by its composite key. */
  function FindEntry(es: seq<PointEntry>, matchId: nat, playerId: nat): (r: Option<PointEntry>)
    ensures r.Some? <==> HasEntry(es, matchId, playerId)
    ensures r.Some? ==> r.value in es && r.value.matchId == matchId && r.value.playerId == playerId
  {
    Find(es, (e: PointEntry) => e.matchId == matchId && e.playerId == playerId)
  }

  predicate IsMember(ps: seq<Participant>, userId: nat, tournamentId: nat) {
    exists i :: 0 <= i < |ps| && ps[i].userId == userId && ps[i].tournamentId == tournamentId
  }

  /** The tournament's window contains `date` (`start_date <= d AND end_date >= d`,
      the same test as `d BETWEEN start_date AND end_date`). */
  predicate Covers(t: Tournament, date: int) { t.start <= date <= t.end }

  /** Ids of the tournaments whose window contains `date`, in table order:
      the audience of the point-change fan-out. */
  function RoomsCovering(ts: seq<Tournament>, date: int): (r: seq<nat>)
    ensures |r| <= |ts|
    ensures forall id :: id in r <==> exists t :: t in ts && t.id == id && Covers(t, date)
  {
    if ts == [] then []
    else
      assert ts == [ts[0]] + ts[1..];
      (if Covers(ts[0], date) then [ts[0].id] else []) + RoomsCovering(ts[1..], date)
  }

  /** `UPDATE matches SET status = $1 WHERE match_id = $2`: the rows with
      that id take the new status; nothing else in the table moves. */
  function SetStatus(ms: seq<Match>, id: nat, status: string): (r: seq<Match>)
    ensures |r| == |ms|
    ensures forall i :: 0 <= i < |ms| ==> r[i].id == ms[i].id && r[i].date == ms[i].date
    ensures forall i :: 0 <= i < |ms| && ms[i].id == id ==> r[i] == ms[i].(status := status)
    ensures forall i :: 0 <= i < |ms| && ms[i].id != id ==> r[i] == ms[i]
  {
    if ms == [] then []
    else [if ms[0].id == id then ms[0].(status := status) else ms[0]] + SetStatus(ms[1..], id, status)
  }

  // ---------------------------------------------------------------------
  // Table invariants (primary keys and the unique pairs the handlers guard)

  predicate MatchIdsUnique(ms: seq<Match>) {
    forall i, j :: 0 <= i < j < |ms| ==> ms[i].id != ms[j].id
  }
  predicate PlayerIdsUnique(ps: seq<Player>) {
    forall i, j :: 0 <= i < j < |ps| ==> ps[i].id != ps[j].id
  }
  predicate TournamentIdsUnique(ts: seq<Tournament>) {
    forall i, j :: 0 <= i < j < |ts| ==> ts[i].id != ts[j].id
  }
  predicate UserIdsUnique(us: seq<User>) {
    forall i, j :: 0 <= i < j < |us| ==> us[i].id != us[j].id
  }
  /** (player_name, team) identifies a player. */
  predicate PlayerNamesUnique(ps: seq<Player>) {
    forall i, j :: 0 <= i < j < |ps| ==> !(ps[i].name == ps[j].name && ps[i].team == ps[j].team)
  }
  /** Usernames and emails are each unique. */
  predicate UserNamesUnique(us: seq<User>) {
    forall i, j :: 0 <= i < j < |us| ==> us[i].username != us[j].username && us[i].email != us[j].email
  }
  /** At most one entry per (match, player). */
  predicate EntryKeysUnique(es: seq<PointEntry>) {
    forall i, j :: 0 <= i < j < |es| ==>
      !(es[i].matchId == es[j].matchId && es[i].playerId == es[j].playerId)
  }
  /** At most one membership edge per (user, tournament). */
  predicate EdgesUnique(ps: seq<Participant>) {
    forall i, j :: 0 <= i < j < |ps| ==>
      !(ps[i].userId == ps[j].userId && ps[i].tournamentId == ps[j].tournamentId)
  }

  predicate HasMatch(ms: seq<Match>, id: nat) { exists m :: m in ms && m.id == id }
  predicate HasPlayer(ps: seq<Player>, id: nat) { exists p :: p in ps && p.id == id }
  predicate HasTournament(ts: seq<Tournament>, id: nat) { exists t :: t in ts && t.id == id }
  predicate HasEntry(es: seq<PointEntry>, matchId: nat, playerId: nat) {
    exists e :: e in es && e.matchId == matchId && e.playerId == playerId
  }

  /** Every point entry names an existing match and an existing player. */
  predicate EntriesReferenced(es: seq<PointEntry>, ms: seq<Match>, ps: seq<Player>) {
    forall k :: 0 <= k < |es| ==> HasMatch(ms, es[k].matchId) && HasPlayer(ps, es[k].playerId)
  }

  /** Every membership edge names an existing tournament. */
  predicate EdgesReferenced(es: seq<Participant>, ts: seq<Tournament>) {
    forall k :: 0 <= k < |es| ==> HasTournament(ts, es[k].tournamentId)
  }

  // ---------------------------------------------------------------------
  // The store

  class Database {
    var matches: seq<Match>
    var players: seq<Player>
    var points: seq<PointEntry>
    var tournaments: seq<Tournament>
    var participants: seq<Participant>
    var users: seq<User>
    /** `user_tournament_teams` joined with its player rows: the players a
        user picked for a tournament. No handler of the model writes it. */
    var teams: map<(nat, nat), set<nat>>
    /** Next values of the SERIAL id sequences. */
    var nextMatchId: nat
    var nextPlayerId: nat
    var nextTournamentId: nat
    var nextUserId: nat

    ghost predicate Valid()
      reads this
    {
      && 0 < nextMatchId && 0 < nextPlayerId && 0 < nextTournamentId && 0 < nextUserId
      && (forall i :: 0 <= i < |matches| ==> 0 < matches[i].id < nextMatchId)
      && (forall i :: 0 <= i < |players| ==> 0 < players[i].id < nextPlayerId)
      && (forall i :: 0 <= i < |tournaments| ==> 0 < tournaments[i].id < nextTournamentId)
      && (forall i :: 0 <= i < |users| ==> 0 < users[i].id < nextUserId)
      && MatchIdsUnique(matches)
      && PlayerIdsUnique(players)
      && TournamentIdsUnique(tournaments)
      && UserIdsUnique(users)
      && PlayerNamesUnique(players)
      && UserNamesUnique(users)
      && EntryKeysUnique(points)
      && EdgesUnique(participants)
      && EntriesReferenced(points, matches, players)
      && EdgesReferenced(participants, tournaments)
    }

    /** An empty store whose sequences start at 1. */
    constructor ()
      ensures Valid()
      ensures matches == [] && players == [] && points == [] && tournaments == []
      ensures participants == [] && users == [] && teams == map[]
    {
      matches, players, points, tournaments := [], [], [], [];
      participants, users, teams := [], [], map[];
      nextMatchId, nextPlayerId, nextTournamentId, nextUserId := 1, 1, 1, 1;
    }
  }
}

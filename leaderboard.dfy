/** The tournament leaderboard (`getTournamentLeaderboard`): every
    participant's points over the completed matches inside the tournament's
    date window, counting only the players of the participant's team,
    ordered by total (stable, highest first) and ranked 1, 2, ... */
module Leaderboard {
  import opened Seqs
  import opened Ordering
  import opened Store
  import MatchController
  import TournamentController

  type ParticipantRow = TournamentController.ParticipantRow

  /** One element of `match_points`. */
  datatype MatchScore = MatchScore(matchId: nat, date: int, teams: string, points: int)

  /** One leaderboard entry before ranking. */
  datatype Row = Row(userId: nat, username: string, total: int, breakdown: seq<MatchScore>)

  /** A ranked entry. */
  datatype Standing = Standing(row: Row, rank: nat)

  // ---------------------------------------------------------------------
  // The specification

  /** `SELECT * FROM matches WHERE match_date BETWEEN $1 AND $2 ORDER BY
      match_date ASC`: the matches inside the window, both ends included,
      earliest first. */
  function WindowMatches(ms: seq<Match>, t: Tournament): (r: seq<Match>)
    ensures forall m :: multiset(r)[m] == if t.start <= m.date <= t.end then multiset(ms)[m] else 0
    ensures forall i, j :: 0 <= i < j < |r| ==> r[i].date <= r[j].date
  {
    var inside := Filter(ms, (m: Match) => t.start <= m.date <= t.end);
    SortBySorted(inside, MatchController.DateAsc);
    SortBy(inside, MatchController.DateAsc)
  }

  /** The players of the participant's team for this tournament; none when
      no team was picked. */
  function TeamOf(teams: map<(nat, nat), set<nat>>, userId: nat, tournamentId: nat): (r: set<nat>)
    ensures (userId, tournamentId) !in teams ==> r == {}
  {
    if (userId, tournamentId) in teams then teams[(userId, tournamentId)] else {}
  }

  /** `SELECT SUM(fantasy_points) ... WHERE match_id = $1 AND ipl_player_id
      = ANY($2)`, with an empty sum (SQL NULL) read as 0. */
  function MatchPoints(es: seq<PointEntry>, matchId: nat, team: set<nat>): (r: int)
    ensures (forall e :: e in es ==> !(e.matchId == matchId && e.playerId in team)) ==> r == 0
    ensures team == {} ==> r == 0
  {
    if es == [] then 0
    else
      assert forall e :: e in es[1..] ==> e in es;
      (if es[0].matchId == matchId && es[0].playerId in team then es[0].points else 0)
      + MatchPoints(es[1..], matchId, team)
  }

  /** The breakdown element of a match. */
  function ScoreOf(m: Match, es: seq<PointEntry>, team: set<nat>): MatchScore {
    MatchScore(m.id, m.date, m.team1 + " vs " + m.team2, MatchPoints(es, m.id, team))
  }

  /** `match_points` after the loop has seen `window`: one element per
      completed match, in window order. */
  function Breakdown(window: seq<Match>, es: seq<PointEntry>, team: set<nat>): (r: seq<MatchScore>)
    ensures |r| <= |window|
    ensures forall s :: s in r <==> exists m :: m in window && m.status == Completed && s == ScoreOf(m, es, team)
  {
    if window == [] then []
    else
      var init := window[..|window| - 1];
      var last := window[|window| - 1];
      var prev := Breakdown(init, es, team);
      assert window == init + [last];
      if last.status == Completed then prev + [ScoreOf(last, es, team)] else prev
  }

  /** `totalPoints` after the loop has seen `window`. */
  function TotalOf(window: seq<Match>, es: seq<PointEntry>, team: set<nat>): int {
    if window == [] then 0
    else
      var last := window[|window| - 1];
      TotalOf(window[..|window| - 1], es, team)
      + (if last.status == Completed then MatchPoints(es, last.id, team) else 0)
  }

  /** Sum of the points of a breakdown. */
  function SumScores(ss: seq<MatchScore>): int {
    if ss == [] then 0 else SumScores(ss[..|ss| - 1]) + ss[|ss| - 1].points
  }

  /** A participant's entry. */
  function RowOf(p: ParticipantRow, window: seq<Match>, es: seq<PointEntry>,
                 teams: map<(nat, nat), set<nat>>, tournamentId: nat): Row
  {
    var team := TeamOf(teams, p.userId, tournamentId);
    Row(p.userId, p.username, TotalOf(window, es, team), Breakdown(window, es, team))
  }

  /** The entries of all participants, in participant order (what
      `Promise.all` over `participants.map` yields). */
  function Rows(ps: seq<ParticipantRow>, window: seq<Match>, es: seq<PointEntry>,
                teams: map<(nat, nat), set<nat>>, tournamentId: nat): (r: seq<Row>)
    ensures |r| == |ps|
    ensures forall i :: 0 <= i < |ps| ==> r[i] == RowOf(ps[i], window, es, teams, tournamentId)
  {
    seq(|ps|, i requires 0 <= i < |ps| => RowOf(ps[i], window, es, teams, tournamentId))
  }

  /** The comparator `(a, b) => b.total_points - a.total_points`: `a` may
      come first when its total is not smaller. */
  predicate ByTotalDesc(a: Row, b: Row) { a.total >= b.total }

  lemma ByTotalDescIsPreorder()
    ensures TotalPreorder(ByTotalDesc)
  {
  }

  /** The entries with `rank = index + 1`. */
  function Ranked(rows: seq<Row>): (r: seq<Standing>)
    ensures |r| == |rows|
    ensures forall i :: 0 <= i < |rows| ==> r[i] == Standing(rows[i], i + 1)
  {
    seq(|rows|, i requires 0 <= i < |rows| => Standing(rows[i], i + 1))
  }

  /** The entries of a ranked list, rank dropped. */
  function Unranked(ss: seq<Standing>): (r: seq<Row>)
    ensures |r| == |ss|
    ensures forall i :: 0 <= i < |ss| ==> r[i] == ss[i].row
  {
    seq(|ss|, i requires 0 <= i < |ss| => ss[i].row)
  }

  /** The whole handler as a function of the tables. An unknown tournament
      gives 404 before anything is computed. Otherwise there is one entry
      per participant row, the totals never increase down the list, and
      the ranks are 1, 2, ..., n. */
  function LeaderboardOf(ts: seq<Tournament>, ms: seq<Match>, es: seq<PointEntry>, us: seq<User>,
                         edges: seq<Participant>, teams: map<(nat, nat), set<nat>>, tournamentId: nat)
    : (r: Reply<seq<Standing>>)
    ensures r.Err? <==> !HasTournament(ts, tournamentId)
    ensures r.Err? ==> r == Err(StatusNotFound, "Tournament not found")
    ensures r.Ok? ==> r.status == StatusOk
    ensures r.Ok? ==> |r.body| == |TournamentController.ParticipantRows(edges, us, tournamentId)|
    ensures r.Ok? ==> forall i :: 0 <= i < |r.body| ==> r.body[i].rank == i + 1
    ensures r.Ok? ==> forall i, j :: 0 <= i < j < |r.body| ==> r.body[i].row.total >= r.body[j].row.total
  {
    match FindTournament(ts, tournamentId)
    case None => Err(StatusNotFound, "Tournament not found")
    case Some(t) =>
      var rows := Rows(TournamentController.ParticipantRows(edges, us, tournamentId),
                       WindowMatches(ms, t), es, teams, tournamentId);
      ByTotalDescIsPreorder();
      SortBySorted(rows, ByTotalDesc);
      Ok(StatusOk, Ranked(SortBy(rows, ByTotalDesc)))
  }

  // ---------------------------------------------------------------------
  // Properties of the specification

  /** The total is the sum of the breakdown: a scheduled match inside the
      window adds nothing and has no breakdown element. */
  lemma {:induction false} TotalIsBreakdownSum(window: seq<Match>, es: seq<PointEntry>, team: set<nat>)
    ensures TotalOf(window, es, team) == SumScores(Breakdown(window, es, team))
  {
    if window != [] {
      var init := window[..|window| - 1];
      var last := window[|window| - 1];
      TotalIsBreakdownSum(init, es, team);
      if last.status == Completed {
        var b := Breakdown(init, es, team) + [ScoreOf(last, es, team)];
        assert b[..|b| - 1] == Breakdown(init, es, team);
      }
    }
  }

  /** The breakdown keeps the window's order, so with the window ordered
      by date it lists its matches earliest first. */
  lemma {:induction false} BreakdownAscending(window: seq<Match>, es: seq<PointEntry>, team: set<nat>)
    requires forall i, j :: 0 <= i < j < |window| ==> window[i].date <= window[j].date
    ensures forall i, j :: 0 <= i < j < |Breakdown(window, es, team)| ==>
      Breakdown(window, es, team)[i].date <= Breakdown(window, es, team)[j].date
  {
    if window != [] {
      var init := window[..|window| - 1];
      var last := window[|window| - 1];
      BreakdownAscending(init, es, team);
      var prev := Breakdown(init, es, team);
      if last.status == Completed {
        var r := prev + [ScoreOf(last, es, team)];
        forall i, j | 0 <= i < j < |r| ensures r[i].date <= r[j].date {
          if j == |r| - 1 {
            assert r[i] in prev;
            var m :| m in init && m.status == Completed && r[i] == ScoreOf(m, es, team);
            var k :| 0 <= k < |init| && init[k] == m;
            assert window[k] == m;
          } else {
            assert r[i] == prev[i] && r[j] == prev[j];
          }
        }
      }
    }
  }

  predicate IsCompleted(m: Match) { m.status == Completed }

  /** The breakdown has one element per completed window match and no
      other: its k-th element scores the k-th completed match. */
  lemma {:induction false} BreakdownFollowsCompleted(window: seq<Match>, es: seq<PointEntry>, team: set<nat>)
    ensures |Breakdown(window, es, team)| == |Filter(window, IsCompleted)|
    ensures forall k :: 0 <= k < |Breakdown(window, es, team)| ==>
      Breakdown(window, es, team)[k] == ScoreOf(Filter(window, IsCompleted)[k], es, team)
  {
    if window != [] {
      var init := window[..|window| - 1];
      var last := window[|window| - 1];
      assert window == init + [last];
      BreakdownFollowsCompleted(init, es, team);
      FilterAppend(init, [last], IsCompleted);
      assert [last][1..] == [];
      var f, b := Filter(init, IsCompleted), Breakdown(init, es, team);
      if IsCompleted(last) {
        assert Filter([last], IsCompleted) == [last];
        var fs, bs := f + [last], b + [ScoreOf(last, es, team)];
        assert Filter(window, IsCompleted) == fs;
        assert Breakdown(window, es, team) == bs;
        forall k | 0 <= k < |bs| ensures bs[k] == ScoreOf(fs[k], es, team) {
          if k < |b| {
            assert bs[k] == b[k] && fs[k] == f[k];
          }
        }
      } else {
        assert Filter(window, IsCompleted) == f;
        assert Breakdown(window, es, team) == b;
      }
    }
  }

  /** A further entry adds its points exactly when it is for the match and
      one of the team's players. */
  lemma {:induction false} MatchPointsAppend(es: seq<PointEntry>, e: PointEntry, matchId: nat, team: set<nat>)
    ensures MatchPoints(es + [e], matchId, team)
         == MatchPoints(es, matchId, team) + (if e.matchId == matchId && e.playerId in team then e.points else 0)
  {
    if es == [] {
      assert es + [e] == [e];
    } else {
      assert (es + [e])[1..] == es[1..] + [e];
      MatchPointsAppend(es[1..], e, matchId, team);
    }
  }

  /** The leaderboard holds exactly the participants' entries (a
      permutation), and entries with equal totals keep participant order. */
  lemma LeaderboardIsStablePermutation(ts: seq<Tournament>, ms: seq<Match>, es: seq<PointEntry>,
                                       us: seq<User>, edges: seq<Participant>,
                                       teams: map<(nat, nat), set<nat>>, tournamentId: nat, e: Row)
    requires HasTournament(ts, tournamentId)
    ensures var rows := Rows(TournamentController.ParticipantRows(edges, us, tournamentId),
                             WindowMatches(ms, FindTournament(ts, tournamentId).value), es, teams, tournamentId);
      var board := Unranked(LeaderboardOf(ts, ms, es, us, edges, teams, tournamentId).body);
      && multiset(board) == multiset(rows)
      && TiesOf(board, ByTotalDesc, e) == TiesOf(rows, ByTotalDesc, e)
  {
    var t := FindTournament(ts, tournamentId).value;
    var rows := Rows(TournamentController.ParticipantRows(edges, us, tournamentId),
                     WindowMatches(ms, t), es, teams, tournamentId);
    var sorted := SortBy(rows, ByTotalDesc);
    assert Unranked(Ranked(sorted)) == sorted;
    ByTotalDescIsPreorder();
    SortByStable(rows, ByTotalDesc, e);
  }

  // ---------------------------------------------------------------------
  // The handler

  /** The loop over the window for one participant: `totalPoints` and
      `matchPoints` grow with each completed match. */
  method ScoreParticipant(p: ParticipantRow, window: seq<Match>, es: seq<PointEntry>, team: set<nat>)
    returns (row: Row)
    ensures row == Row(p.userId, p.username, TotalOf(window, es, team), Breakdown(window, es, team))
  {
    var total := 0;
    var scores: seq<MatchScore> := [];
    var i := 0;
    while i < |window|
      invariant 0 <= i <= |window|
      invariant total == TotalOf(window[..i], es, team)
      invariant scores == Breakdown(window[..i], es, team)
    {
      var m := window[i];
      assert window[..i + 1][..i] == window[..i] && window[..i + 1][i] == m;
      if m.status == Completed {
        var points := MatchPoints(es, m.id, team);
        total := total + points;
        scores := scores + [MatchScore(m.id, m.date, m.team1 + " vs " + m.team2, points)];
      }
      i := i + 1;
    }
    assert window[..i] == window;
    row := Row(p.userId, p.username, total, scores);
  }

  /** `Promise.all(participants.map(...))`: one entry per participant, in
      participant order. */
  method ScoreAll(people: seq<ParticipantRow>, window: seq<Match>, es: seq<PointEntry>,
                  teams: map<(nat, nat), set<nat>>, tournamentId: nat)
    returns (rows: seq<Row>)
    ensures rows == Rows(people, window, es, teams, tournamentId)
  {
    rows := [];
    var i := 0;
    while i < |people|
      invariant 0 <= i <= |people|
      invariant |rows| == i
      invariant forall k :: 0 <= k < i ==> rows[k] == RowOf(people[k], window, es, teams, tournamentId)
    {
      var row := ScoreParticipant(people[i], window, es, TeamOf(teams, people[i].userId, tournamentId));
      rows := rows + [row];
      i := i + 1;
    }
  }

  /** `leaderboard.forEach((entry, index) => entry.rank = index + 1)`. */
  method AssignRanks(sorted: seq<Row>) returns (standings: seq<Standing>)
    ensures |standings| == |sorted|
    ensures forall j :: 0 <= j < |sorted| ==> standings[j].row == sorted[j] && standings[j].rank == j + 1
  {
    standings := [];
    var k := 0;
    while k < |sorted|
      invariant 0 <= k <= |sorted|
      invariant |standings| == k
      invariant forall j :: 0 <= j < k ==> standings[j] == Standing(sorted[j], j + 1)
    {
      standings := standings + [Standing(sorted[k], k + 1)];
      k := k + 1;
    }
  }

  /** `getTournamentLeaderboard`, step by step: the lookups, one entry per
      participant, the sort by total, and the rank loop. */
  method GetTournamentLeaderboard(db: Database, tournamentId: nat) returns (reply: Reply<seq<Standing>>)
    ensures reply == LeaderboardOf(db.tournaments, db.matches, db.points, db.users, db.participants,
                                   db.teams, tournamentId)
  {
    var found := FindTournament(db.tournaments, tournamentId);
    if found.None? {
      reply := Err(StatusNotFound, "Tournament not found");
      return;
    }
    var window := WindowMatches(db.matches, found.value);
    var people := TournamentController.ParticipantRows(db.participants, db.users, tournamentId);
    var rows := ScoreAll(people, window, db.points, db.teams, tournamentId);
    var sorted := SortBy(rows, ByTotalDesc);
    var standings := AssignRanks(sorted);
    assert standings == Ranked(sorted);
    reply := Ok(StatusOk, standings);
  }
}

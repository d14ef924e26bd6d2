/** The joined, ordered reads of the points table that several handlers
    share: a match's point sheet (`getMatchById`, `getPointsByMatch`) and a
    player's history (`getPlayerById`, `getPointsByPlayer`). */
module Queries {
  import opened Seqs
  import opened Ordering
  import opened Store

  /** A point entry joined with its player's name and team. */
  datatype PointRow = PointRow(entry: PointEntry, playerName: string, team: string)

  /** A point entry joined with its match (date, teams, venue). */
  datatype HistoryRow = HistoryRow(entry: PointEntry, m: Match)

  /** Inner join of entries with `ipl_players`, in entry order. */
  function JoinPlayers(es: seq<PointEntry>, ps: seq<Player>): (r: seq<PointRow>)
    ensures forall row :: row in r <==>
      row.entry in es && FindPlayer(ps, row.entry.playerId).Some?
      && row.playerName == FindPlayer(ps, row.entry.playerId).value.name
      && row.team == FindPlayer(ps, row.entry.playerId).value.team
    ensures forall row :: multiset(r)[row] == (if WithPlayer(row, ps) then multiset(es)[row.entry] else 0)
  {
    if es == [] then []
    else
      var rest := JoinPlayers(es[1..], ps);
      assert es == [es[0]] + es[1..];
      assert multiset(es) == multiset([es[0]]) + multiset(es[1..]);
      match FindPlayer(ps, es[0].playerId)
      case Some(p) => [PointRow(es[0], p.name, p.team)] + rest
      case None => rest
  }

  /** Inner join of entries with `matches`, in entry order. */
  function JoinMatches(es: seq<PointEntry>, ms: seq<Match>): (r: seq<HistoryRow>)
    ensures forall row :: row in r <==>
      row.entry in es && FindMatch(ms, row.entry.matchId) == Some(row.m)
    ensures forall row :: multiset(r)[row] == (if WithMatch(row, ms) then multiset(es)[row.entry] else 0)
  {
    if es == [] then []
    else
      var rest := JoinMatches(es[1..], ms);
      assert es == [es[0]] + es[1..];
      assert multiset(es) == multiset([es[0]]) + multiset(es[1..]);
      match FindMatch(ms, es[0].matchId)
      case Some(m) => [HistoryRow(es[0], m)] + rest
      case None => rest
  }

  /** `row` is its entry joined with that entry's player row. */
  predicate WithPlayer(row: PointRow, ps: seq<Player>) {
    FindPlayer(ps, row.entry.playerId).Some?
    && row.playerName == FindPlayer(ps, row.entry.playerId).value.name
    && row.team == FindPlayer(ps, row.entry.playerId).value.team
  }

  predicate PointsDesc(a: PointRow, b: PointRow) { a.entry.points >= b.entry.points }
  predicate MatchDateDesc(a: HistoryRow, b: HistoryRow) { a.m.date >= b.m.date }

  /** The entries of match `matchId`, as a row filter. */
  function OfMatch(matchId: nat): PointEntry -> bool {
    (e: PointEntry) => e.matchId == matchId
  }

  /** The entries of player `playerId`, as a row filter. */
  function OfPlayer(playerId: nat): PointEntry -> bool {
    (e: PointEntry) => e.playerId == playerId
  }

  /** `row` is its entry joined with that entry's match row. */
  predicate WithMatch(row: HistoryRow, ms: seq<Match>) {
    FindMatch(ms, row.entry.matchId) == Some(row.m)
  }

  /** `row` is an entry of match `matchId` joined with its player row. */
  predicate SheetRow(row: PointRow, ps: seq<Player>, matchId: nat) {
    row.entry.matchId == matchId && WithPlayer(row, ps)
  }

  /** `row` is an entry of player `playerId` joined with its match row. */
  predicate HistoryRowOf(row: HistoryRow, ms: seq<Match>, playerId: nat) {
    row.entry.playerId == playerId && WithMatch(row, ms)
  }

  /** `... WHERE mfp.match_id = $1 ORDER BY mfp.fantasy_points DESC`: the
      match's entries whose player exists, highest points first, one row
      per entry. */
  function MatchSheet(es: seq<PointEntry>, ps: seq<Player>, matchId: nat): (r: seq<PointRow>)
    ensures forall row :: multiset(r)[row] == (if SheetRow(row, ps, matchId) then multiset(es)[row.entry] else 0)
    ensures forall row :: row in r <==> row.entry in es && SheetRow(row, ps, matchId)
    ensures forall i, j :: 0 <= i < j < |r| ==> r[i].entry.points >= r[j].entry.points
  {
    var picked := Filter(es, OfMatch(matchId));
    var joined := JoinPlayers(picked, ps);
    SortBySorted(joined, PointsDesc);
    var r := SortBy(joined, PointsDesc);
    SheetCounts(es, ps, matchId, picked, joined, r);
    r
  }

  lemma SheetCounts(es: seq<PointEntry>, ps: seq<Player>, matchId: nat,
                    picked: seq<PointEntry>, joined: seq<PointRow>, r: seq<PointRow>)
    requires forall e :: multiset(picked)[e] == (if OfMatch(matchId)(e) then multiset(es)[e] else 0)
    requires forall row :: multiset(joined)[row] == (if WithPlayer(row, ps) then multiset(picked)[row.entry] else 0)
    requires multiset(r) == multiset(joined)
    ensures forall row :: multiset(r)[row] == (if SheetRow(row, ps, matchId) then multiset(es)[row.entry] else 0)
    ensures forall row :: row in r <==> row.entry in es && SheetRow(row, ps, matchId)
  {
    forall row ensures multiset(r)[row] == (if SheetRow(row, ps, matchId) then multiset(es)[row.entry] else 0) {
      assert multiset(r)[row] == multiset(joined)[row];
    }
    forall row ensures row in r <==> row.entry in es && SheetRow(row, ps, matchId) {
      assert row in r <==> row in multiset(r);
      assert row.entry in es <==> row.entry in multiset(es);
    }
  }

  /** `... WHERE mfp.ipl_player_id = $1 ORDER BY m.match_date DESC`: the
      player's entries whose match exists, latest match first, one row per
      entry. */
  function PlayerHistory(es: seq<PointEntry>, ms: seq<Match>, playerId: nat): (r: seq<HistoryRow>)
    ensures forall row :: multiset(r)[row] == (if HistoryRowOf(row, ms, playerId) then multiset(es)[row.entry] else 0)
    ensures forall row :: row in r <==> row.entry in es && HistoryRowOf(row, ms, playerId)
    ensures forall i, j :: 0 <= i < j < |r| ==> r[i].m.date >= r[j].m.date
  {
    var picked := Filter(es, OfPlayer(playerId));
    var joined := JoinMatches(picked, ms);
    SortBySorted(joined, MatchDateDesc);
    var r := SortBy(joined, MatchDateDesc);
    HistoryCounts(es, ms, playerId, picked, joined, r);
    r
  }

  lemma HistoryCounts(es: seq<PointEntry>, ms: seq<Match>, playerId: nat,
                      picked: seq<PointEntry>, joined: seq<HistoryRow>, r: seq<HistoryRow>)
    requires forall e :: multiset(picked)[e] == (if OfPlayer(playerId)(e) then multiset(es)[e] else 0)
    requires forall row :: multiset(joined)[row] == (if WithMatch(row, ms) then multiset(picked)[row.entry] else 0)
    requires multiset(r) == multiset(joined)
    ensures forall row :: multiset(r)[row] == (if HistoryRowOf(row, ms, playerId) then multiset(es)[row.entry] else 0)
    ensures forall row :: row in r <==> row.entry in es && HistoryRowOf(row, ms, playerId)
  {
    forall row ensures multiset(r)[row] == (if HistoryRowOf(row, ms, playerId) then multiset(es)[row.entry] else 0) {
      assert multiset(r)[row] == multiset(joined)[row];
    }
    forall row ensures row in r <==> row.entry in es && HistoryRowOf(row, ms, playerId) {
      assert row in r <==> row in multiset(r);
      assert row.entry in es <==> row.entry in multiset(es);
    }
  }
}

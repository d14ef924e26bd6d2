/** The player handlers: creating a player with a duplicate check, and
    the ordered reads of the `ipl_players` table. */
module PlayerController {
  import opened Seqs
  import opened Ordering
  import opened Store
  import opened Queries

  /** `ORDER BY team, player_name`. */
  predicate TeamThenName(a: Player, b: Player) {
    if a.team != b.team then StrLe(a.team, b.team) else StrLe(a.name, b.name)
  }

  predicate NameOrder(a: Player, b: Player) { StrLe(a.name, b.name) }

  lemma PlayerOrdersArePreorders()
    ensures TotalPreorder(TeamThenName)
    ensures TotalPreorder(NameOrder)
    ensures TotalPreorder(StrLe)
  {
    forall a: string, b: string ensures StrLe(a, b) || StrLe(b, a) { StrLeTotal(a, b); }
    forall a: string, b: string, c: string | StrLe(a, b) && StrLe(b, c) ensures StrLe(a, c) {
      StrLeTransitive(a, b, c);
    }
    forall a: Player, b: Player, c: Player | TeamThenName(a, b) && TeamThenName(b, c)
      ensures TeamThenName(a, c)
    {
      if a.team == c.team && a.team != b.team {
        StrLeAntisymmetric(a.team, b.team);
      }
    }
  }

  /** `getAllPlayers`: every player, by team and then by name. */
  function AllPlayers(ps: seq<Player>): (r: seq<Player>)
    ensures multiset(r) == multiset(ps)
    ensures forall i, j :: 0 <= i < j < |r| ==>
      StrLe(r[i].team, r[j].team) && (r[i].team == r[j].team ==> StrLe(r[i].name, r[j].name))
  {
    PlayerOrdersArePreorders();
    SortBySorted(ps, TeamThenName);
    var r := SortBy(ps, TeamThenName);
    assert forall i, j :: 0 <= i < j < |r| ==> TeamThenName(r[i], r[j]);
    r
  }

  /** `getPlayersByTeam`: exactly the players of `team`, by name. */
  function PlayersByTeam(ps: seq<Player>, team: string): (r: seq<Player>)
    ensures forall p :: multiset(r)[p] == (if p.team == team then multiset(ps)[p] else 0)
    ensures forall i, j :: 0 <= i < j < |r| ==> StrLe(r[i].name, r[j].name)
  {
    PlayerOrdersArePreorders();
    var chosen := Filter(ps, (p: Player) => p.team == team);
    SortBySorted(chosen, NameOrder);
    SortBy(chosen, NameOrder)
  }

  /** One copy of each distinct element. */
  function Distinct(s: seq<string>): (r: seq<string>)
    ensures forall x :: multiset(r)[x] == if x in s then 1 else 0
  {
    if s == [] then []
    else
      var rest := Distinct(s[1..]);
      assert s == [s[0]] + s[1..];
      if s[0] in s[1..] then rest else [s[0]] + rest
  }

  /** The teams column, one entry per player row. */
  function TeamColumn(ps: seq<Player>): (r: seq<string>)
    ensures forall t :: t in r <==> exists p :: p in ps && p.team == t
  {
    if ps == [] then []
    else
      assert ps == [ps[0]] + ps[1..];
      [ps[0].team] + TeamColumn(ps[1..])
  }

  /** A sequence in which nothing occurs twice has no repeated position. */
  lemma NoRepeats(r: seq<string>)
    requires forall x :: multiset(r)[x] <= 1
    ensures forall i, j :: 0 <= i < j < |r| ==> r[i] != r[j]
  {
    forall i, j | 0 <= i < j < |r| ensures r[i] != r[j] {
      assert r == r[..j] + r[j..];
      assert r[i] in r[..j];
      assert r[j] in r[j..];
      assert multiset(r)[r[j]] == multiset(r[..j])[r[j]] + multiset(r[j..])[r[j]];
    }
  }

  /** `getAllTeams` (`SELECT DISTINCT team ... ORDER BY team`): every team
      some player has, each exactly once, in order. */
  function AllTeams(ps: seq<Player>): (r: seq<string>)
    ensures forall t :: multiset(r)[t] == if exists p :: p in ps && p.team == t then 1 else 0
    ensures forall i, j :: 0 <= i < j < |r| ==> StrLe(r[i], r[j]) && r[i] != r[j]
  {
    PlayerOrdersArePreorders();
    var unique := Distinct(TeamColumn(ps));
    SortBySorted(unique, StrLe);
    var r := SortBy(unique, StrLe);
    NoRepeats(r);
    r
  }

  /** A player with the points they scored (`fantasy_points_history`). */
  datatype PlayerDetail = PlayerDetail(player: Player, history: seq<HistoryRow>)

  /** `getPlayerById`: 404 for an unknown id; otherwise the player and only
      their own entries, latest match first. */
  function PlayerById(ps: seq<Player>, ms: seq<Match>, es: seq<PointEntry>, id: nat)
    : (r: Reply<PlayerDetail>)
    ensures r.Err? <==> !HasPlayer(ps, id)
    ensures r.Err? ==> r == Err(StatusNotFound, "Player not found")
    ensures r.Ok? ==> r.status == StatusOk && r.body.player in ps && r.body.player.id == id
    ensures r.Ok? ==> forall row :: row in r.body.history ==>
      row.entry in es && row.entry.playerId == id && row.m in ms && row.m.id == row.entry.matchId
    ensures r.Ok? ==>
      forall row :: multiset(r.body.history)[row] == (if HistoryRowOf(row, ms, id) then multiset(es)[row.entry] else 0)
    ensures r.Ok? ==> forall i, j :: 0 <= i < j < |r.body.history| ==>
      r.body.history[i].m.date >= r.body.history[j].m.date
  {
    match FindPlayer(ps, id)
    case None => Err(StatusNotFound, "Player not found")
    case Some(p) => Ok(StatusOk, PlayerDetail(p, PlayerHistory(es, ms, id)))
  }

  /** `createPlayer` (admin). A missing name or team, or a (name, team)
      pair already in the table, is rejected without writing; otherwise
      exactly one row is appended with the next id. (name, team) stays
      unique because `Valid` keeps it so. */
  method CreatePlayer(db: Database, name: Option<string>, team: Option<string>)
    returns (reply: Reply<Player>)
    requires db.Valid()
    modifies db`players, db`nextPlayerId
    ensures db.Valid()
    ensures !(GivenText(name) && GivenText(team)) ==>
      reply == Err(StatusBadRequest, "Please provide player name and team")
      && db.players == old(db.players) && db.nextPlayerId == old(db.nextPlayerId)
    ensures GivenText(name) && GivenText(team)
            && (exists p :: p in old(db.players) && p.name == name.value && p.team == team.value) ==>
      reply == Err(StatusBadRequest, "Player already exists")
      && db.players == old(db.players) && db.nextPlayerId == old(db.nextPlayerId)
    ensures GivenText(name) && GivenText(team)
            && !(exists p :: p in old(db.players) && p.name == name.value && p.team == team.value) ==>
      var p := Player(old(db.nextPlayerId), name.value, team.value);
      db.players == old(db.players) + [p] && db.nextPlayerId == old(db.nextPlayerId) + 1
      && reply == Ok(StatusCreated, p)
  {
    if !(GivenText(name) && GivenText(team)) {
      reply := Err(StatusBadRequest, "Please provide player name and team");
      return;
    }
    var existing := Find(db.players, (p: Player) => p.name == name.value && p.team == team.value);
    if existing.Some? {
      reply := Err(StatusBadRequest, "Player already exists");
      return;
    }
    assert forall i :: 0 <= i < |db.players| ==>
      !(db.players[i].name == name.value && db.players[i].team == team.value) by {
      forall i | 0 <= i < |db.players| ensures
        !(db.players[i].name == name.value && db.players[i].team == team.value) {
        assert db.players[i] in db.players;
      }
    }
    var p := Player(db.nextPlayerId, name.value, team.value);
    db.players := db.players + [p];
    db.nextPlayerId := db.nextPlayerId + 1;
    reply := Ok(StatusCreated, p);
  }
}

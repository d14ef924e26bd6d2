/** The match handlers: creating a match, changing its status, and the
    ordered reads of the `matches` table. */
module MatchController {
  import opened Seqs
  import opened Ordering
  import opened Store
  import opened Queries

  predicate DateAsc(a: Match, b: Match) { a.date <= b.date }
  predicate DateDesc(a: Match, b: Match) { a.date >= b.date }

  /** `getAllMatches`: every match, earliest first. */
  function AllMatches(ms: seq<Match>): (r: seq<Match>)
    ensures multiset(r) == multiset(ms)
    ensures forall i, j :: 0 <= i < j < |r| ==> r[i].date <= r[j].date
  {
    SortBySorted(ms, DateAsc);
    SortBy(ms, DateAsc)
  }

  /** `getUpcomingMatches`: the scheduled matches later than `now`,
      earliest first. */
  function UpcomingMatches(ms: seq<Match>, now: int): (r: seq<Match>)
    ensures forall m :: multiset(r)[m] == (if m.status == Scheduled && m.date > now then multiset(ms)[m] else 0)
    ensures forall i, j :: 0 <= i < j < |r| ==> r[i].date <= r[j].date
  {
    var chosen := Filter(ms, (m: Match) => m.status == Scheduled && m.date > now);
    SortBySorted(chosen, DateAsc);
    SortBy(chosen, DateAsc)
  }

  /** `getCompletedMatches`: the completed matches, latest first. */
  function CompletedMatches(ms: seq<Match>): (r: seq<Match>)
    ensures forall m :: multiset(r)[m] == (if m.status == Completed then multiset(ms)[m] else 0)
    ensures forall i, j :: 0 <= i < j < |r| ==> r[i].date >= r[j].date
  {
    var chosen := Filter(ms, (m: Match) => m.status == Completed);
    SortBySorted(chosen, DateDesc);
    SortBy(chosen, DateDesc)
  }

  /** A match with its point sheet attached (`match.fantasy_points`). */
  datatype MatchDetail = MatchDetail(m: Match, sheet: seq<PointRow>)

  /** `getMatchById`: 404 for an unknown id; otherwise the match and only
      its own point entries, highest points first. */
  function MatchById(ms: seq<Match>, ps: seq<Player>, es: seq<PointEntry>, id: nat)
    : (r: Reply<MatchDetail>)
    ensures r.Err? <==> !HasMatch(ms, id)
    ensures r.Err? ==> r == Err(StatusNotFound, "Match not found")
    ensures r.Ok? ==> r.status == StatusOk && r.body.m in ms && r.body.m.id == id
    ensures r.Ok? ==> forall row :: row in r.body.sheet ==> row.entry in es && row.entry.matchId == id
    ensures r.Ok? ==>
      forall row :: multiset(r.body.sheet)[row] == (if SheetRow(row, ps, id) then multiset(es)[row.entry] else 0)
    ensures r.Ok? ==> forall i, j :: 0 <= i < j < |r.body.sheet| ==>
      r.body.sheet[i].entry.points >= r.body.sheet[j].entry.points
  {
    match FindMatch(ms, id)
    case None => Err(StatusNotFound, "Match not found")
    case Some(m) =>
      assert m in ms;
      Ok(StatusOk, MatchDetail(m, MatchSheet(es, ps, id)))
  }

  /** `createMatch` (admin). A missing date, team or venue is rejected
      before anything is written; otherwise one row is inserted with the
      next id and status `scheduled` unless one was given, and one
      `match-update` of type `new-match` goes to every client. */
  method CreateMatch(db: Database, date: Option<int>, team1: Option<string>,
                     team2: Option<string>, venue: Option<string>, status: Option<string>)
    returns (reply: Reply<Match>, events: seq<Event>)
    requires db.Valid()
    modifies db`matches, db`nextMatchId
    ensures db.Valid()
    ensures !(date.Some? && GivenText(team1) && GivenText(team2) && GivenText(venue)) ==>
      && reply == Err(StatusBadRequest, "Please provide match date, teams, and venue")
      && events == []
      && db.matches == old(db.matches) && db.nextMatchId == old(db.nextMatchId)
    ensures date.Some? && GivenText(team1) && GivenText(team2) && GivenText(venue) ==>
      var m := Match(old(db.nextMatchId), date.value, team1.value, team2.value, venue.value,
                     if GivenText(status) then status.value else Scheduled);
      && db.matches == old(db.matches) + [m]
      && db.nextMatchId == old(db.nextMatchId) + 1
      && reply == Ok(StatusCreated, m)
      && events == [MatchUpdate(NewMatch, m)]
  {
    if !(date.Some? && GivenText(team1) && GivenText(team2) && GivenText(venue)) {
      reply := Err(StatusBadRequest, "Please provide match date, teams, and venue");
      events := [];
      return;
    }
    var m := Match(db.nextMatchId, date.value, team1.value, team2.value, venue.value,
                   if GivenText(status) then status.value else Scheduled);
    db.matches := db.matches + [m];
    db.nextMatchId := db.nextMatchId + 1;
    reply := Ok(StatusCreated, m);
    events := [MatchUpdate(NewMatch, m)];
  }

  /** `updateMatchStatus` (admin). Any non-empty status text is stored as
      given; only the named match changes and a `status-update` is
      broadcast. */
  method UpdateMatchStatus(db: Database, id: nat, status: Option<string>)
    returns (reply: Reply<Match>, events: seq<Event>)
    requires db.Valid()
    modifies db`matches
    ensures db.Valid()
    ensures !GivenText(status) ==>
      reply == Err(StatusBadRequest, "Please provide status") && events == []
      && db.matches == old(db.matches)
    ensures GivenText(status) && !HasMatch(old(db.matches), id) ==>
      reply == Err(StatusNotFound, "Match not found") && events == []
      && db.matches == old(db.matches)
    ensures GivenText(status) && HasMatch(old(db.matches), id) ==>
      var m := FindMatch(old(db.matches), id).value.(status := status.value);
      && db.matches == SetStatus(old(db.matches), id, status.value)
      && reply == Ok(StatusOk, m)
      && events == [MatchUpdate(StatusUpdate, m)]
  {
    if !GivenText(status) {
      reply := Err(StatusBadRequest, "Please provide status");
      events := [];
      return;
    }
    var found := FindMatch(db.matches, id);
    if found.None? {
      reply := Err(StatusNotFound, "Match not found");
      events := [];
      return;
    }
    SetStatusKeepsStore(db.matches, db.players, db.points, id, status.value);
    db.matches := SetStatus(db.matches, id, status.value);
    var m := found.value.(status := status.value);
    reply := Ok(StatusOk, m);
    events := [MatchUpdate(StatusUpdate, m)];
  }

  /** Changing a status keeps the match ids, so keys stay unique and every
      point entry still finds its match. */
  lemma SetStatusKeepsStore(ms: seq<Match>, ps: seq<Player>, es: seq<PointEntry>,
                            id: nat, status: string)
    ensures MatchIdsUnique(ms) ==> MatchIdsUnique(SetStatus(ms, id, status))
    ensures forall x :: HasMatch(ms, x) ==> HasMatch(SetStatus(ms, id, status), x)
    ensures EntriesReferenced(es, ms, ps) ==> EntriesReferenced(es, SetStatus(ms, id, status), ps)
  {
    var r := SetStatus(ms, id, status);
    forall x | HasMatch(ms, x) ensures HasMatch(r, x) {
      var i :| 0 <= i < |ms| && ms[i].id == x;
      assert r[i].id == x;
    }
  }

  /** After a status change, looking the match up finds it with the new
      status and everything else as before; any other id finds what it
      found before. */
  lemma {:induction false} SetStatusLookup(ms: seq<Match>, id: nat, status: string, other: nat)
    ensures FindMatch(SetStatus(ms, id, status), id)
         == (match FindMatch(ms, id) case Some(m) => Some(m.(status := status)) case None => None)
    ensures other != id ==> FindMatch(SetStatus(ms, id, status), other) == FindMatch(ms, other)
  {
    if ms != [] {
      SetStatusLookup(ms[1..], id, status, other);
      assert SetStatus(ms, id, status)[1..] == SetStatus(ms[1..], id, status);
    }
  }
}

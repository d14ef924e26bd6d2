/** The fantasy-point handlers: the single and the bulk upsert into
    `match_fantasy_points`, the two joined reads, and the notifications
    sent to every tournament whose window contains the match date. */
module PointsController {
  import opened Seqs
  import opened Ordering
  import opened Store
  import opened Queries
  import MatchController
  import PlayerController

  // ---------------------------------------------------------------------
  // The upsert on (match, player)

  predicate SameKey(a: PointEntry, b: PointEntry) {
    a.matchId == b.matchId && a.playerId == b.playerId
  }

  /** `UPDATE match_fantasy_points SET ... WHERE match_id = $3 AND
      ipl_player_id = $4`: every row with the key of `e` becomes `e`. */
  function Rewrite(es: seq<PointEntry>, e: PointEntry): (r: seq<PointEntry>)
    ensures |r| == |es|
    ensures forall i :: 0 <= i < |es| ==> r[i] == if SameKey(es[i], e) then e else es[i]
  {
    if es == [] then []
    else [if SameKey(es[0], e) then e else es[0]] + Rewrite(es[1..], e)
  }

  /** The existence test followed by UPDATE or INSERT: the table after
      storing `e` under its key. */
  function Upserted(es: seq<PointEntry>, e: PointEntry): (r: seq<PointEntry>)
    ensures HasEntry(r, e.matchId, e.playerId)
    ensures |r| == if HasEntry(es, e.matchId, e.playerId) then |es| else |es| + 1
    ensures forall i :: 0 <= i < |es| ==> r[i] == if SameKey(es[i], e) then e else es[i]
    ensures forall i :: 0 <= i < |r| && SameKey(r[i], e) ==> r[i] == e
  {
    if HasEntry(es, e.matchId, e.playerId) then
      var r := Rewrite(es, e);
      var x :| x in es && x.matchId == e.matchId && x.playerId == e.playerId;
      var i :| 0 <= i < |es| && es[i] == x;
      assert r[i] == e;
      r
    else
      var r := es + [e];
      assert r[|es|] == e;
      r
  }

  lemma {:induction false} RewriteFind(es: seq<PointEntry>, e: PointEntry, matchId: nat, playerId: nat)
    ensures matchId == e.matchId && playerId == e.playerId && HasEntry(es, matchId, playerId) ==>
      FindEntry(Rewrite(es, e), matchId, playerId) == Some(e)
    ensures !(matchId == e.matchId && playerId == e.playerId) ==>
      FindEntry(Rewrite(es, e), matchId, playerId) == FindEntry(es, matchId, playerId)
  {
    if es != [] {
      RewriteFind(es[1..], e, matchId, playerId);
      assert Rewrite(es, e)[1..] == Rewrite(es[1..], e);
      if matchId == e.matchId && playerId == e.playerId && HasEntry(es, matchId, playerId)
         && !SameKey(es[0], e) {
        var x :| x in es && x.matchId == matchId && x.playerId == playerId;
        assert x in es[1..];
      }
    }
  }

  lemma {:induction false} AppendFind(es: seq<PointEntry>, e: PointEntry, matchId: nat, playerId: nat)
    ensures matchId == e.matchId && playerId == e.playerId && !HasEntry(es, matchId, playerId) ==>
      FindEntry(es + [e], matchId, playerId) == Some(e)
    ensures !(matchId == e.matchId && playerId == e.playerId) ==>
      FindEntry(es + [e], matchId, playerId) == FindEntry(es, matchId, playerId)
  {
    if es == [] {
      assert es + [e] == [e];
    } else {
      AppendFind(es[1..], e, matchId, playerId);
      assert (es + [e])[1..] == es[1..] + [e];
      if matchId == e.matchId && playerId == e.playerId && !HasEntry(es, matchId, playerId) {
        assert es[0] in es;
        assert !HasEntry(es[1..], matchId, playerId) by {
          forall x | x in es[1..] ensures !(x.matchId == matchId && x.playerId == playerId) {
            assert x in es;
          }
        }
      }
    }
  }

  /** After the upsert, looking up its key finds the new entry, and every
      other key finds what it found before. */
  lemma UpsertFind(es: seq<PointEntry>, e: PointEntry, matchId: nat, playerId: nat)
    ensures FindEntry(Upserted(es, e), e.matchId, e.playerId) == Some(e)
    ensures !(matchId == e.matchId && playerId == e.playerId) ==>
      FindEntry(Upserted(es, e), matchId, playerId) == FindEntry(es, matchId, playerId)
  {
    if HasEntry(es, e.matchId, e.playerId) {
      assert Upserted(es, e) == Rewrite(es, e);
      RewriteFind(es, e, e.matchId, e.playerId);
      RewriteFind(es, e, matchId, playerId);
    } else {
      assert Upserted(es, e) == es + [e];
      AppendFind(es, e, e.matchId, e.playerId);
      AppendFind(es, e, matchId, playerId);
    }
  }

  /** The upsert keeps one entry per key, and afterwards exactly one
      position holds the key of `e`, holding `e`. */
  lemma UpsertKeepsUnique(es: seq<PointEntry>, e: PointEntry)
    requires EntryKeysUnique(es)
    ensures EntryKeysUnique(Upserted(es, e))
    ensures exists i :: 0 <= i < |Upserted(es, e)| && Upserted(es, e)[i] == e
              && forall j :: 0 <= j < |Upserted(es, e)| && j != i ==> !SameKey(Upserted(es, e)[j], e)
  {
    var r := Upserted(es, e);
    var i :| 0 <= i < |r| && r[i].matchId == e.matchId && r[i].playerId == e.playerId;
    forall a, b | 0 <= a < b < |r| ensures !SameKey(r[a], r[b]) {
      if a < |es| && b < |es| {
        assert !SameKey(es[a], es[b]);
        if SameKey(es[a], e) {
          assert !SameKey(es[b], e);
        }
      } else {
        assert b == |es| && r[b] == e && !HasEntry(es, e.matchId, e.playerId);
        assert es[a] in es;
      }
    }
  }

  /** Repeating an upsert changes nothing, and the repeat finds the key
      present, so it takes the update branch. */
  lemma UpsertIdempotent(es: seq<PointEntry>, e: PointEntry)
    ensures HasEntry(Upserted(es, e), e.matchId, e.playerId)
    ensures Upserted(Upserted(es, e), e) == Upserted(es, e)
  {
    var r := Upserted(es, e);
    var r2 := Upserted(r, e);
    assert |r2| == |r|;
    forall i | 0 <= i < |r| ensures r2[i] == r[i] {
      if SameKey(r[i], e) {
        assert r[i] == e;
      }
    }
  }

  /** The upsert of an entry for an existing match and player keeps every
      entry referencing existing rows. */
  lemma UpsertKeepsReferences(es: seq<PointEntry>, ms: seq<Match>, ps: seq<Player>, e: PointEntry)
    requires EntriesReferenced(es, ms, ps)
    requires HasMatch(ms, e.matchId) && HasPlayer(ps, e.playerId)
    ensures EntriesReferenced(Upserted(es, e), ms, ps)
  {
  }

  // ---------------------------------------------------------------------
  // Notifications

  /** The audience of each event, in emission order. */
  function Recipients(events: seq<Event>): (r: seq<Audience>)
    ensures |r| == |events|
    ensures forall i :: 0 <= i < |events| ==> r[i] == AudienceOf(events[i])
  {
    if events == [] then [] else [AudienceOf(events[0])] + Recipients(events[1..])
  }

  /** One `tournament-points-update` per room, in the order of `rooms`. */
  function PointsFanOut(rooms: seq<nat>, matchId: nat, player: Player, points: int): (r: seq<Event>)
    ensures |r| == |rooms|
    ensures forall i :: 0 <= i < |rooms| ==> r[i] == TournamentPointsUpdate(rooms[i], matchId, player, points)
  {
    seq(|rooms|, i requires 0 <= i < |rooms| => TournamentPointsUpdate(rooms[i], matchId, player, points))
  }

  /** One `tournament-leaderboard-update` per room, in the order of `rooms`. */
  function LeaderboardFanOut(rooms: seq<nat>, matchId: nat): (r: seq<Event>)
    ensures |r| == |rooms|
    ensures forall i :: 0 <= i < |rooms| ==> r[i] == TournamentLeaderboardUpdate(rooms[i], matchId)
  {
    seq(|rooms|, i requires 0 <= i < |rooms| => TournamentLeaderboardUpdate(rooms[i], matchId))
  }

  /** The room audiences of a list of tournament ids. */
  function RoomsOf(ids: seq<nat>): (r: seq<Audience>)
    ensures |r| == |ids|
    ensures forall i :: 0 <= i < |ids| ==> r[i] == Room(ids[i])
  {
    if ids == [] then [] else [Room(ids[0])] + RoomsOf(ids[1..])
  }

  lemma {:induction false} RoomsOfCount(ids: seq<nat>, tid: nat)
    ensures multiset(RoomsOf(ids))[Room(tid)] == multiset(ids)[tid]
    ensures multiset(RoomsOf(ids))[Everyone] == 0
  {
    if ids != [] {
      RoomsOfCount(ids[1..], tid);
      assert multiset(RoomsOf(ids)) == multiset{Room(ids[0])} + multiset(RoomsOf(ids[1..]));
      assert ids == [ids[0]] + ids[1..];
      assert multiset(ids) == multiset{ids[0]} + multiset(ids[1..]);
    }
  }

  /** With unique tournament ids, the covering rooms name each tournament
      whose window contains `date` exactly once and no other. */
  lemma {:induction false} RoomsCoveringOnce(ts: seq<Tournament>, date: int, tid: nat)
    requires TournamentIdsUnique(ts)
    ensures multiset(RoomsCovering(ts, date))[tid]
         == if exists t :: t in ts && t.id == tid && Covers(t, date) then 1 else 0
  {
    if ts != [] {
      var tail := ts[1..];
      assert TournamentIdsUnique(tail);
      RoomsCoveringOnce(tail, date, tid);
      assert ts == [ts[0]] + tail;
      if ts[0].id == tid {
        assert forall t :: t in tail ==> t.id != tid by {
          forall t | t in tail ensures t.id != tid {
            var j :| 0 <= j < |tail| && tail[j] == t;
            assert ts[j + 1] == t;
          }
        }
      } else {
        assert (exists t :: t in ts && t.id == tid && Covers(t, date))
           <==> (exists t :: t in tail && t.id == tid && Covers(t, date));
      }
    }
  }

  /** Events addressed to the rooms of `ids`, in order, have those rooms
      as their recipients. */
  lemma {:induction false} FanOutRooms(fanOut: seq<Event>, ids: seq<nat>)
    requires |fanOut| == |ids| && forall i :: 0 <= i < |ids| ==> AudienceOf(fanOut[i]) == Room(ids[i])
    ensures Recipients(fanOut) == RoomsOf(ids)
  {
    if ids != [] {
      FanOutRooms(fanOut[1..], ids[1..]);
    }
  }

  /** A fan-out behind one global event reaches every client once and
      each room as often as its tournament id is listed. */
  lemma FanOutAudience(head: Event, fanOut: seq<Event>, ids: seq<nat>, tid: nat)
    requires AudienceOf(head) == Everyone
    requires |fanOut| == |ids| && forall i :: 0 <= i < |ids| ==> AudienceOf(fanOut[i]) == Room(ids[i])
    ensures multiset(Recipients([head] + fanOut))[Everyone] == 1
    ensures multiset(Recipients([head] + fanOut))[Room(tid)] == multiset(ids)[tid]
  {
    var evs := [head] + fanOut;
    assert evs[1..] == fanOut;
    FanOutRooms(fanOut, ids);
    assert Recipients(evs) == [Everyone] + RoomsOf(ids);
    assert multiset(Recipients(evs)) == multiset{Everyone} + multiset(RoomsOf(ids));
    RoomsOfCount(ids, tid);
  }

  /** `addOrUpdatePoints` notifies every client once, and each tournament
      room once exactly when the tournament's window contains the match. */
  lemma PointsEventsAudience(ts: seq<Tournament>, date: int, kind: PointsChange, matchId: nat,
                             player: Player, points: int, tid: nat)
    requires TournamentIdsUnique(ts)
    ensures var events := [PointsUpdate(kind, matchId, player, points)]
                          + PointsFanOut(RoomsCovering(ts, date), matchId, player, points);
      && multiset(Recipients(events))[Everyone] == 1
      && multiset(Recipients(events))[Room(tid)]
         == if exists t :: t in ts && t.id == tid && Covers(t, date) then 1 else 0
  {
    var rooms := RoomsCovering(ts, date);
    FanOutAudience(PointsUpdate(kind, matchId, player, points),
                   PointsFanOut(rooms, matchId, player, points), rooms, tid);
    RoomsCoveringOnce(ts, date, tid);
  }

  /** `bulkAddPoints` does the same with its leaderboard notifications. */
  lemma BulkEventsAudience(ts: seq<Tournament>, date: int, matchId: nat, tid: nat)
    requires TournamentIdsUnique(ts)
    ensures var events := [PointsBulkUpdate(matchId)] + LeaderboardFanOut(RoomsCovering(ts, date), matchId);
      && multiset(Recipients(events))[Everyone] == 1
      && multiset(Recipients(events))[Room(tid)]
         == if exists t :: t in ts && t.id == tid && Covers(t, date) then 1 else 0
  {
    var rooms := RoomsCovering(ts, date);
    FanOutAudience(PointsBulkUpdate(matchId), LeaderboardFanOut(rooms, matchId), rooms, tid);
    RoomsCoveringOnce(ts, date, tid);
  }

  // ---------------------------------------------------------------------
  // Reads

  /** `getPointsByMatch`: 404 for an unknown match; otherwise the match's
      entries joined with their players, highest points first. */
  function PointsByMatch(ms: seq<Match>, ps: seq<Player>, es: seq<PointEntry>, id: nat)
    : (r: Reply<seq<PointRow>>)
    ensures r.Err? <==> !HasMatch(ms, id)
    ensures r.Err? ==> r == Err(StatusNotFound, "Match not found")
    ensures r.Ok? ==> r.status == StatusOk
    ensures r.Ok? ==> forall row :: row in r.body <==>
      row.entry in es && row.entry.matchId == id && FindPlayer(ps, row.entry.playerId).Some?
      && row.playerName == FindPlayer(ps, row.entry.playerId).value.name
      && row.team == FindPlayer(ps, row.entry.playerId).value.team
    ensures r.Ok? ==> forall row :: multiset(r.body)[row] == (if SheetRow(row, ps, id) then multiset(es)[row.entry] else 0)
    ensures r.Ok? ==> forall i, j :: 0 <= i < j < |r.body| ==> r.body[i].entry.points >= r.body[j].entry.points
  {
    if FindMatch(ms, id).None? then Err(StatusNotFound, "Match not found")
    else Ok(StatusOk, MatchSheet(es, ps, id))
  }

  /** `getPointsByPlayer`: 404 for an unknown player; otherwise the
      player's entries joined with their matches, latest match first. */
  function PointsByPlayer(ps: seq<Player>, ms: seq<Match>, es: seq<PointEntry>, id: nat)
    : (r: Reply<seq<HistoryRow>>)
    ensures r.Err? <==> !HasPlayer(ps, id)
    ensures r.Err? ==> r == Err(StatusNotFound, "Player not found")
    ensures r.Ok? ==> r.status == StatusOk
    ensures r.Ok? ==> forall row :: row in r.body <==>
      row.entry in es && row.entry.playerId == id && FindMatch(ms, row.entry.matchId) == Some(row.m)
    ensures r.Ok? ==> forall row :: multiset(r.body)[row] == (if HistoryRowOf(row, ms, id) then multiset(es)[row.entry] else 0)
    ensures r.Ok? ==> forall i, j :: 0 <= i < j < |r.body| ==> r.body[i].m.date >= r.body[j].m.date
  {
    if FindPlayer(ps, id).None? then Err(StatusNotFound, "Player not found")
    else Ok(StatusOk, PlayerHistory(es, ms, id))
  }

  /** The points endpoints agree with the detail endpoints: the same
      404s, and the same point sheet and history. */
  lemma ReadsAgree(ms: seq<Match>, ps: seq<Player>, es: seq<PointEntry>, id: nat)
    ensures PointsByMatch(ms, ps, es, id).Ok? <==> MatchController.MatchById(ms, ps, es, id).Ok?
    ensures PointsByMatch(ms, ps, es, id).Ok? ==>
      PointsByMatch(ms, ps, es, id).body == MatchController.MatchById(ms, ps, es, id).body.sheet
    ensures PointsByPlayer(ps, ms, es, id).Ok? <==> PlayerController.PlayerById(ps, ms, es, id).Ok?
    ensures PointsByPlayer(ps, ms, es, id).Ok? ==>
      PointsByPlayer(ps, ms, es, id).body == PlayerController.PlayerById(ps, ms, es, id).body.history
  {
  }

  /** The existence test followed by UPDATE or INSERT. */
  method UpsertRow(es: seq<PointEntry>, e: PointEntry) returns (r: seq<PointEntry>)
    ensures r == Upserted(es, e)
  {
    var existing := FindEntry(es, e.matchId, e.playerId);
    if existing.Some? {
      r := Rewrite(es, e);
    } else {
      r := es + [e];
    }
  }

  /** The global event followed by the loop over the covering
      tournaments, one `tournament-points-update` per room. */
  method NotifyPoints(head: Event, rooms: seq<nat>, matchId: nat, player: Player, points: int)
    returns (events: seq<Event>)
    ensures events == [head] + PointsFanOut(rooms, matchId, player, points)
  {
    events := [head];
    var k := 0;
    while k < |rooms|
      invariant 0 <= k <= |rooms|
      invariant events == [head] + PointsFanOut(rooms[..k], matchId, player, points)
    {
      assert PointsFanOut(rooms[..k + 1], matchId, player, points)
          == PointsFanOut(rooms[..k], matchId, player, points)
             + [TournamentPointsUpdate(rooms[k], matchId, player, points)];
      events := events + [TournamentPointsUpdate(rooms[k], matchId, player, points)];
      k := k + 1;
    }
    assert rooms[..k] == rooms;
  }

  /** The same loop for `tournament-leaderboard-update`. */
  method NotifyLeaderboards(head: Event, rooms: seq<nat>, matchId: nat) returns (events: seq<Event>)
    ensures events == [head] + LeaderboardFanOut(rooms, matchId)
  {
    events := [head];
    var k := 0;
    while k < |rooms|
      invariant 0 <= k <= |rooms|
      invariant events == [head] + LeaderboardFanOut(rooms[..k], matchId)
    {
      assert LeaderboardFanOut(rooms[..k + 1], matchId)
          == LeaderboardFanOut(rooms[..k], matchId) + [TournamentLeaderboardUpdate(rooms[k], matchId)];
      events := events + [TournamentLeaderboardUpdate(rooms[k], matchId)];
      k := k + 1;
    }
    assert rooms[..k] == rooms;
  }

  /** The upsert applied to the table; the store stays valid because the
      entry names an existing match and player. */
  method StoreEntry(db: Database, e: PointEntry)
    requires db.Valid() && HasMatch(db.matches, e.matchId) && HasPlayer(db.players, e.playerId)
    modifies db`points
    ensures db.Valid()
    ensures db.points == Upserted(old(db.points), e)
  {
    UpsertKeepsUnique(db.points, e);
    UpsertKeepsReferences(db.points, db.matches, db.players, e);
    db.points := UpsertRow(db.points, e);
  }

  // ---------------------------------------------------------------------
  // Single upsert

  /** `addOrUpdatePoints` (admin). A missing or zero match or player id,
      or absent points, give 400; 0 points are accepted. An unknown match
      or player gives 404 with the table untouched. Otherwise the entry is
      stored under its key with the requester as author, one global
      `points-update` is sent, and one `tournament-points-update` goes to
      each tournament whose window contains the match date. */
  method AddOrUpdatePoints(db: Database, requester: nat, matchId: Option<nat>, playerId: Option<nat>,
                           points: Option<int>, now: int)
    returns (reply: Reply<PointEntry>, events: seq<Event>)
    requires db.Valid()
    modifies db`points
    ensures db.Valid()
    ensures !(GivenId(matchId) && GivenId(playerId) && points.Some?) ==>
      && reply == Err(StatusBadRequest, "Please provide match ID, player ID, and fantasy points")
      && events == [] && db.points == old(db.points)
    ensures GivenId(matchId) && GivenId(playerId) && points.Some? && !HasMatch(db.matches, matchId.value) ==>
      reply == Err(StatusNotFound, "Match not found") && events == [] && db.points == old(db.points)
    ensures GivenId(matchId) && GivenId(playerId) && points.Some? && HasMatch(db.matches, matchId.value)
            && !HasPlayer(db.players, playerId.value) ==>
      reply == Err(StatusNotFound, "Player not found") && events == [] && db.points == old(db.points)
    ensures GivenId(matchId) && GivenId(playerId) && points.Some? && HasMatch(db.matches, matchId.value)
            && HasPlayer(db.players, playerId.value) ==>
      var e := PointEntry(matchId.value, playerId.value, points.value, requester, now);
      var player := FindPlayer(db.players, playerId.value).value;
      var kind := if HasEntry(old(db.points), e.matchId, e.playerId) then PointsUpdated else PointsAdded;
      var rooms := RoomsCovering(db.tournaments, FindMatch(db.matches, matchId.value).value.date);
      && db.points == Upserted(old(db.points), e)
      && reply == Ok(StatusCreated, e)
      && events == [PointsUpdate(kind, e.matchId, player, e.points)]
                    + PointsFanOut(rooms, e.matchId, player, e.points)
  {
    if !(GivenId(matchId) && GivenId(playerId) && points.Some?) {
      reply := Err(StatusBadRequest, "Please provide match ID, player ID, and fantasy points");
      events := [];
      return;
    }
    var m := FindMatch(db.matches, matchId.value);
    if m.None? {
      reply := Err(StatusNotFound, "Match not found");
      events := [];
      return;
    }
    var player := FindPlayer(db.players, playerId.value);
    if player.None? {
      reply := Err(StatusNotFound, "Player not found");
      events := [];
      return;
    }
    var e := PointEntry(matchId.value, playerId.value, points.value, requester, now);
    var existed := HasEntry(db.points, e.matchId, e.playerId);
    StoreEntry(db, e);
    var kind := if existed then PointsUpdated else PointsAdded;
    var rooms := RoomsCovering(db.tournaments, m.value.date);
    events := NotifyPoints(PointsUpdate(kind, e.matchId, player.value, e.points), rooms,
                           e.matchId, player.value, e.points);
    reply := Ok(StatusCreated, e);
  }

  // ---------------------------------------------------------------------
  // Bulk upsert

  /** One element of `points_data`; an element without a player id finds
      no player. */
  datatype BulkItem = BulkItem(playerId: Option<nat>, points: int)

  /** `points_data` as the request carries it. */
  datatype BulkPayload = Missing | NotAnArray | Items(items: seq<BulkItem>)

  /** Where a database call of the bulk request fails, if anywhere: at the
      `index`-th element inside the transaction, or at the status update
      that runs after `COMMIT`. */
  datatype Fault = NoFault | FailAtItem(index: nat) | FailAtStatusUpdate

  /** A stored entry with its player's name and team, as `results` holds it. */
  datatype SavedPoint = SavedPoint(entry: PointEntry, playerName: string, team: string)

  /** The element names a player of the table; other elements are skipped. */
  predicate Known(ps: seq<Player>, it: BulkItem) {
    it.playerId.Some? && HasPlayer(ps, it.playerId.value)
  }

  function EntryOf(matchId: nat, it: BulkItem, author: nat, now: int): PointEntry
    requires it.playerId.Some?
  {
    PointEntry(matchId, it.playerId.value, it.points, author, now)
  }

  /** The points table after the loop has handled `items`, in order. */
  function ApplyBatch(es: seq<PointEntry>, ps: seq<Player>, matchId: nat, items: seq<BulkItem>,
                      author: nat, now: int): seq<PointEntry>
  {
    if items == [] then es
    else
      var prev := ApplyBatch(es, ps, matchId, items[..|items| - 1], author, now);
      var it := items[|items| - 1];
      if Known(ps, it) then Upserted(prev, EntryOf(matchId, it, author, now)) else prev
  }

  /** The `results` array after the loop has handled `items`: one row per
      known element, in input order. */
  function BatchResults(ps: seq<Player>, matchId: nat, items: seq<BulkItem>, author: nat, now: int)
    : (r: seq<SavedPoint>)
    ensures |r| <= |items|
    ensures forall k :: 0 <= k < |r| ==>
      && r[k].entry.matchId == matchId && r[k].entry.enteredBy == author
      && FindPlayer(ps, r[k].entry.playerId) == Some(Player(r[k].entry.playerId, r[k].playerName, r[k].team))
      && BulkItem(Some(r[k].entry.playerId), r[k].entry.points) in items
    ensures (forall it :: it in items ==> Known(ps, it)) ==> |r| == |items|
    ensures (forall it :: it in items ==> !Known(ps, it)) ==> r == []
  {
    if items == [] then []
    else
      var init := items[..|items| - 1];
      var prev := BatchResults(ps, matchId, init, author, now);
      var it := items[|items| - 1];
      assert items == init + [it];
      assert forall x :: x in init ==> x in items;
      if Known(ps, it) then
        var p := FindPlayer(ps, it.playerId.value).value;
        prev + [SavedPoint(EntryOf(matchId, it, author, now), p.name, p.team)]
      else prev
  }

  /** The elements the loop stores: the known ones, in input order. */
  function KnownItems(ps: seq<Player>, items: seq<BulkItem>): (r: seq<BulkItem>)
    ensures forall it :: it in r <==> it in items && Known(ps, it)
  {
    if items == [] then []
    else
      var init := items[..|items| - 1];
      var it := items[|items| - 1];
      assert items == init + [it];
      KnownItems(ps, init) + (if Known(ps, it) then [it] else [])
  }

  /** `results` holds one row per known element, in input order, and
      nothing else: its k-th row is the entry of the k-th known element. */
  lemma {:induction false} BatchResultsFollowKnownItems(ps: seq<Player>, matchId: nat, items: seq<BulkItem>,
                                                        author: nat, now: int)
    ensures |BatchResults(ps, matchId, items, author, now)| == |KnownItems(ps, items)|
    ensures forall k :: 0 <= k < |KnownItems(ps, items)| ==>
      KnownItems(ps, items)[k].playerId.Some? &&
      BatchResults(ps, matchId, items, author, now)[k].entry == EntryOf(matchId, KnownItems(ps, items)[k], author, now)
  {
    if items != [] {
      var init := items[..|items| - 1];
      var it := items[|items| - 1];
      assert items == init + [it];
      BatchResultsFollowKnownItems(ps, matchId, init, author, now);
      var ks, rs := KnownItems(ps, init), BatchResults(ps, matchId, init, author, now);
      if Known(ps, it) {
        var p := FindPlayer(ps, it.playerId.value).value;
        var ks', rs' := ks + [it], rs + [SavedPoint(EntryOf(matchId, it, author, now), p.name, p.team)];
        assert KnownItems(ps, items) == ks';
        assert BatchResults(ps, matchId, items, author, now) == rs';
        forall k | 0 <= k < |ks'|
          ensures ks'[k].playerId.Some? && rs'[k].entry == EntryOf(matchId, ks'[k], author, now)
        {
          if k < |ks| {
            assert ks'[k] == ks[k] && rs'[k] == rs[k];
          }
        }
      } else {
        assert KnownItems(ps, items) == ks;
        assert BatchResults(ps, matchId, items, author, now) == rs;
      }
    }
  }

  /** The points of the last element for `playerId`, if there is one. */
  function LastPoints(items: seq<BulkItem>, playerId: nat): (r: Option<int>)
    ensures r.Some? <==> exists it :: it in items && it.playerId == Some(playerId)
    ensures r.Some? ==> BulkItem(Some(playerId), r.value) in items
  {
    if items == [] then None
    else
      var init := items[..|items| - 1];
      var it := items[|items| - 1];
      assert items == init + [it];
      if it.playerId == Some(playerId) then Some(it.points) else LastPoints(init, playerId)
  }

  /** After a batch, a known player holds the points of its last element;
      a player with no element, or not in the table, and every other
      match keep what they had. */
  lemma {:induction false} BatchLastWins(es: seq<PointEntry>, ps: seq<Player>, matchId: nat,
                                         items: seq<BulkItem>, author: nat, now: int, m: nat, p: nat)
    ensures m == matchId && HasPlayer(ps, p) && LastPoints(items, p).Some? ==>
      FindEntry(ApplyBatch(es, ps, matchId, items, author, now), m, p)
        == Some(PointEntry(matchId, p, LastPoints(items, p).value, author, now))
    ensures m != matchId || !HasPlayer(ps, p) || LastPoints(items, p).None? ==>
      FindEntry(ApplyBatch(es, ps, matchId, items, author, now), m, p) == FindEntry(es, m, p)
  {
    if items != [] {
      var init := items[..|items| - 1];
      var it := items[|items| - 1];
      BatchLastWins(es, ps, matchId, init, author, now, m, p);
      if Known(ps, it) {
        var prev := ApplyBatch(es, ps, matchId, init, author, now);
        UpsertFind(prev, EntryOf(matchId, it, author, now), m, p);
      }
    }
  }

  /** A batch keeps one entry per key and every entry referencing rows. */
  lemma {:induction false} BatchKeepsStore(es: seq<PointEntry>, ms: seq<Match>, ps: seq<Player>,
                                           matchId: nat, items: seq<BulkItem>, author: nat, now: int)
    requires EntryKeysUnique(es) && EntriesReferenced(es, ms, ps) && HasMatch(ms, matchId)
    ensures EntryKeysUnique(ApplyBatch(es, ps, matchId, items, author, now))
    ensures EntriesReferenced(ApplyBatch(es, ps, matchId, items, author, now), ms, ps)
  {
    if items != [] {
      var init := items[..|items| - 1];
      var it := items[|items| - 1];
      BatchKeepsStore(es, ms, ps, matchId, init, author, now);
      if Known(ps, it) {
        var prev := ApplyBatch(es, ps, matchId, init, author, now);
        UpsertKeepsUnique(prev, EntryOf(matchId, it, author, now));
        UpsertKeepsReferences(prev, ms, ps, EntryOf(matchId, it, author, now));
      }
    }
  }

  /** The request carries a truthy match id and a non-empty array. */
  predicate BulkRequestOk(matchId: Option<nat>, payload: BulkPayload) {
    GivenId(matchId) && payload.Items? && |payload.items| > 0
  }

  /** The fault strikes inside the loop, before `COMMIT`. */
  predicate FailsInLoop(fault: Fault, items: seq<BulkItem>) {
    fault.FailAtItem? && fault.index < |items|
  }

  /** One more element of the loop, as `ApplyBatch` and `BatchResults`
      see it. */
  lemma BatchStep(es: seq<PointEntry>, ps: seq<Player>, matchId: nat, items: seq<BulkItem>,
                  i: nat, author: nat, now: int)
    requires i < |items|
    ensures ApplyBatch(es, ps, matchId, items[..i + 1], author, now)
         == if Known(ps, items[i])
            then Upserted(ApplyBatch(es, ps, matchId, items[..i], author, now), EntryOf(matchId, items[i], author, now))
            else ApplyBatch(es, ps, matchId, items[..i], author, now)
    ensures BatchResults(ps, matchId, items[..i + 1], author, now)
         == if Known(ps, items[i])
            then BatchResults(ps, matchId, items[..i], author, now)
                 + [SavedPoint(EntryOf(matchId, items[i], author, now),
                               FindPlayer(ps, items[i].playerId.value).value.name,
                               FindPlayer(ps, items[i].playerId.value).value.team)]
            else BatchResults(ps, matchId, items[..i], author, now)
  {
    assert items[..i + 1][..i] == items[..i] && items[..i + 1][i] == items[i];
  }

  /** One pass of the loop: the player lookup, then the upsert and the
      result row for a known player; an unknown one is skipped. */
  method HandleItem(es: seq<PointEntry>, ps: seq<Player>, matchId: nat, items: seq<BulkItem>, i: nat,
                    author: nat, now: int, working: seq<PointEntry>, results: seq<SavedPoint>)
    returns (working': seq<PointEntry>, results': seq<SavedPoint>)
    requires i < |items|
    requires working == ApplyBatch(es, ps, matchId, items[..i], author, now)
    requires results == BatchResults(ps, matchId, items[..i], author, now)
    ensures working' == ApplyBatch(es, ps, matchId, items[..i + 1], author, now)
    ensures results' == BatchResults(ps, matchId, items[..i + 1], author, now)
  {
    BatchStep(es, ps, matchId, items, i, author, now);
    var it := items[i];
    var player := if it.playerId.Some? then FindPlayer(ps, it.playerId.value) else None;
    if player.Some? {
      var e := EntryOf(matchId, it, author, now);
      working' := UpsertRow(working, e);
      results' := results + [SavedPoint(e, player.value.name, player.value.team)];
    } else {
      working', results' := working, results;
    }
  }

  /** The loop inside `BEGIN ... COMMIT`, run on a copy of the table: the
      new table and `results`, or nothing when a fault strikes inside the
      loop (`ROLLBACK`). */
  method RunBatch(es: seq<PointEntry>, ps: seq<Player>, matchId: nat, items: seq<BulkItem>,
                  author: nat, now: int, fault: Fault)
    returns (outcome: Option<(seq<PointEntry>, seq<SavedPoint>)>)
    ensures outcome.None? <==> FailsInLoop(fault, items)
    ensures outcome.Some? ==>
      outcome.value == (ApplyBatch(es, ps, matchId, items, author, now),
                        BatchResults(ps, matchId, items, author, now))
  {
    var working := es;
    var results: seq<SavedPoint> := [];
    var i := 0;
    while i < |items|
      invariant 0 <= i <= |items|
      invariant !(fault.FailAtItem? && fault.index < i)
      invariant working == ApplyBatch(es, ps, matchId, items[..i], author, now)
      invariant results == BatchResults(ps, matchId, items[..i], author, now)
    {
      if fault == FailAtItem(i) {
        return None;
      }
      working, results := HandleItem(es, ps, matchId, items, i, author, now, working, results);
      i := i + 1;
    }
    assert items[..i] == items;
    return Some((working, results));
  }

  /** `COMMIT`: the transaction's copy of the points table becomes the
      table. */
  method Commit(db: Database, es: seq<PointEntry>)
    requires db.Valid()
    requires EntryKeysUnique(es) && EntriesReferenced(es, db.matches, db.players)
    modifies db`points
    ensures db.Valid() && db.points == es
  {
    db.points := es;
  }

  /** `UPDATE matches SET status = 'completed' WHERE match_id = $1 AND
      status != 'completed'`; rows already completed are rewritten with the
      same status, which is the same table (`CompleteIsIdempotent`). */
  method MarkCompleted(db: Database, id: nat)
    requires db.Valid()
    modifies db`matches
    ensures db.Valid() && db.matches == SetStatus(old(db.matches), id, Completed)
  {
    MatchController.SetStatusKeepsStore(db.matches, db.players, db.points, id, Completed);
    db.matches := SetStatus(db.matches, id, Completed);
  }

  /** `bulkAddPoints` (admin). A missing id or a missing, non-array or
      empty `points_data` gives 400 and an unknown match 404, before any
      transaction. The loop upserts the known elements in order and skips
      the others; a failure inside it rolls everything back (500). After
      `COMMIT` the match is set to `completed` outside the transaction: a
      failure there answers 500 with the points already stored. Otherwise
      one `points-bulk-update` is sent to everyone and one
      `tournament-leaderboard-update` to each tournament whose window
      contains the match date. */
  method BulkAddPoints(db: Database, requester: nat, matchId: Option<nat>, payload: BulkPayload,
                       now: int, fault: Fault)
    returns (reply: Reply<seq<SavedPoint>>, events: seq<Event>)
    requires db.Valid()
    modifies db`points, db`matches
    ensures db.Valid()
    ensures !BulkRequestOk(matchId, payload) ==>
      && reply == Err(StatusBadRequest, "Please provide match ID and points data array")
      && events == [] && db.points == old(db.points) && db.matches == old(db.matches)
    ensures BulkRequestOk(matchId, payload) && !HasMatch(old(db.matches), matchId.value) ==>
      && reply == Err(StatusNotFound, "Match not found")
      && events == [] && db.points == old(db.points) && db.matches == old(db.matches)
    ensures BulkRequestOk(matchId, payload) && HasMatch(old(db.matches), matchId.value)
            && FailsInLoop(fault, payload.items) ==>
      && reply == Err(StatusServerError, ServerError)
      && events == [] && db.points == old(db.points) && db.matches == old(db.matches)
    ensures BulkRequestOk(matchId, payload) && HasMatch(old(db.matches), matchId.value)
            && fault == FailAtStatusUpdate ==>
      && reply == Err(StatusServerError, ServerError) && events == []
      && db.points == ApplyBatch(old(db.points), db.players, matchId.value, payload.items, requester, now)
      && db.matches == old(db.matches)
    ensures BulkRequestOk(matchId, payload) && HasMatch(old(db.matches), matchId.value)
            && !FailsInLoop(fault, payload.items) && fault != FailAtStatusUpdate ==>
      var date := FindMatch(old(db.matches), matchId.value).value.date;
      && db.points == ApplyBatch(old(db.points), db.players, matchId.value, payload.items, requester, now)
      && db.matches == SetStatus(old(db.matches), matchId.value, Completed)
      && reply == Ok(StatusCreated, BatchResults(db.players, matchId.value, payload.items, requester, now))
      && events == [PointsBulkUpdate(matchId.value)]
                    + LeaderboardFanOut(RoomsCovering(db.tournaments, date), matchId.value)
  {
    if !BulkRequestOk(matchId, payload) {
      reply := Err(StatusBadRequest, "Please provide match ID and points data array");
      events := [];
      return;
    }
    var id := matchId.value;
    var items := payload.items;
    var m := FindMatch(db.matches, id);
    if m.None? {
      reply := Err(StatusNotFound, "Match not found");
      events := [];
      return;
    }
    var outcome := RunBatch(db.points, db.players, id, items, requester, now, fault);
    if outcome.None? {
      reply := Err(StatusServerError, ServerError);
      events := [];
      return;
    }
    var working, results := outcome.value.0, outcome.value.1;
    BatchKeepsStore(db.points, db.matches, db.players, id, items, requester, now);
    Commit(db, working);
    if fault == FailAtStatusUpdate {
      reply := Err(StatusServerError, ServerError);
      events := [];
      return;
    }
    MarkCompleted(db, id);
    var rooms := RoomsCovering(db.tournaments, m.value.date);
    events := NotifyLeaderboards(PointsBulkUpdate(id), rooms, id);
    reply := Ok(StatusCreated, results);
  }

  /** Setting `completed` where it is already set changes nothing, so the
      guard `status != 'completed'` of the update makes no difference. */
  lemma CompleteIsIdempotent(ms: seq<Match>, id: nat)
    ensures SetStatus(SetStatus(ms, id, Completed), id, Completed) == SetStatus(ms, id, Completed)
    ensures (forall m :: m in ms && m.id == id ==> m.status == Completed) ==> SetStatus(ms, id, Completed) == ms
  {
    var r := SetStatus(ms, id, Completed);
    assert |SetStatus(r, id, Completed)| == |r|;
    if forall m :: m in ms && m.id == id ==> m.status == Completed {
      forall i | 0 <= i < |ms| ensures r[i] == ms[i] {
        if ms[i].id == id {
          assert ms[i] in ms;
        }
      }
    }
  }
}

/** The admin points-entry page, reduced to its list transforms: the
    sheet of players and points it edits, and the decision of what it
    sends to the bulk endpoint. Rendering and HTTP are not modelled; each
    handler is a function from the page state to the next page state. */
module PointsEntry {
  import opened Seqs
  import opened Store
  import opened Queries
  import PointsController

  /** One line of the sheet (`pointsData` element). */
  datatype SheetRow = SheetRow(playerId: nat, playerName: string, team: string, points: int)

  /** The page state the handlers change. */
  datatype PageState = PageState(selectedMatch: Option<Match>, selectedTeam: string,
                                 players: seq<Player>, sheet: seq<SheetRow>, error: string)

  /** What the points input holds: a number, or text that does not parse
      (`parseFloat` gives NaN, and `NaN || 0` is 0). */
  datatype PointsInput = Numeric(value: int) | NotANumber

  function InputValue(input: PointsInput): int {
    match input
    case Numeric(v) => v
    case NotANumber => 0
  }

  /** The sheet `fetchPlayers` builds: one row per fetched player, in
      order, all at 0 points. */
  function InitialSheet(players: seq<Player>): (r: seq<SheetRow>)
    ensures |r| == |players|
    ensures forall i :: 0 <= i < |players| ==>
      r[i] == SheetRow(players[i].id, players[i].name, players[i].team, 0)
  {
    seq(|players|, i requires 0 <= i < |players| =>
      SheetRow(players[i].id, players[i].name, players[i].team, 0))
  }

  /** `fetchPlayers` after a successful response. */
  function FetchPlayers(s: PageState, fetched: seq<Player>): (r: PageState)
    ensures r.players == fetched && r.error == ""
    ensures |r.sheet| == |fetched| && forall i :: 0 <= i < |r.sheet| ==> r.sheet[i].points == 0
    ensures forall i :: 0 <= i < |fetched| ==>
      r.sheet[i].playerId == fetched[i].id && r.sheet[i].playerName == fetched[i].name
      && r.sheet[i].team == fetched[i].team
    ensures r.selectedMatch == s.selectedMatch && r.selectedTeam == s.selectedTeam
  {
    s.(players := fetched, sheet := InitialSheet(fetched), error := "")
  }

  /** `handleMatchSelect`: a new match clears the team, the players and
      the sheet. */
  function SelectMatch(s: PageState, m: Match): (r: PageState)
    ensures r.selectedMatch == Some(m)
    ensures r.selectedTeam == "" && r.players == [] && r.sheet == []
    ensures r.error == s.error
  {
    s.(selectedMatch := Some(m), selectedTeam := "", players := [], sheet := [])
  }

  /** The `prevData.map` of `handlePointsChange`. */
  function ChangePoints(sheet: seq<SheetRow>, playerId: nat, input: PointsInput): (r: seq<SheetRow>)
    ensures |r| == |sheet|
    ensures forall i :: 0 <= i < |sheet| && sheet[i].playerId == playerId ==>
      r[i] == sheet[i].(points := InputValue(input))
    ensures forall i :: 0 <= i < |sheet| && sheet[i].playerId != playerId ==> r[i] == sheet[i]
  {
    seq(|sheet|, i requires 0 <= i < |sheet| =>
      if sheet[i].playerId == playerId then sheet[i].(points := InputValue(input)) else sheet[i])
  }

  /** `handlePointsChange`: only the sheet changes. */
  function HandlePointsChange(s: PageState, playerId: nat, input: PointsInput): (r: PageState)
    ensures r.sheet == ChangePoints(s.sheet, playerId, input)
    ensures r.selectedMatch == s.selectedMatch && r.players == s.players
    ensures r.selectedTeam == s.selectedTeam && r.error == s.error
  {
    s.(sheet := ChangePoints(s.sheet, playerId, input))
  }

  /** Entering the same value twice is entering it once; entering text
      that does not parse sets the row to 0. */
  lemma ChangePointsProperties(sheet: seq<SheetRow>, playerId: nat, input: PointsInput)
    ensures ChangePoints(ChangePoints(sheet, playerId, input), playerId, input) == ChangePoints(sheet, playerId, input)
    ensures forall i :: 0 <= i < |sheet| && sheet[i].playerId == playerId ==>
      ChangePoints(sheet, playerId, NotANumber)[i].points == 0
  {
    var once := ChangePoints(sheet, playerId, input);
    var twice := ChangePoints(once, playerId, input);
    assert forall i :: 0 <= i < |sheet| ==> once[i].playerId == sheet[i].playerId;
    assert |twice| == |once|;
    forall i | 0 <= i < |once| ensures twice[i] == once[i] {
      assert once[i].playerId == sheet[i].playerId;
    }
  }

  /** The first server row for a player (`existingPoints.find`). */
  function ServerRowFor(server: seq<PointRow>, playerId: nat): (r: Option<PointRow>)
    ensures r.Some? ==> r.value in server && r.value.entry.playerId == playerId
    ensures r.None? <==> forall row :: row in server ==> row.entry.playerId != playerId
  {
    Find(server, (row: PointRow) => row.entry.playerId == playerId)
  }

  /** The `prevData.map` of `fetchExistingPoints`: a row takes the points
      of the first server row for its player; a row without one is kept. */
  function MergeExisting(sheet: seq<SheetRow>, server: seq<PointRow>): (r: seq<SheetRow>)
    ensures |r| == |sheet|
    ensures forall i :: 0 <= i < |sheet| ==>
      r[i].playerId == sheet[i].playerId && r[i].playerName == sheet[i].playerName && r[i].team == sheet[i].team
    ensures forall i :: 0 <= i < |sheet| && ServerRowFor(server, sheet[i].playerId).Some? ==>
      r[i].points == ServerRowFor(server, sheet[i].playerId).value.entry.points
    ensures forall i :: 0 <= i < |sheet| && ServerRowFor(server, sheet[i].playerId).None? ==> r[i] == sheet[i]
  {
    seq(|sheet|, i requires 0 <= i < |sheet| =>
      match ServerRowFor(server, sheet[i].playerId)
      case Some(row) => sheet[i].(points := row.entry.points)
      case None => sheet[i])
  }

  /** `fetchExistingPoints` after a successful response: an empty
      response leaves the sheet as it is. */
  function FetchExistingPoints(s: PageState, server: seq<PointRow>): (r: PageState)
    ensures server == [] ==> r.sheet == s.sheet
    ensures server != [] ==> r.sheet == MergeExisting(s.sheet, server)
    ensures r.error == "" && r.players == s.players && r.selectedMatch == s.selectedMatch
    ensures r.selectedTeam == s.selectedTeam
  {
    if |server| > 0 then s.(sheet := MergeExisting(s.sheet, server), error := "")
    else s.(error := "")
  }

  /** Merging with an empty response changes nothing either, so the
      length test is only a shortcut. */
  lemma MergeEmptyIsIdentity(sheet: seq<SheetRow>)
    ensures MergeExisting(sheet, []) == sheet
  {
    assert |MergeExisting(sheet, [])| == |sheet|;
  }

  /** With one entry per (match, player), the merged sheet shows for each
      player of the table exactly the points stored for the selected
      match, as `getPointsByMatch` returns them. */
  lemma MergeShowsStored(sheet: seq<SheetRow>, es: seq<PointEntry>, ps: seq<Player>, matchId: nat, i: nat)
    requires EntryKeysUnique(es)
    requires i < |sheet| && HasPlayer(ps, sheet[i].playerId)
    ensures FindEntry(es, matchId, sheet[i].playerId).Some? ==>
      MergeExisting(sheet, MatchSheet(es, ps, matchId))[i].points
        == FindEntry(es, matchId, sheet[i].playerId).value.points
    ensures FindEntry(es, matchId, sheet[i].playerId).None? ==>
      MergeExisting(sheet, MatchSheet(es, ps, matchId))[i] == sheet[i]
  {
    var server := MatchSheet(es, ps, matchId);
    var pid := sheet[i].playerId;
    var found := FindEntry(es, matchId, pid);
    if found.Some? {
      var e := found.value;
      var p := FindPlayer(ps, pid).value;
      assert PointRow(e, p.name, p.team) in server;
      var row := ServerRowFor(server, pid).value;
      SameKeySameEntry(es, row.entry, e);
    } else {
      forall row | row in server ensures row.entry.playerId != pid {
        assert row.entry in es && row.entry.matchId == matchId;
      }
    }
  }

  /** With one entry per key, two entries with the same key are the same. */
  lemma SameKeySameEntry(es: seq<PointEntry>, x: PointEntry, y: PointEntry)
    requires EntryKeysUnique(es)
    requires x in es && y in es && x.matchId == y.matchId && x.playerId == y.playerId
    ensures x == y
  {
    var a :| 0 <= a < |es| && es[a] == x;
    var b :| 0 <= b < |es| && es[b] == y;
    assert !(a < b) && !(b < a);
  }

  // ---------------------------------------------------------------------
  // Submission

  /** One sheet row as a bulk element. */
  function ItemOf(row: SheetRow): PointsController.BulkItem {
    PointsController.BulkItem(Some(row.playerId), row.points)
  }

  /** `points_data`: the rows with points above 0, in sheet order, each
      reduced to player id and points. */
  function Payload(sheet: seq<SheetRow>): (r: seq<PointsController.BulkItem>)
    ensures |r| <= |sheet|
  {
    if sheet == [] then []
    else (if sheet[0].points > 0 then [ItemOf(sheet[0])] else []) + Payload(sheet[1..])
  }

  /** Every payload element is a row of the sheet with points above 0,
      every such row is in the payload, and the payload is empty exactly
      when no row has points above 0. */
  lemma {:induction false} PayloadMembers(sheet: seq<SheetRow>)
    ensures forall it :: it in Payload(sheet) ==> it.points > 0 && exists row :: row in sheet && it == ItemOf(row)
    ensures forall row :: row in sheet && row.points > 0 ==> ItemOf(row) in Payload(sheet)
    ensures Payload(sheet) == [] <==> forall row :: row in sheet ==> row.points <= 0
  {
    if sheet != [] {
      PayloadMembers(sheet[1..]);
      assert sheet == [sheet[0]] + sheet[1..];
    }
  }

  /** The payload keeps sheet order: the payload of two sheets one after
      the other is the first's payload followed by the second's. */
  lemma {:induction false} PayloadAppend(a: seq<SheetRow>, b: seq<SheetRow>)
    ensures Payload(a + b) == Payload(a) + Payload(b)
  {
    if a == [] {
      assert a + b == b;
    } else {
      var ab := a + b;
      assert ab[0] == a[0] && ab[1..] == a[1..] + b;
      PayloadAppend(a[1..], b);
      calc {
        Payload(ab);
        (if a[0].points > 0 then [ItemOf(a[0])] else []) + Payload(a[1..] + b);
        (if a[0].points > 0 then [ItemOf(a[0])] else []) + (Payload(a[1..]) + Payload(b));
      }
    }
  }

  /** The request `handleSubmitPoints` sends. */
  datatype BulkRequest = BulkRequest(matchId: nat, items: seq<PointsController.BulkItem>)

  const NothingToSubmit: string := "Please enter points for at least one player"
  const SubmitFailed: string := "Failed to submit fantasy points"

  /** `handleSubmitPoints` up to the request: nothing is sent when no row
      has points above 0, nor when no match is selected (reading its id
      throws and the fallback message is shown). */
  function SubmitPoints(s: PageState): (r: (PageState, Option<BulkRequest>))
    ensures (forall row :: row in s.sheet ==> row.points <= 0) ==>
      r.1 == None && r.0 == s.(error := NothingToSubmit)
    ensures (exists row :: row in s.sheet && row.points > 0) && s.selectedMatch.None? ==>
      r.1 == None && r.0 == s.(error := SubmitFailed)
    ensures (exists row :: row in s.sheet && row.points > 0) && s.selectedMatch.Some? ==>
      r.1 == Some(BulkRequest(s.selectedMatch.value.id, Payload(s.sheet))) && r.0 == s.(error := "")
    ensures r.1.Some? ==>
      && s.selectedMatch.Some? && r.1.value.matchId == s.selectedMatch.value.id
      && r.1.value.items == Payload(s.sheet) && r.1.value.items != []
      && r.0 == s.(error := "")
  {
    PayloadMembers(s.sheet);
    var items := Payload(s.sheet);
    if items == [] then (s.(error := NothingToSubmit), None)
    else if s.selectedMatch.None? then (s.(error := SubmitFailed), None)
    else (s.(error := ""), Some(BulkRequest(s.selectedMatch.value.id, items)))
  }

  /** A sheet straight from `fetchPlayers` is never submitted. */
  lemma FreshSheetIsNotSubmitted(s: PageState, fetched: seq<Player>)
    ensures SubmitPoints(FetchPlayers(s, fetched)).1 == None
  {
    var sheet := FetchPlayers(s, fetched).sheet;
    forall row | row in sheet ensures row.points <= 0 {
      var i :| 0 <= i < |sheet| && sheet[i] == row;
    }
  }

  /** A request the page sends passes the bulk endpoint's validation when
      the selected match has a real id, and names only positive points. */
  lemma SubmittedRequestIsValid(s: PageState)
    requires s.selectedMatch.Some? && s.selectedMatch.value.id != 0
    ensures SubmitPoints(s).1.Some? ==>
      var req := SubmitPoints(s).1.value;
      && PointsController.BulkRequestOk(Some(req.matchId), PointsController.Items(req.items))
      && forall it :: it in req.items ==> it.points > 0 && it.playerId.Some?
  {
    PayloadMembers(s.sheet);
  }
}

/** The tournament handlers apart from the leaderboard: creating a
    tournament (its creator joins it), joining by code, and the listings. */
module TournamentController {
  import opened Seqs
  import opened Ordering
  import opened Store

  // ---------------------------------------------------------------------
  // Shared reads

  /** Number of membership edges of tournament `tid`
      (`COUNT(tp.user_id)` of the LEFT JOIN). */
  function EdgeCount(es: seq<Participant>, tid: nat): (n: nat)
    ensures n <= |es|
    ensures n == 0 <==> forall k :: 0 <= k < |es| ==> es[k].tournamentId != tid
    ensures n == |Filter(es, InTournament(tid))|
  {
    var n := Count(es, InTournament(tid));
    assert forall k :: 0 <= k < |es| ==> es[k] in es;
    n
  }

  /** The edges of tournament `tid`, as a row filter. */
  function InTournament(tid: nat): Participant -> bool {
    (e: Participant) => e.tournamentId == tid
  }

  /** A new edge raises its own tournament's count by one and leaves every
      other tournament's count alone. */
  lemma {:induction false} EdgeCountAppend(es: seq<Participant>, e: Participant, tid: nat)
    ensures EdgeCount(es + [e], tid) == EdgeCount(es, tid) + (if e.tournamentId == tid then 1 else 0)
  {
    CountAppend(es, [e], InTournament(tid));
  }

  /** A participant as the joined reads return it. */
  datatype ParticipantRow = ParticipantRow(userId: nat, username: string, joinedAt: int)

  /** `FROM tournament_participants tp JOIN users u ON tp.user_id =
      u.user_id WHERE tp.tournament_id = $1`, in table order: an edge
      whose user row is missing drops out of the inner join. */
  function ParticipantRows(es: seq<Participant>, us: seq<User>, tid: nat): (r: seq<ParticipantRow>)
    ensures |r| <= |es|
    ensures forall row :: multiset(r)[row] == (if UserNamed(row, us) then multiset(es)[EdgeOf(row, tid)] else 0)
    ensures forall row :: row in r <==> EdgeOf(row, tid) in es && UserNamed(row, us)
  {
    if es == [] then []
    else
      var rest := ParticipantRows(es[1..], us, tid);
      assert es == [es[0]] + es[1..];
      assert multiset(es) == multiset([es[0]]) + multiset(es[1..]);
      var e := es[0];
      var r := if e.tournamentId == tid && FindUser(us, e.userId).Some? then
        [ParticipantRow(e.userId, FindUser(us, e.userId).value.username, e.joinedAt)] + rest
      else rest;
      assert forall row :: row in r <==> row in multiset(r);
      assert forall x :: x in es <==> x in multiset(es);
      r
  }

  /** `row` carries its user's current username. */
  predicate UserNamed(row: ParticipantRow, us: seq<User>) {
    FindUser(us, row.userId).Some? && FindUser(us, row.userId).value.username == row.username
  }

  /** The membership edge of tournament `tid` that `row` reports. */
  function EdgeOf(row: ParticipantRow, tid: nat): Participant {
    Participant(row.userId, tid, row.joinedAt)
  }

  predicate JoinedAsc(a: ParticipantRow, b: ParticipantRow) { a.joinedAt <= b.joinedAt }

  /** A tournament with its creator's name and its participants
      (`getTournamentById`). */
  datatype TournamentDetail = TournamentDetail(t: Tournament, creatorUsername: string,
                                               participants: seq<ParticipantRow>)

  /** `getTournamentById`. The tournament row is inner-joined with its
      creator's user row, so a missing tournament and a missing creator
      both give 404. Participants come earliest-joined first. */
  function TournamentById(ts: seq<Tournament>, us: seq<User>, es: seq<Participant>, id: nat)
    : (r: Reply<TournamentDetail>)
    ensures r.Ok? <==> HasTournament(ts, id) && FindUser(us, FindTournament(ts, id).value.creator).Some?
    ensures r.Err? ==> r == Err(StatusNotFound, "Tournament not found")
    ensures r.Ok? ==> r.status == StatusOk && r.body.t in ts && r.body.t.id == id
    ensures r.Ok? ==> exists u :: u in us && u.id == r.body.t.creator && u.username == r.body.creatorUsername
    ensures r.Ok? ==> forall row :: row in r.body.participants <==> EdgeOf(row, id) in es && UserNamed(row, us)
    ensures r.Ok? ==>
      forall row :: multiset(r.body.participants)[row] == (if UserNamed(row, us) then multiset(es)[EdgeOf(row, id)] else 0)
    ensures r.Ok? ==> forall i, j :: 0 <= i < j < |r.body.participants| ==>
      r.body.participants[i].joinedAt <= r.body.participants[j].joinedAt
  {
    match FindTournament(ts, id)
    case None => Err(StatusNotFound, "Tournament not found")
    case Some(t) =>
      match FindUser(us, t.creator)
      case None => Err(StatusNotFound, "Tournament not found")
      case Some(u) =>
        var rows := ParticipantRows(es, us, id);
        SortBySorted(rows, JoinedAsc);
        var sorted := SortBy(rows, JoinedAsc);
        assert forall row :: row in sorted <==> row in rows by {
          forall row ensures row in sorted <==> row in rows {
            assert row in sorted <==> row in multiset(sorted);
            assert row in rows <==> row in multiset(rows);
          }
        }
        Ok(StatusOk, TournamentDetail(t, u.username, sorted))
  }

  /** A row of the tournament listings: the tournament, a caption (creator's
      name or the requester's role) and the participant count. */
  datatype Listed = Listed(t: Tournament, caption: string, participantCount: nat)

  /** `row` lists its tournament under the creator's username. */
  predicate CreatorListed(row: Listed, us: seq<User>, es: seq<Participant>) {
    FindUser(us, row.t.creator).Some? && row.caption == FindUser(us, row.t.creator).value.username
    && row.participantCount == EdgeCount(es, row.t.id)
  }

  predicate CreatedDesc(a: Listed, b: Listed) { a.t.createdAt >= b.t.createdAt }

  /** Every tournament whose creator row exists, labelled with the
      creator's username, in table order. */
  function WithCreators(ts: seq<Tournament>, us: seq<User>, es: seq<Participant>): (r: seq<Listed>)
    ensures forall row :: row in r <==>
      row.t in ts && FindUser(us, row.t.creator).Some?
      && row.caption == FindUser(us, row.t.creator).value.username
      && row.participantCount == EdgeCount(es, row.t.id)
    ensures forall row :: multiset(r)[row] == (if CreatorListed(row, us, es) then multiset(ts)[row.t] else 0)
  {
    if ts == [] then []
    else
      var rest := WithCreators(ts[1..], us, es);
      assert ts == [ts[0]] + ts[1..];
      assert multiset(ts) == multiset([ts[0]]) + multiset(ts[1..]);
      match FindUser(us, ts[0].creator)
      case None => rest
      case Some(u) => [Listed(ts[0], u.username, EdgeCount(es, ts[0].id))] + rest
  }

  /** `getAllTournaments`: each tournament with its creator's username and
      participant count, newest first; a tournament whose creator row is
      missing drops out of the inner join. */
  function AllTournaments(ts: seq<Tournament>, us: seq<User>, es: seq<Participant>): (r: seq<Listed>)
    ensures forall row :: row in r <==>
      row.t in ts && FindUser(us, row.t.creator).Some?
      && row.caption == FindUser(us, row.t.creator).value.username
      && row.participantCount == EdgeCount(es, row.t.id)
    ensures forall row :: multiset(r)[row] == (if CreatorListed(row, us, es) then multiset(ts)[row.t] else 0)
    ensures forall i, j :: 0 <= i < j < |r| ==> r[i].t.createdAt >= r[j].t.createdAt
  {
    var rows := WithCreators(ts, us, es);
    SortBySorted(rows, CreatedDesc);
    var r := SortBy(rows, CreatedDesc);
    assert forall row :: row in r <==> row in rows by {
      forall row ensures row in r <==> row in rows {
        assert row in r <==> row in multiset(r);
        assert row in rows <==> row in multiset(rows);
      }
    }
    r
  }

  // ---------------------------------------------------------------------
  // "My tournaments"

  const CreatorRole: string := "creator"
  const ParticipantRole: string := "participant"

  /** `row` lists a tournament `user` created. */
  predicate OwnListed(row: Listed, es: seq<Participant>, user: nat) {
    row.t.creator == user && row.caption == CreatorRole && row.participantCount == EdgeCount(es, row.t.id)
  }

  /** `row` belongs to "my tournaments" of `user`, in either part. */
  predicate UserListed(row: Listed, es: seq<Participant>, user: nat) {
    OwnListed(row, es, user) || MemberListed(row, es, user)
  }

  /** `row` lists a tournament `user` joined without creating it. */
  predicate MemberListed(row: Listed, es: seq<Participant>, user: nat) {
    row.t.creator != user && IsMember(es, user, row.t.id)
    && row.caption == ParticipantRole && row.participantCount == EdgeCount(es, row.t.id)
  }

  /** The tournaments `user` created, in table order. */
  function CreatedBy(ts: seq<Tournament>, es: seq<Participant>, user: nat): (r: seq<Listed>)
    ensures forall row :: row in r <==>
      row.t in ts && row.t.creator == user && row.caption == CreatorRole
      && row.participantCount == EdgeCount(es, row.t.id)
    ensures forall row :: multiset(r)[row] == (if OwnListed(row, es, user) then multiset(ts)[row.t] else 0)
  {
    if ts == [] then []
    else
      var rest := CreatedBy(ts[1..], es, user);
      assert ts == [ts[0]] + ts[1..];
      assert multiset(ts) == multiset([ts[0]]) + multiset(ts[1..]);
      if ts[0].creator == user then [Listed(ts[0], CreatorRole, EdgeCount(es, ts[0].id))] + rest
      else rest
  }

  /** The tournaments `user` belongs to without having created them, in
      table order; one row per tournament however many edges match. */
  function JoinedBy(ts: seq<Tournament>, es: seq<Participant>, user: nat): (r: seq<Listed>)
    ensures forall row :: row in r <==>
      row.t in ts && row.t.creator != user && IsMember(es, user, row.t.id)
      && row.caption == ParticipantRole && row.participantCount == EdgeCount(es, row.t.id)
    ensures forall row :: multiset(r)[row] == (if MemberListed(row, es, user) then multiset(ts)[row.t] else 0)
  {
    if ts == [] then []
    else
      var rest := JoinedBy(ts[1..], es, user);
      assert ts == [ts[0]] + ts[1..];
      assert multiset(ts) == multiset([ts[0]]) + multiset(ts[1..]);
      if ts[0].creator != user && IsMember(es, user, ts[0].id) then
        [Listed(ts[0], ParticipantRole, EdgeCount(es, ts[0].id))] + rest
      else rest
  }

  function NewestFirst(rows: seq<Listed>): (r: seq<Listed>)
    ensures multiset(r) == multiset(rows)
    ensures forall i, j :: 0 <= i < j < |r| ==> r[i].t.createdAt >= r[j].t.createdAt
  {
    SortBySorted(rows, CreatedDesc);
    SortBy(rows, CreatedDesc)
  }

  /** The first part of "my tournaments" (`'creator' as role`). */
  function CreatedList(ts: seq<Tournament>, es: seq<Participant>, user: nat): (r: seq<Listed>)
    ensures forall row :: row in r <==>
      row.t in ts && row.t.creator == user && row.caption == CreatorRole
      && row.participantCount == EdgeCount(es, row.t.id)
    ensures forall row :: multiset(r)[row] == (if OwnListed(row, es, user) then multiset(ts)[row.t] else 0)
    ensures forall i, j :: 0 <= i < j < |r| ==> r[i].t.createdAt >= r[j].t.createdAt
  {
    var rows := CreatedBy(ts, es, user);
    var r := NewestFirst(rows);
    assert forall row :: row in r <==> row in multiset(rows);
    r
  }

  /** The second part (`'participant' as role`). */
  function JoinedList(ts: seq<Tournament>, es: seq<Participant>, user: nat): (r: seq<Listed>)
    ensures forall row :: row in r <==>
      row.t in ts && row.t.creator != user && IsMember(es, user, row.t.id)
      && row.caption == ParticipantRole && row.participantCount == EdgeCount(es, row.t.id)
    ensures forall row :: multiset(r)[row] == (if MemberListed(row, es, user) then multiset(ts)[row.t] else 0)
    ensures forall i, j :: 0 <= i < j < |r| ==> r[i].t.createdAt >= r[j].t.createdAt
  {
    var rows := JoinedBy(ts, es, user);
    var r := NewestFirst(rows);
    assert forall row :: row in r <==> row in multiset(rows);
    r
  }

  /** `getUserTournaments`: the tournaments the user created, newest first,
      followed by those the user joined without creating them, newest
      first. No tournament can be in both parts. */
  function UserTournaments(ts: seq<Tournament>, es: seq<Participant>, user: nat): (r: seq<Listed>)
    ensures forall row :: row in r ==> row.t in ts && row.participantCount == EdgeCount(es, row.t.id)
    ensures forall row :: row in r ==>
      || (row.caption == CreatorRole && row.t.creator == user)
      || (row.caption == ParticipantRole && row.t.creator != user && IsMember(es, user, row.t.id))
    ensures forall a, b :: a in r && b in r && a.caption == CreatorRole && b.caption == ParticipantRole ==> a.t != b.t
    ensures forall i, j :: 0 <= i < j < |r| ==> !(r[i].caption == ParticipantRole && r[j].caption == CreatorRole)
    ensures forall i, j :: 0 <= i < j < |r| && r[i].caption == r[j].caption ==> r[i].t.createdAt >= r[j].t.createdAt
    ensures forall row :: multiset(r)[row] == (if UserListed(row, es, user) then multiset(ts)[row.t] else 0)
  {
    var created := CreatedList(ts, es, user);
    var joined := JoinedList(ts, es, user);
    assert multiset(created + joined) == multiset(created) + multiset(joined);
    PartsRows(ts, es, user, created, joined);
    PartsInOrder(created, joined);
    created + joined
  }

  /** The rows of the two parts put together: each is a creator row of the
      user's own tournament or a participant row of one the user joined,
      and no tournament is in both parts. */
  lemma PartsRows(ts: seq<Tournament>, es: seq<Participant>, user: nat, created: seq<Listed>, joined: seq<Listed>)
    requires forall row :: row in created ==>
      row.t in ts && row.t.creator == user && row.caption == CreatorRole
      && row.participantCount == EdgeCount(es, row.t.id)
    requires forall row :: row in joined ==>
      row.t in ts && row.t.creator != user && IsMember(es, user, row.t.id)
      && row.caption == ParticipantRole && row.participantCount == EdgeCount(es, row.t.id)
    ensures var r := created + joined;
      forall row :: row in r ==> row.t in ts && row.participantCount == EdgeCount(es, row.t.id)
    ensures var r := created + joined;
      forall row :: row in r ==>
        || (row.caption == CreatorRole && row.t.creator == user)
        || (row.caption == ParticipantRole && row.t.creator != user && IsMember(es, user, row.t.id))
    ensures var r := created + joined;
      forall a, b :: a in r && b in r && a.caption == CreatorRole && b.caption == ParticipantRole ==> a.t != b.t
  {
  }

  /** Creator rows followed by participant rows, each part newest first. */
  lemma PartsInOrder(created: seq<Listed>, joined: seq<Listed>)
    requires forall row :: row in created ==> row.caption == CreatorRole
    requires forall row :: row in joined ==> row.caption == ParticipantRole
    requires forall i, j :: 0 <= i < j < |created| ==> created[i].t.createdAt >= created[j].t.createdAt
    requires forall i, j :: 0 <= i < j < |joined| ==> joined[i].t.createdAt >= joined[j].t.createdAt
    ensures var r := created + joined;
      forall i, j :: 0 <= i < j < |r| ==> !(r[i].caption == ParticipantRole && r[j].caption == CreatorRole)
    ensures var r := created + joined;
      forall i, j :: 0 <= i < j < |r| && r[i].caption == r[j].caption ==> r[i].t.createdAt >= r[j].t.createdAt
  {
    var r := created + joined;
    var n := |created|;
    forall i, j | 0 <= i < j < |r|
      ensures !(r[i].caption == ParticipantRole && r[j].caption == CreatorRole)
      ensures r[i].caption == r[j].caption ==> r[i].t.createdAt >= r[j].t.createdAt
    {
      if j < n {
        assert r[i] == created[i] && r[j] == created[j];
      } else if i >= n {
        assert r[i] == joined[i - n] && r[j] == joined[j - n];
      } else {
        assert r[i] == created[i] && r[j] == joined[j - n];
        assert created[i] in created && joined[j - n] in joined;
      }
    }
  }

  /** Every tournament the user created or belongs to is listed. */
  lemma UserTournamentsComplete(ts: seq<Tournament>, es: seq<Participant>, user: nat, t: Tournament)
    requires t in ts && (t.creator == user || IsMember(es, user, t.id))
    ensures exists row :: row in UserTournaments(ts, es, user) && row.t == t
  {
    var created := CreatedList(ts, es, user);
    var joined := JoinedList(ts, es, user);
    assert UserTournaments(ts, es, user) == created + joined;
    if t.creator == user {
      assert Listed(t, CreatorRole, EdgeCount(es, t.id)) in created;
    } else {
      assert Listed(t, ParticipantRole, EdgeCount(es, t.id)) in joined;
    }
  }

  // ---------------------------------------------------------------------
  // Writes

  /** `createTournament`. A missing name, start or end date gives 400 with
      nothing written; the dates are not compared with each other. The
      join code comes in as `code` (it is drawn at random and not checked
      for collisions). On success the tournament is appended with the
      requester as creator and the requester joins it at once. */
  method CreateTournament(db: Database, requester: nat, name: Option<string>, start: Option<int>,
                          end: Option<int>, code: string, now: int)
    returns (reply: Reply<Tournament>)
    requires db.Valid()
    modifies db`tournaments, db`participants, db`nextTournamentId
    ensures db.Valid()
    ensures !(GivenText(name) && start.Some? && end.Some?) ==>
      && reply == Err(StatusBadRequest, "Please provide tournament name, start date, and end date")
      && db.tournaments == old(db.tournaments) && db.participants == old(db.participants)
      && db.nextTournamentId == old(db.nextTournamentId)
    ensures GivenText(name) && start.Some? && end.Some? ==>
      var t := Tournament(old(db.nextTournamentId), name.value, code, requester, start.value, end.value, now);
      && db.tournaments == old(db.tournaments) + [t]
      && db.participants == old(db.participants) + [Participant(requester, t.id, now)]
      && db.nextTournamentId == old(db.nextTournamentId) + 1
      && reply == Ok(StatusCreated, t)
    ensures reply.Ok? ==> reply.body.creator == requester && IsMember(db.participants, requester, reply.body.id)
  {
    if !(GivenText(name) && start.Some? && end.Some?) {
      reply := Err(StatusBadRequest, "Please provide tournament name, start date, and end date");
      return;
    }
    var t := Tournament(db.nextTournamentId, name.value, code, requester, start.value, end.value, now);
    assert forall k :: 0 <= k < |db.participants| ==> db.participants[k].tournamentId != t.id;
    db.tournaments := db.tournaments + [t];
    db.nextTournamentId := db.nextTournamentId + 1;
    db.participants := db.participants + [Participant(requester, t.id, now)];
    assert db.participants[|db.participants| - 1] == Participant(requester, t.id, now);
    reply := Ok(StatusCreated, t);
  }

  /** The body of a successful join. */
  datatype Joined = Joined(message: string, tournament: Tournament)

  /** `SELECT * FROM tournaments WHERE tournament_code = $1`, first row. */
  function FindByCode(ts: seq<Tournament>, code: string): (r: Option<Tournament>)
    ensures r.Some? ==> r.value in ts && r.value.code == code
    ensures r.None? <==> forall t :: t in ts ==> t.code != code
  {
    Find(ts, (t: Tournament) => t.code == code)
  }

  /** The participant `INSERT`: a new edge to an existing tournament
      keeps the store valid and makes the user a member. */
  method AddEdge(db: Database, edge: Participant)
    requires db.Valid() && HasTournament(db.tournaments, edge.tournamentId)
    requires !IsMember(db.participants, edge.userId, edge.tournamentId)
    modifies db`participants
    ensures db.Valid()
    ensures db.participants == old(db.participants) + [edge]
    ensures IsMember(db.participants, edge.userId, edge.tournamentId)
  {
    db.participants := db.participants + [edge];
    assert db.participants[|db.participants| - 1] == edge;
  }

  /** `joinTournament`. A missing code gives 400, an unknown code 404 and
      an existing membership 400, all with nothing written. Otherwise
      exactly one edge is appended; then the requester's username is read,
      and one `tournament-update` goes to that tournament's room. When the
      requester's user row is missing that read fails: the reply is 500,
      the edge stays, and nothing is sent. */
  method JoinTournament(db: Database, requester: nat, code: Option<string>, now: int)
    returns (reply: Reply<Joined>, events: seq<Event>)
    requires db.Valid()
    modifies db`participants
    ensures db.Valid()
    ensures !GivenText(code) ==>
      reply == Err(StatusBadRequest, "Please provide tournament code") && events == []
      && db.participants == old(db.participants)
    ensures GivenText(code) && FindByCode(db.tournaments, code.value).None? ==>
      reply == Err(StatusNotFound, "Tournament not found with the provided code") && events == []
      && db.participants == old(db.participants)
    ensures GivenText(code) && FindByCode(db.tournaments, code.value).Some?
            && IsMember(old(db.participants), requester, FindByCode(db.tournaments, code.value).value.id) ==>
      reply == Err(StatusBadRequest, "You are already a participant in this tournament") && events == []
      && db.participants == old(db.participants)
    ensures GivenText(code) && FindByCode(db.tournaments, code.value).Some?
            && !IsMember(old(db.participants), requester, FindByCode(db.tournaments, code.value).value.id) ==>
      var t := FindByCode(db.tournaments, code.value).value;
      && db.participants == old(db.participants) + [Participant(requester, t.id, now)]
      && IsMember(db.participants, requester, t.id)
      && (FindUser(db.users, requester).None? ==>
            reply == Err(StatusServerError, ServerError) && events == [])
      && (FindUser(db.users, requester).Some? ==>
            && reply == Ok(StatusOk, Joined("Successfully joined tournament", t))
            && events == [TournamentUpdate(t.id, requester, FindUser(db.users, requester).value.username)])
  {
    if !GivenText(code) {
      reply := Err(StatusBadRequest, "Please provide tournament code");
      events := [];
      return;
    }
    var found := FindByCode(db.tournaments, code.value);
    if found.None? {
      reply := Err(StatusNotFound, "Tournament not found with the provided code");
      events := [];
      return;
    }
    var t := found.value;
    if IsMember(db.participants, requester, t.id) {
      reply := Err(StatusBadRequest, "You are already a participant in this tournament");
      events := [];
      return;
    }
    AddEdge(db, Participant(requester, t.id, now));
    var user := FindUser(db.users, requester);
    if user.None? {
      reply := Err(StatusServerError, ServerError);
      events := [];
      return;
    }
    events := [TournamentUpdate(t.id, requester, user.value.username)];
    reply := Ok(StatusOk, Joined("Successfully joined tournament", t));
  }
}

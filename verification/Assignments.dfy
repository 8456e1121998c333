// What a room is told to play, and how a server's answer becomes that
// (src/integrations/fruity/ServerTypes.ts, ProtocolAdapters.ts).
module Assignments {
  import opened Text
  import opened ProcedureKey

  datatype AssignmentState = Assigned | Held | Blocked | Idle

  /** A game definition: its content, and the identities a session may be parsed against. */
  datatype Definition = Definition(
    content: int,
    scheduledMatchId: Option<Str>,
    qbjMatchId: Option<Str>,
    roundRevision: Number,
    assignmentRevision: Option<Number>)

  /** `scheduledMatchIdOf`. */
  function MatchIdOf(d: Definition): Option<Str>
  {
    if d.scheduledMatchId.Some? then d.scheduledMatchId else d.qbjMatchId
  }

  datatype Assignment = Assignment(
    state: AssignmentState,
    definition: Option<Definition>,
    emergency: Option<Definition>,
    unsupportedProcedureVersion: Option<Number>,
    scheduledMatchId: Option<Str>,
    roundRevision: Option<Number>,
    assignmentRevision: Option<Number>)
  {
    function Evidence(): Evidence
    {
      ProcedureKey.Evidence(scheduledMatchId, roundRevision, assignmentRevision, unsupportedProcedureVersion)
    }

    /** The guard on the Start action, connection problems aside. */
    predicate Startable()
    {
      state.Assigned? && definition.Some? && scheduledMatchId.Some?
    }

    /** Whatever this assignment may be played as belongs to the match it names. */
    predicate Coherent()
    {
      scheduledMatchId.Some? ==>
        && (definition.Some? ==> MatchIdOf(definition.value) == scheduledMatchId)
        && (emergency.Some? ==> MatchIdOf(emergency.value) == scheduledMatchId)
    }
  }

  const NOTHING := Assignment(Idle, None, None, None, None, None, None)

  datatype Http<+T> = Ok(value: T) | Fail(status: Option<nat>)

  /** `readAssignmentStatus`: the operational half of a QBTCP assignment. */
  datatype Operational = Operational(
    state: AssignmentState, roundRevision: Option<Number>, assignmentRevision: Option<Number>)

  /** What reading a QBJ assignment document gave. */
  datatype Parsed =
    | Game(definition: Definition)
    | Choice
    | Backup
    | Broken(unsupportedVersion: Option<Number>, emergency: Option<Definition>)

  function RevisionsOf(o: Option<Operational>): (Option<Number>, Option<Number>)
  {
    if o.Some? then (o.value.roundRevision, o.value.assignmentRevision) else (None, None)
  }

  /** The game in a document that was read, with the document's own revisions when it is one. */
  function FromDocument(o: Option<Operational>, parsed: Parsed): Assignment
  {
    var (round, revision) := RevisionsOf(o);
    match parsed
    case Broken(version, emergency) =>
      Assignment(Assigned, None, if version.Some? then emergency else None, version, None, round, revision)
    case Choice => Assignment(Assigned, None, None, None, None, round, revision)
    case Backup => Assignment(Assigned, None, None, None, None, None, None)
    case Game(d) =>
      // An empty match id is as good as none.
      var id := if MatchIdOf(d).Some? && MatchIdOf(d).value != [] then MatchIdOf(d) else None;
      Assignment(Assigned, Some(d), None, None, id, Some(d.roundRevision), d.assignmentRevision)
  }

  /**
   * `readAssignment`. `status` is None when the surface has no status endpoint, and a status that
   * answered but could not be read is `Ok(None)`; a body of None is a 204.
   */
  function ReadAssignment(status: Option<Http<Option<Operational>>>, body: Http<Option<Parsed>>): Http<Assignment>
  {
    if status.Some? && status.value.Fail? && status.value.status in {None, Some(401), Some(403)}
    then Fail(status.value.status)
    else
      var o := if status.Some? && status.value.Ok? then status.value.value else None;
      var (round, revision) := RevisionsOf(o);
      if o.Some? && !o.value.state.Assigned? then
        Ok(Assignment(o.value.state, None, None, None, None, round, revision))
      else
        match body
        case Fail(code) => Fail(code)
        case Ok(None) =>
          Ok(Assignment(if o.Some? then o.value.state else Idle, None, None, None, None, round, revision))
        case Ok(Some(parsed)) => Ok(FromDocument(o, parsed))
  }

  /** The legacy surface: one object holding the block and the matchup. */
  datatype Matchup = Matchup(scheduledMatchId: Str, package: Option<Definition>)

  function ReadLegacy(blocked: bool, matchup: Option<Matchup>): Assignment
  {
    match matchup
    case None => NOTHING.(state := if blocked then Blocked else Idle)
    case Some(Matchup(id, None)) => NOTHING.(state := Assigned, scheduledMatchId := Some(id))
    case Some(Matchup(id, Some(d))) =>
      // The package is built from this matchup, so it carries this matchup's id.
      var package := d.(scheduledMatchId := Some(id));
      Assignment(if blocked then Blocked else Assigned, Some(package), None, None, Some(id),
                 Some(d.roundRevision), d.assignmentRevision)
  }

  /** On both surfaces a game that names a match is that match's game. */
  lemma ReadingIsCoherent(
    status: Option<Http<Option<Operational>>>, body: Http<Option<Parsed>>, blocked: bool, matchup: Option<Matchup>)
    ensures ReadAssignment(status, body).Ok? ==> ReadAssignment(status, body).value.Coherent()
    ensures ReadLegacy(blocked, matchup).Coherent()
  {
  }

  /**
   * QBTCP offers a game or an emergency definition only in the assigned state; the legacy surface offers a
   * game to a blocked room too.
   */
  lemma GameImpliesAssigned(
    status: Option<Http<Option<Operational>>>, body: Http<Option<Parsed>>, blocked: bool, matchup: Option<Matchup>)
    ensures
      var r := ReadAssignment(status, body);
      r.Ok? && (r.value.definition.Some? || r.value.emergency.Some?) ==> r.value.state.Assigned?
    ensures
      var a := ReadLegacy(blocked, matchup);
      a.emergency.None? && (a.definition.Some? ==> (a.state.Assigned? <==> !blocked))
  {
  }

  /**
   * The emergency override cannot be used over QBTCP: an assignment that offers one names no match, so
   * its approval files under no key and the overridden assignment is still not startable.
   */
  lemma EmergencyNeverStartable(status: Option<Http<Option<Operational>>>, body: Http<Option<Parsed>>)
    ensures
      var r := ReadAssignment(status, body);
      r.Ok? && r.value.emergency.Some? ==>
        && Key(r.value.Evidence()) == None
        && !r.value.(definition := r.value.emergency).Startable()
  {
  }

  // --- what is read, exactly ------------------------------------------------------------------------

  /** The answer of the status endpoint ends the read: nothing was answered, or the room was refused. */
  predicate StatusFails(status: Option<Http<Option<Operational>>>)
  {
    && status.Some? && status.value.Fail?
    && (status.value.status.None? || status.value.status == Some(401) || status.value.status == Some(403))
  }

  /** The state control gave, where there is one. */
  function StateGiven(status: Option<Http<Option<Operational>>>): Option<AssignmentState>
  {
    if status.Some? && status.value.Ok? && status.value.value.Some? then Some(status.value.value.value.state) else None
  }

  /** The assignment itself is looked at: the status does not fail and does not say anything but assigned. */
  predicate LooksAtTheGame(status: Option<Http<Option<Operational>>>)
  {
    !StatusFails(status) && (StateGiven(status).None? || StateGiven(status) == Some(Assigned))
  }

  /**
   * A read gives a game exactly when the assignment is looked at and is one, with the match it names, if it names
   * any, and its own revisions; it offers an emergency definition exactly when the document is broken by a
   * version this build does not know.
   */
  lemma ReadsExactlyWhen(status: Option<Http<Option<Operational>>>, body: Http<Option<Parsed>>)
    ensures
      var r := ReadAssignment(status, body);
      && (r.Fail? <==> StatusFails(status) || (LooksAtTheGame(status) && body.Fail?))
      && (r.Fail? ==> r.status == if StatusFails(status) then status.value.status else body.status)
      && (r.Ok? && !LooksAtTheGame(status) ==>
            Some(r.value.state) == StateGiven(status) && r.value.definition.None? && r.value.emergency.None?)
      && (forall d: Definition :: r.Ok? && r.value.definition == Some(d) <==>
            LooksAtTheGame(status) && body == Ok(Some(Game(d))))
      && (r.Ok? && r.value.definition.Some? ==> IsReadOf(r.value, r.value.definition.value))
      && (forall e: Definition :: r.Ok? && r.value.emergency == Some(e) <==>
            LooksAtTheGame(status) && exists v: Number :: body == Ok(Some(Broken(Some(v), Some(e)))))
  {
    if body.Ok? && body.value.Some? && body.value.value.Broken? && body.value.value.unsupportedVersion.Some? {
      var p := body.value.value;
      assert p == Broken(Some(p.unsupportedVersion.value), p.emergency);
    }
  }

  /** What an assignment that is this game says. */
  predicate IsReadOf(a: Assignment, d: Definition)
  {
    && a.state.Assigned? && a.roundRevision == Some(d.roundRevision) && a.assignmentRevision == d.assignmentRevision
    && a.unsupportedProcedureVersion.None?
    && match (d.scheduledMatchId, d.qbjMatchId)
       case (Some(id), _) => a.scheduledMatchId == (if |id| > 0 then Some(id) else None)
       case (None, Some(id)) => a.scheduledMatchId == (if |id| > 0 then Some(id) else None)
       case (None, None) => a.scheduledMatchId.None?
  }

  /** The round and assignment revisions control gave, where it gave any. */
  function RevisionsGiven(status: Option<Http<Option<Operational>>>): (Option<Number>, Option<Number>)
  {
    if status.Some? && status.value.Ok? && status.value.value.Some?
    then (status.value.value.value.roundRevision, status.value.value.value.assignmentRevision) else (None, None)
  }

  /**
   * A read without a game names no match. Its state is the one control gave (idle when nothing is assigned and
   * control gave none); a document that is not a game is still an assignment, and says which version it wants if
   * it is broken. Control's revisions go with it, except with a backup.
   */
  lemma ReadsWithoutAGame(status: Option<Http<Option<Operational>>>, body: Http<Option<Parsed>>)
    requires ReadAssignment(status, body).Ok? && ReadAssignment(status, body).value.definition.None?
    ensures
      var a, looks := ReadAssignment(status, body).value, LooksAtTheGame(status);
      && a.scheduledMatchId.None?
      && (StateGiven(status).Some? ==> a.state == StateGiven(status).value)
      && (StateGiven(status).None? ==> a.state == if body == Ok(None) then Idle else Assigned)
      && (forall v: Number :: a.unsupportedProcedureVersion == Some(v) <==>
            looks && body.Ok? && body.value.Some? && body.value.value.Broken?
            && body.value.value.unsupportedVersion == Some(v))
      && (a.roundRevision, a.assignmentRevision) ==
           if looks && body == Ok(Some(Backup)) then (None, None) else RevisionsGiven(status)
  {
  }

  /** The legacy surface: the matchup's game under the matchup's id, the state following the block. */
  lemma LegacyReadsExactly(blocked: bool, matchup: Option<Matchup>)
    ensures
      var a := ReadLegacy(blocked, matchup);
      && (a.state.Blocked? <==> blocked && (matchup.None? || matchup.value.package.Some?))
      && (a.state.Idle? <==> !blocked && matchup.None?)
      && !a.state.Held?
      && (a.definition.Some? <==> matchup.Some? && matchup.value.package.Some?)
      && (a.definition.Some? ==>
            var d, id := matchup.value.package.value, matchup.value.scheduledMatchId;
            && a.definition.value == d.(scheduledMatchId := Some(id))
            && a.roundRevision == Some(d.roundRevision) && a.assignmentRevision == d.assignmentRevision)
      && a.scheduledMatchId == (if matchup.Some? then Some(matchup.value.scheduledMatchId) else None)
  {
  }
}

// The connected room's polls and its one Start transaction, composed with the control server and with
// the part of the application that turns a start into a scoresheet
// (src/app/ConnectedRoom.tsx, src/app/App.tsx).
//
// Every `await` is a point where anything else may happen, so each coroutine is cut at its awaits and
// each piece is one event. Anything that can be outstanding (a request on its way, an answer on its way
// back, a tab claim) is part of the state; every event below may come at any time and in any order, and
// an event whose subject does not exist changes nothing. A room that was unmounted keeps its outstanding
// coroutines, as a component's closures do.
//
// The refs of one mounted component are the fields of `Room`. `log`, the positions stored in it and the
// numbers of starts are history: nothing the protocol does depends on them.
module StartProtocol {
  import opened Text
  import PK = ProcedureKey
  import opened Assignments
  import CS = ControlServer

  type Server = CS.State<Assignment, int>

  /** The room a component instance was rendered for: its `roomKey` and the token of its identity. */
  datatype Props = Props(key: Str, token: Str)

  datatype Failure = Failure(status: Option<nat>)

  datatype PollAnswer = PollOk(a: Assignment) | PollFailed(failure: Failure) | PollThrew

  datatype Poll = Poll(props: Props, answer: Option<PollAnswer>)

  datatype Ticket = Ticket(key: Str, sequence: nat)

  /** Where a start transaction is. The positions are those of the log entries that got it there. */
  datatype Pc =
    | OpenSent
    | OpenAnswered(sessionId: nat, openedAt: nat)
    | ReadSent(sessionId: nat, openedAt: nat)
    | ReadAnswered(sessionId: nat, openedAt: nat, a: Assignment, readAt: nat)
    | Refused(failure: Failure)
    | Ensuring(sessionId: nat, handedAt: nat)
    | Claiming(sessionId: nat, recordId: Str, writtenAt: nat)
    | Returned

  datatype Start = Start(number: nat, props: Props, generation: nat, expected: Str, pc: Pc)

  /** The React state that decides whether Start is offered. */
  datatype View = View(assignment: Option<Assignment>, forbidden: bool, credentialProblem: bool)

  datatype Room = Room(
    mounted: bool,
    rendered: Props,
    flushed: Props,
    generation: nat,
    effectGeneration: nat,
    request: Option<Ticket>,
    sequence: nat,
    polls: map<nat, Poll>,
    view: View,
    approvedKey: Option<Str>,
    approvedAt: nat,
    starting: bool,
    starts: seq<Start>,
    startCount: nat)

  datatype Record = Record(id: Str, active: bool)

  datatype Connection = Connection(props: Props, sessionId: nat, gameRecordId: Str)

  datatype Screen = Elsewhere | InRoom | Scoring(recordId: Str) | Completed(recordId: Str) | Duplicate(recordId: Str)

  datatype App = App(storeReady: bool, screen: Screen, connection: Option<Connection>)

  datatype StartId = StartId(room: nat, number: nat)

  datatype Entry =
    | SessionOpened(matchId: Str, sessionId: nat)
    | AssignmentRead(a: Assignment)
    | Approved(room: nat, a: Assignment)
    | PollApplied(room: nat, sequence: nat, key: Str, currentKey: Str)
    | HandedOff(who: StartId, sessionId: nat, definition: Definition, expected: Str,
                openedAt: nat, readAt: nat, approvedAt: nat)
    | ConnectionWritten(who: StartId, props: Props, recordId: Str, sessionId: nat, persisted: bool, handedAt: nat)
    | ScorerMounted(who: StartId, recordId: Str, writtenAt: nat)

  datatype Sys = Sys(server: Server, app: App, rooms: seq<Room>, log: seq<Entry>)

  datatype RoomEvent =
    // The host re-rendering, React running the effects of the last render, and the component going away.
    | Commit(props: Props)
    | Flush
    | Unmount
    // A poll: issued (from the interval or a button), answered by the server or lost, and resumed.
    | PollIssue(fromButton: bool)
    | PollServed(sequence: nat)
    | PollLost(sequence: nat, answer: PollAnswer)
    | PollResumed(sequence: nat)
    // A person.
    | Approve
    | Press
    // A start transaction, cut at its awaits.
    | OpenServed(i: nat)
    | ReadServed(i: nat)
    | RequestLost(i: nat, failure: Failure)
    | OpenResumed(i: nat)
    | ReadResumed(i: nat)
    | RecordEnsured(i: nat, record: Option<Record>, persisted: bool)
    | ClaimResumed(i: nat, held: bool)
    | Thrown(i: nat)
    | Finished(i: nat)

  datatype Event =
    | ServerDoes(q: CS.Request<Assignment, int>)
    | Mount(props: Props)
    | Navigate(screen: Screen)
    | StoreOpened
    | In(room: nat, e: RoomEvent)

  datatype Outcome = Outcome(server: Server, app: App, room: Room, entry: Option<Entry>)

  /** What one piece of a start does to its own transaction: nothing, move to a stage, or end. */
  datatype Move = Stay | To(i: nat, pc: Pc) | End(i: nat)

  datatype Effect = Effect(server: Server, app: App, view: View, move: Move, entry: Option<Entry>)

  function NewRoom(props: Props): Room
  {
    Room(true, props, props, 1, 1, None, 0, map[], View(None, false, false), None, 0, false, [], 0)
  }

  /** `noteFailure`, as far as later behaviour depends on it. */
  function NoteFailure(view: View, failure: Failure): View
  {
    if failure.status == Some(401) then view.(credentialProblem := true, forbidden := false)
    else if failure.status == Some(403) then view.(forbidden := true)
    else view
  }

  /** The assignment a read yields once an approval on file for it has been applied. */
  function Effective(a: Assignment, approvedKey: Option<Str>): Assignment
  {
    if a.definition.None? && a.emergency.Some? && PK.HasApproved(approvedKey, a.Evidence())
    then a.(definition := a.emergency)
    else a
  }

  predicate IsCurrent(room: Room, st: Start)
  {
    room.generation == st.generation && room.flushed.key == st.props.key
  }

  /** Moving a transaction. `End` is the `finally` of `start`. */
  function ApplyMove(room: Room, move: Move): Room
  {
    match move
    case Stay => room
    case To(i, pc) =>
      if i < |room.starts| then room.(starts := room.starts[i := room.starts[i].(pc := pc)]) else room
    case End(i) =>
      if i < |room.starts| then
        room.(
          starts := room.starts[..i] + room.starts[i + 1..],
          starting := room.starting && room.generation != room.starts[i].generation)
      else room
  }

  // --- rendering and effects ----------------------------------------------------------------------

  function FlushEffects(room: Room): Room
  {
    if !room.mounted then room
    else if room.rendered.key == room.flushed.key then room.(flushed := room.rendered)
    else
      var cleaned := if room.generation == room.effectGeneration then room.generation + 1 else room.generation;
      room.(flushed := room.rendered, generation := cleaned + 1, effectGeneration := cleaned + 1)
  }

  function UnmountRoom(room: Room): Room
  {
    if !room.mounted then room
    else
      room.(mounted := false,
            generation := if room.generation == room.effectGeneration then room.generation + 1 else room.generation)
  }

  // --- polls ----------------------------------------------------------------------------------------

  function IssuePoll(room: Room, fromButton: bool): Room
  {
    var props := if fromButton then room.rendered else room.flushed;
    if !room.mounted || (room.request.Some? && room.request.value.key == props.key) then room
    else
      var n := room.sequence + 1;
      room.(sequence := n, request := Some(Ticket(props.key, n)), polls := room.polls[n := Poll(props, None)])
  }

  predicate PollIsCurrent(room: Room, n: nat, poll: Poll)
  {
    room.flushed.key == poll.props.key && room.request.Some? && room.request.value.sequence == n
  }

  function ApplyPoll(room: Room, a: Assignment): Room
  {
    room.(
      view := View(Some(Effective(a, room.approvedKey)), false, false),
      approvedKey := if room.approvedKey == PK.Key(a.Evidence()) then room.approvedKey else None)
  }

  /** The continuation of `loadAssignment`, `finally` included. */
  function ResumePoll(room: Room, r: nat, n: nat): (Room, Option<Entry>)
  {
    if n !in room.polls || room.polls[n].answer.None? then (room, None)
    else
      var poll := room.polls[n];
      var done := room.(
        polls := room.polls - {n},
        request := if room.request.Some? && room.request.value.sequence == n then None else room.request);
      if !PollIsCurrent(room, n, poll) then (done, None)
      else
        match poll.answer.value
        case PollThrew => (done, None)
        case PollFailed(failure) => (done.(view := NoteFailure(done.view, failure)), None)
        case PollOk(a) => (ApplyPoll(done, a), Some(PollApplied(r, n, poll.props.key, room.flushed.key)))
  }

  /** What the server answers to a read of the assignment. */
  function ServeRead(server: Server, token: Str): PollAnswer
  {
    match CS.Step(server, CS.GetAssignment(token)).1
    case Document(a) => PollOk(a)
    case NoContent => PollOk(NOTHING)
    case Refused(status) => PollFailed(Failure(Some(status)))
    case _ => PollThrew
  }

  function ServePoll(room: Room, n: nat, answer: PollAnswer): Room
  {
    if n !in room.polls || room.polls[n].answer.Some? then room
    else room.(polls := room.polls[n := room.polls[n].(answer := Some(answer))])
  }

  // --- the start transaction ------------------------------------------------------------------------

  predicate MayPress(room: Room)
  {
    && room.mounted && !room.starting
    && room.view.assignment.Some? && room.view.assignment.value.Startable()
    && !room.view.forbidden && !room.view.credentialProblem
  }

  function PressStart(room: Room): Room
  {
    if !MayPress(room) then room
    else
      var expected := room.view.assignment.value.scheduledMatchId.value;
      var st := Start(room.startCount, room.rendered, room.generation, expected, OpenSent);
      room.(starting := true, starts := room.starts + [st], startCount := room.startCount + 1)
  }

  function ServeOpen(server: Server, app: App, view: View, st: Start, i: nat, clock: nat): Effect
  {
    var (after, reply) := CS.Step(server, CS.OpenSession(st.props.token, st.expected));
    match reply
    case Opened(id, _) => Effect(after, app, view, To(i, OpenAnswered(id, clock)), Some(SessionOpened(st.expected, id)))
    case Refused(status) => Effect(after, app, view, To(i, Pc.Refused(Failure(Some(status)))), None)
    case _ => Effect(server, app, view, Stay, None)
  }

  function ServeKickoffRead(server: Server, app: App, view: View, st: Start, i: nat, clock: nat): Effect
    requires st.pc.ReadSent?
  {
    match ServeRead(server, st.props.token)
    case PollOk(a) =>
      Effect(server, app, view, To(i, ReadAnswered(st.pc.sessionId, st.pc.openedAt, a, clock)), Some(AssignmentRead(a)))
    case PollFailed(failure) => Effect(server, app, view, To(i, Pc.Refused(failure)), None)
    case PollThrew => Effect(server, app, view, Stay, None)
  }

  /** After `openSession` answered, or either request was refused. */
  function ResumeOpen(server: Server, app: App, view: View, st: Start, i: nat, isCurrent: bool): Effect
  {
    match st.pc
    case Refused(failure) => Effect(server, app, if isCurrent then NoteFailure(view, failure) else view, End(i), None)
    case OpenAnswered(id, at) => Effect(server, app, view, if isCurrent then To(i, ReadSent(id, at)) else End(i), None)
    case _ => Effect(server, app, view, Stay, None)
  }

  /** After the kickoff read: the definition is handed over, or the transaction ends. */
  function ResumeRead(server: Server, app: App, room: Room, r: nat, st: Start, i: nat, clock: nat): Effect
    requires st.pc.ReadAnswered?
  {
    if !IsCurrent(room, st) then Effect(server, app, room.view, End(i), None)
    else
      var value := Effective(st.pc.a, room.approvedKey);
      var shown := room.view.(assignment := Some(value));
      if value.definition.None? || value.scheduledMatchId != Some(st.expected)
      then Effect(server, app, shown, End(i), None)
      else
        var entry := HandedOff(StartId(r, st.number), st.pc.sessionId, value.definition.value, st.expected,
                               st.pc.openedAt, st.pc.readAt, room.approvedAt);
        var next := if app.storeReady then Ensuring(st.pc.sessionId, clock) else Returned;
        Effect(server, app, shown, To(i, next), Some(entry))
  }

  /** `onConnected` after `ensureRecord`: the connection is written, then the tab claim is asked for. */
  function ResumeEnsured(
    server: Server, app: App, room: Room, r: nat, st: Start, i: nat, record: Option<Record>, persisted: bool, clock: nat
  ): Effect
    requires st.pc.Ensuring?
  {
    if record.None? || !IsCurrent(room, st) then Effect(server, app, room.view, To(i, Returned), None)
    else
      var id := record.value.id;
      var written := app.(connection := Some(Connection(st.props, st.pc.sessionId, id)));
      var entry :=
        ConnectionWritten(StartId(r, st.number), st.props, id, st.pc.sessionId, persisted, st.pc.handedAt);
      if !persisted then Effect(server, written, room.view, To(i, Returned), Some(entry))
      else if !record.value.active then
        Effect(server, written.(screen := Completed(id)), room.view, To(i, Returned), Some(entry))
      else Effect(server, written, room.view, To(i, Claiming(st.pc.sessionId, id, clock)), Some(entry))
  }

  /** `openRecord` after `takeClaim`. */
  function ResumeClaim(server: Server, app: App, room: Room, r: nat, st: Start, i: nat, held: bool): Effect
    requires st.pc.Claiming?
  {
    if !IsCurrent(room, st) then Effect(server, app, room.view, To(i, Returned), None)
    else if !held then Effect(server, app.(screen := Duplicate(st.pc.recordId)), room.view, To(i, Returned), None)
    else
      Effect(server, app.(screen := Scoring(st.pc.recordId)), room.view, To(i, Returned),
             Some(ScorerMounted(StartId(r, st.number), st.pc.recordId, st.pc.writtenAt)))
  }

  /** The piece of start transaction `e.i` that event `e` runs, if it is at that stage. */
  function StartStep(server: Server, app: App, room: Room, r: nat, clock: nat, e: RoomEvent): Effect
    requires IsStartEvent(e)
  {
    var idle := Effect(server, app, room.view, Stay, None);
    if e.i >= |room.starts| then idle
    else
      var st := room.starts[e.i];
      match e
      case OpenServed(i) => if st.pc.OpenSent? then ServeOpen(server, app, room.view, st, i, clock) else idle
      case ReadServed(i) => if st.pc.ReadSent? then ServeKickoffRead(server, app, room.view, st, i, clock) else idle
      case RequestLost(i, failure) =>
        if st.pc.OpenSent? || st.pc.ReadSent? then idle.(move := To(i, Pc.Refused(failure))) else idle
      case OpenResumed(i) => ResumeOpen(server, app, room.view, st, i, IsCurrent(room, st))
      case ReadResumed(i) => if st.pc.ReadAnswered? then ResumeRead(server, app, room, r, st, i, clock) else idle
      case RecordEnsured(i, record, persisted) =>
        if st.pc.Ensuring? then ResumeEnsured(server, app, room, r, st, i, record, persisted, clock) else idle
      case ClaimResumed(i, held) => if st.pc.Claiming? then ResumeClaim(server, app, room, r, st, i, held) else idle
      case Thrown(i) => idle.(move := End(i))
      case Finished(i) => if st.pc.Returned? then idle.(move := End(i)) else idle
      case _ => idle
  }

  predicate IsStartEvent(e: RoomEvent)
  {
    || e.OpenServed? || e.ReadServed? || e.RequestLost? || e.OpenResumed? || e.ReadResumed?
    || e.RecordEnsured? || e.ClaimResumed? || e.Thrown? || e.Finished?
  }

  /** The events of the host, the polls and the person at the screen. */
  function RoomEventStep(server: Server, room: Room, r: nat, clock: nat, e: RoomEvent): (Room, Option<Entry>)
    requires !IsStartEvent(e)
  {
    match e
    case Commit(props) => (if room.mounted then room.(rendered := props) else room, None)
    case Flush => (FlushEffects(room), None)
    case Unmount => (UnmountRoom(room), None)
    case PollIssue(fromButton) => (IssuePoll(room, fromButton), None)
    case PollServed(n) =>
      (if n in room.polls then ServePoll(room, n, ServeRead(server, room.polls[n].props.token)) else room, None)
    case PollLost(n, answer) => (if answer.PollOk? then room else ServePoll(room, n, answer), None)
    case PollResumed(n) => ResumePoll(room, r, n)
    case Approve =>
      if !room.mounted || room.view.assignment.None? || room.view.assignment.value.emergency.None? then (room, None)
      else
        var a := room.view.assignment.value;
        (room.(approvedKey := PK.Key(a.Evidence()), approvedAt := clock,
               view := room.view.(assignment := Some(a.(definition := a.emergency)))),
         Some(Approved(r, a)))
    case Press => (PressStart(room), None)
  }

  function RoomStep(server: Server, app: App, room: Room, r: nat, clock: nat, e: RoomEvent): Outcome
  {
    if IsStartEvent(e) then
      var f := StartStep(server, app, room, r, clock, e);
      Outcome(f.server, f.app, ApplyMove(room.(view := f.view), f.move), f.entry)
    else
      var (after, entry) := RoomEventStep(server, room, r, clock, e);
      Outcome(server, app, after, entry)
  }

  /** Control only ever assigns games that are the game they say they are (see `ReadingIsCoherent`). */
  ghost predicate Plausible(e: Event)
  {
    e.ServerDoes? && e.q.Assign? && e.q.round.Some? ==> e.q.round.value.document.Coherent()
  }

  function Next(s: Sys, e: Event): Sys
  {
    match e
    case ServerDoes(q) => s.(server := CS.Step(s.server, q).0)
    case Mount(props) => s.(rooms := s.rooms + [NewRoom(props)])
    case Navigate(screen) => s.(app := s.app.(screen := screen))
    case StoreOpened => s.(app := s.app.(storeReady := true))
    case In(r, re) =>
      if r >= |s.rooms| then s
      else
        var o := RoomStep(s.server, s.app, s.rooms[r], r, |s.log|, re);
        Sys(o.server, o.app, s.rooms[r := o.room], if o.entry.Some? then s.log + [o.entry.value] else s.log)
  }

  function Run(s: Sys, es: seq<Event>): Sys
    decreases |es|
  {
    if es == [] then s else Run(Next(s, es[0]), es[1..])
  }

  function Initial(): Sys
  {
    Sys(CS.Initial(None), App(false, Elsewhere, None), [], [])
  }
}

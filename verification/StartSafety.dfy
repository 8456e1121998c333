// What holds in every run of StartProtocol.
module StartSafety {
  import opened Text
  import PK = ProcedureKey
  import opened Assignments
  import CS = ControlServer
  import opened StartProtocol

  // --- the invariant --------------------------------------------------------------------------------

  /** The start lock and the generation counter. */
  ghost predicate RefsOk(room: Room)
  {
    && |room.starts| <= 1
    && (room.starts != [] ==> room.starting)
    && 1 <= room.effectGeneration <= room.generation
    && (room.mounted ==> room.generation == room.effectGeneration)
    && (room.starting && room.starts == [] ==> room.generation > 1)
    && (forall i :: 0 <= i < |room.starts| ==>
          && room.starts[i].number < room.startCount
          && room.starts[i].generation <= room.generation)
    && (forall i :: 0 <= i < |room.starts| && room.generation == 1 ==> room.starts[i].generation == 1)
  }

  /** Only the newest poll holds the ticket, and nothing newer than it was applied. */
  ghost predicate PollsOk(log: seq<Entry>, r: nat, room: Room)
  {
    && (room.request.Some? ==> room.request.value.sequence == room.sequence)
    && (forall i :: 0 <= i < |log| && log[i].PollApplied? && log[i].room == r ==>
          && log[i].sequence <= room.sequence
          && (room.request.Some? ==> log[i].sequence < room.sequence))
  }

  /** An approved key was filed by a person, at the place in the log the room remembers. */
  ghost predicate ApprovalOk(log: seq<Entry>, r: nat, room: Room)
  {
    room.approvedKey.Some? ==>
      && room.approvedAt < |log|
      && log[room.approvedAt].Approved?
      && log[room.approvedAt].room == r
      && PK.Key(log[room.approvedAt].a.Evidence()) == room.approvedKey
  }

  ghost predicate WasOpened(log: seq<Entry>, at: nat, matchId: Str, sessionId: nat)
  {
    at < |log| && log[at] == SessionOpened(matchId, sessionId)
  }

  ghost predicate NotYetHanded(log: seq<Entry>, who: StartId)
  {
    forall i :: 0 <= i < |log| && log[i].HandedOff? ==> log[i].who != who
  }

  /** Each stage of a transaction points at the log entries that led to it. */
  ghost predicate StartOk(log: seq<Entry>, r: nat, st: Start)
  {
    var who := StartId(r, st.number);
    match st.pc
    case OpenSent => NotYetHanded(log, who)
    case OpenAnswered(id, at) => WasOpened(log, at, st.expected, id) && NotYetHanded(log, who)
    case ReadSent(id, at) => WasOpened(log, at, st.expected, id) && NotYetHanded(log, who)
    case ReadAnswered(id, at, a, readAt) =>
      && WasOpened(log, at, st.expected, id) && NotYetHanded(log, who)
      && at < readAt < |log| && log[readAt] == AssignmentRead(a)
    case Refused(_) => true
    case Ensuring(id, at) =>
      && at < |log| && log[at].HandedOff? && log[at].who == who && log[at].sessionId == id
      && log[at].expected == st.expected
    case Claiming(id, recordId, at) =>
      && at < |log| && log[at].ConnectionWritten? && log[at].persisted
      && log[at].who == who && log[at].recordId == recordId && log[at].sessionId == id
    case Returned => true
  }

  ghost predicate StartsOk(log: seq<Entry>, r: nat, room: Room)
  {
    (forall i :: 0 <= i < |room.starts| ==> StartOk(log, r, room.starts[i])) && NumbersOk(log, r, room.startCount)
  }

  /** Every hand-over of the room is by a start it has begun. */
  ghost predicate NumbersOk(log: seq<Entry>, r: nat, count: nat)
  {
    forall i :: 0 <= i < |log| && log[i].HandedOff? && log[i].who.room == r ==> log[i].who.number < count
  }

  ghost predicate RoomOk(log: seq<Entry>, r: nat, room: Room)
  {
    RefsOk(room) && PollsOk(log, r, room) && ApprovalOk(log, r, room) && StartsOk(log, r, room)
  }

  /** An emergency definition was handed over on the strength of the approval at `h.approvedAt`. */
  ghost predicate ApprovedBefore(log: seq<Entry>, i: nat, h: Entry, a: Assignment)
    requires h.HandedOff?
  {
    && a.emergency == Some(h.definition)
    && h.approvedAt < i <= |log|
    && log[h.approvedAt].Approved?
    && log[h.approvedAt].room == h.who.room
    && PK.HasApproved(PK.Key(log[h.approvedAt].a.Evidence()), a.Evidence())
  }

  ghost predicate HandOffOk(log: seq<Entry>, i: nat, h: Entry)
    requires h.HandedOff?
  {
    && h.openedAt < h.readAt < i <= |log|
    && log[h.openedAt] == SessionOpened(h.expected, h.sessionId)
    && log[h.readAt].AssignmentRead?
    && log[h.readAt].a.scheduledMatchId == Some(h.expected)
    && MatchIdOf(h.definition) == Some(h.expected)
    && (if log[h.readAt].a.definition.Some? then log[h.readAt].a.definition == Some(h.definition)
        else ApprovedBefore(log, i, h, log[h.readAt].a))
    && (forall j :: 0 <= j < i && log[j].HandedOff? ==> log[j].who != h.who)
  }

  /** What an entry says about everything logged before it. */
  ghost predicate EntryOk(log: seq<Entry>, i: nat, e: Entry)
    requires i <= |log|
  {
    match e
    case SessionOpened(_, _) => true
    case AssignmentRead(a) => a.Coherent()
    case Approved(_, a) => true
    case PollApplied(r, n, key, currentKey) =>
      key == currentKey && forall j :: 0 <= j < i && log[j].PollApplied? && log[j].room == r ==> log[j].sequence < n
    case HandedOff(_, _, _, _, _, _, _) => HandOffOk(log, i, e)
    case ConnectionWritten(who, _, _, id, _, at) =>
      at < i && log[at].HandedOff? && log[at].who == who && log[at].sessionId == id
    case ScorerMounted(who, recordId, at) =>
      at < i && log[at].ConnectionWritten? && log[at].persisted && log[at].who == who && log[at].recordId == recordId
  }

  function RoomOf(e: Entry): Option<nat>
  {
    match e
    case SessionOpened(_, _) => None
    case AssignmentRead(_) => None
    case Approved(r, _) => Some(r)
    case PollApplied(r, _, _, _) => Some(r)
    case HandedOff(who, _, _, _, _, _, _) => Some(who.room)
    case ConnectionWritten(who, _, _, _, _, _) => Some(who.room)
    case ScorerMounted(who, _, _) => Some(who.room)
  }

  ghost predicate ServerOk(server: Server)
  {
    && CS.SessionsValid(server)
    && (server.served.Some? ==> server.served.value.document.Coherent())
  }

  /** Every session the rooms were told about is one the server still holds for that match. */
  ghost predicate SessionsHeld(server: Server, log: seq<Entry>)
  {
    forall i :: 0 <= i < |log| && log[i].SessionOpened? ==> CS.Holds(server, log[i].sessionId, log[i].matchId)
  }

  ghost predicate LogOk(log: seq<Entry>)
  {
    forall i :: 0 <= i < |log| ==> EntryOk(log, i, log[i])
  }

  ghost predicate LogInRooms(log: seq<Entry>, rooms: nat)
  {
    forall i :: 0 <= i < |log| && RoomOf(log[i]).Some? ==> RoomOf(log[i]).value < rooms
  }

  ghost predicate SysOk(s: Sys)
  {
    && ServerOk(s.server)
    && SessionsHeld(s.server, s.log)
    && LogOk(s.log)
    && LogInRooms(s.log, |s.rooms|)
    && forall r :: 0 <= r < |s.rooms| ==> RoomOk(s.log, r, s.rooms[r])
  }

  // --- one step of one room -------------------------------------------------------------------------

  function Logged(log: seq<Entry>, entry: Option<Entry>): seq<Entry>
  {
    if entry.Some? then log + [entry.value] else log
  }

  /** What holds of a room whatever a transaction shows on screen and however it moves. */
  lemma MoveKeepsRefs(room: Room, view: View, move: Move)
    requires RefsOk(room)
    ensures RefsOk(ApplyMove(room.(view := view), move))
  {
  }

  lemma RoomEventKeepsRefs(server: Server, room: Room, r: nat, clock: nat, e: RoomEvent)
    requires !IsStartEvent(e) && RefsOk(room)
    ensures RefsOk(RoomEventStep(server, room, r, clock, e).0)
  {
    match e {
      case Flush => LeavingKeepsRefs(room);
      case Unmount => LeavingKeepsRefs(room);
      case Press => PressKeepsRefs(room);
      case _ => OthersKeepRefs(server, room, r, clock, e);
    }
  }

  lemma LeavingKeepsRefs(room: Room)
    requires RefsOk(room)
    ensures RefsOk(FlushEffects(room)) && RefsOk(UnmountRoom(room))
  {
  }

  lemma PressKeepsRefs(room: Room)
    requires RefsOk(room)
    ensures RefsOk(PressStart(room))
  {
  }

  lemma OthersKeepRefs(server: Server, room: Room, r: nat, clock: nat, e: RoomEvent)
    requires !IsStartEvent(e) && !e.Flush? && !e.Unmount? && !e.Press? && RefsOk(room)
    ensures RefsOk(RoomEventStep(server, room, r, clock, e).0)
  {
  }

  lemma RefsStep(server: Server, app: App, room: Room, r: nat, clock: nat, e: RoomEvent)
    requires RefsOk(room)
    ensures RefsOk(RoomStep(server, app, room, r, clock, e).room)
  {
    if IsStartEvent(e) {
      var f := StartStep(server, app, room, r, clock, e);
      MoveKeepsRefs(room, f.view, f.move);
    } else {
      RoomEventKeepsRefs(server, room, r, clock, e);
    }
  }

  lemma MoveKeepsPollsAndApproval(log: seq<Entry>, entry: Option<Entry>, r: nat, room: Room, view: View, move: Move)
    requires PollsOk(log, r, room) && ApprovalOk(log, r, room)
    requires entry.Some? ==> !entry.value.PollApplied?
    ensures PollsOk(Logged(log, entry), r, ApplyMove(room.(view := view), move))
    ensures ApprovalOk(Logged(log, entry), r, ApplyMove(room.(view := view), move))
  {
  }

  lemma RoomEventKeepsPolls(server: Server, room: Room, r: nat, log: seq<Entry>, e: RoomEvent)
    requires !IsStartEvent(e) && PollsOk(log, r, room)
    ensures
      var (after, entry) := RoomEventStep(server, room, r, |log|, e);
      PollsOk(Logged(log, entry), r, after)
  {
  }

  lemma RoomEventKeepsApproval(server: Server, room: Room, r: nat, log: seq<Entry>, e: RoomEvent)
    requires !IsStartEvent(e) && ApprovalOk(log, r, room)
    ensures
      var (after, entry) := RoomEventStep(server, room, r, |log|, e);
      ApprovalOk(Logged(log, entry), r, after)
  {
  }

  lemma StartEntryIsNoPoll(server: Server, app: App, room: Room, r: nat, clock: nat, e: RoomEvent)
    requires IsStartEvent(e)
    ensures
      var f := StartStep(server, app, room, r, clock, e);
      f.entry.Some? ==> !f.entry.value.PollApplied? && RoomOf(f.entry.value) in {None, Some(r)}
  {
  }

  lemma StartOkGrows(log: seq<Entry>, entry: Option<Entry>, r: nat, st: Start)
    requires StartOk(log, r, st)
    requires entry.Some? && entry.value.HandedOff? ==> entry.value.who != StartId(r, st.number)
    ensures StartOk(Logged(log, entry), r, st)
  {
  }

  /** The stage a transaction moves to points at log entries that are there. */
  ghost predicate MoveOk(log: seq<Entry>, r: nat, room: Room, f: Effect)
  {
    && (f.move.To? && f.move.i < |room.starts| ==>
          StartOk(Logged(log, f.entry), r, room.starts[f.move.i].(pc := f.move.pc)))
    && (f.entry.Some? && f.entry.value.HandedOff? ==>
          && f.move.To? && f.move.i < |room.starts|
          && f.entry.value.who == StartId(r, room.starts[f.move.i].number))
  }

  lemma MoveKeepsStarts(log: seq<Entry>, r: nat, room: Room, f: Effect)
    requires RefsOk(room) && StartsOk(log, r, room) && MoveOk(log, r, room, f)
    ensures StartsOk(Logged(log, f.entry), r, ApplyMove(room.(view := f.view), f.move))
  {
    NumbersGrow(log, f.entry, r, room.startCount);
    if f.move.Stay? || (f.move.To? && f.move.i >= |room.starts|) {
      if |room.starts| > 0 {
        StartOkGrows(log, f.entry, r, room.starts[0]);
      }
    }
  }

  lemma NumbersGrow(log: seq<Entry>, entry: Option<Entry>, r: nat, count: nat)
    requires NumbersOk(log, r, count)
    requires entry.Some? && entry.value.HandedOff? && entry.value.who.room == r ==> entry.value.who.number < count
    ensures NumbersOk(Logged(log, entry), r, count)
  {
  }

  lemma RequestMoveOk(server: Server, app: App, room: Room, r: nat, log: seq<Entry>, e: RoomEvent)
    requires e.OpenServed? || e.ReadServed? || e.RequestLost? || e.OpenResumed? || e.Thrown? || e.Finished?
    requires StartsOk(log, r, room)
    ensures MoveOk(log, r, room, StartStep(server, app, room, r, |log|, e))
  {
  }

  lemma HandMoveOk(server: Server, app: App, room: Room, r: nat, log: seq<Entry>, e: RoomEvent)
    requires e.ReadResumed? || e.RecordEnsured? || e.ClaimResumed?
    requires StartsOk(log, r, room)
    ensures MoveOk(log, r, room, StartStep(server, app, room, r, |log|, e))
  {
  }

  lemma RoomEventKeepsStarts(server: Server, room: Room, r: nat, log: seq<Entry>, e: RoomEvent)
    requires !IsStartEvent(e) && StartsOk(log, r, room)
    ensures
      var (after, entry) := RoomEventStep(server, room, r, |log|, e);
      StartsOk(Logged(log, entry), r, after)
  {
    var (after, entry) := RoomEventStep(server, room, r, |log|, e);
    forall i | 0 <= i < |room.starts| ensures StartOk(Logged(log, entry), r, room.starts[i]) {
      StartOkGrows(log, entry, r, room.starts[i]);
    }
    assert e.Press? || after.starts == room.starts;
  }

  lemma StartsStep(server: Server, app: App, room: Room, r: nat, log: seq<Entry>, e: RoomEvent)
    requires RefsOk(room) && StartsOk(log, r, room)
    ensures
      var o := RoomStep(server, app, room, r, |log|, e);
      StartsOk(Logged(log, o.entry), r, o.room)
  {
    if !IsStartEvent(e) {
      RoomEventKeepsStarts(server, room, r, log, e);
    } else {
      if e.ReadResumed? || e.RecordEnsured? || e.ClaimResumed? {
        HandMoveOk(server, app, room, r, log, e);
      } else {
        RequestMoveOk(server, app, room, r, log, e);
      }
      MoveKeepsStarts(log, r, room, StartStep(server, app, room, r, |log|, e));
    }
  }

  lemma RoomStepOk(server: Server, app: App, room: Room, r: nat, log: seq<Entry>, e: RoomEvent)
    requires RoomOk(log, r, room)
    ensures
      var o := RoomStep(server, app, room, r, |log|, e);
      RoomOk(Logged(log, o.entry), r, o.room)
  {
    RefsStep(server, app, room, r, |log|, e);
    StartsStep(server, app, room, r, log, e);
    if IsStartEvent(e) {
      var f := StartStep(server, app, room, r, |log|, e);
      StartEntryIsNoPoll(server, app, room, r, |log|, e);
      MoveKeepsPollsAndApproval(log, f.entry, r, room, f.view, f.move);
    } else {
      RoomEventKeepsPolls(server, room, r, log, e);
      RoomEventKeepsApproval(server, room, r, log, e);
    }
  }

  // --- what a step logs -----------------------------------------------------------------------------

  lemma HandOffIsJustified(server: Server, app: App, room: Room, r: nat, log: seq<Entry>, i: nat)
    requires LogOk(log) && RoomOk(log, r, room)
    ensures
      var f := StartStep(server, app, room, r, |log|, ReadResumed(i));
      f.entry.Some? ==> f.entry.value.HandedOff? && HandOffOk(log, |log|, f.entry.value)
  {
    if i < |room.starts| && room.starts[i].pc.ReadAnswered? {
      var pc := room.starts[i].pc;
      assert EntryOk(log, pc.readAt, log[pc.readAt]);
      assert pc.a.Coherent();
    }
  }

  lemma StartEntryOk(server: Server, app: App, room: Room, r: nat, log: seq<Entry>, e: RoomEvent)
    requires IsStartEvent(e) && ServerOk(server) && LogOk(log) && RoomOk(log, r, room)
    ensures
      var f := StartStep(server, app, room, r, |log|, e);
      f.entry.Some? ==> EntryOk(log, |log|, f.entry.value)
  {
    if e.ReadResumed? {
      HandOffIsJustified(server, app, room, r, log, e.i);
    }
  }

  lemma RoomEntryOk(server: Server, room: Room, r: nat, log: seq<Entry>, e: RoomEvent)
    requires !IsStartEvent(e) && RoomOk(log, r, room)
    ensures
      var entry := RoomEventStep(server, room, r, |log|, e).1;
      entry.Some? ==> EntryOk(log, |log|, entry.value) && RoomOf(entry.value) == Some(r)
  {
  }

  lemma EntryOkGrows(log: seq<Entry>, more: Entry, i: nat)
    requires i < |log| && EntryOk(log, i, log[i])
    ensures EntryOk(log + [more], i, log[i])
  {
    assert forall j :: 0 <= j < |log| ==> (log + [more])[j] == log[j];
  }

  lemma LogStep(log: seq<Entry>, entry: Option<Entry>)
    requires LogOk(log)
    requires entry.Some? ==> EntryOk(log, |log|, entry.value)
    ensures LogOk(Logged(log, entry))
  {
    if entry.Some? {
      var log' := log + [entry.value];
      forall i | 0 <= i < |log'| ensures EntryOk(log', i, log'[i]) {
        if i < |log| {
          EntryOkGrows(log, entry.value, i);
        } else {
          assert forall j :: 0 <= j < |log| ==> log'[j] == log[j];
        }
      }
    }
  }

  lemma OtherRoomOk(log: seq<Entry>, entry: Option<Entry>, r: nat, room: Room)
    requires RoomOk(log, r, room)
    requires entry.Some? ==> RoomOf(entry.value) != Some(r)
    ensures RoomOk(Logged(log, entry), r, room)
  {
    forall i | 0 <= i < |room.starts| ensures StartOk(Logged(log, entry), r, room.starts[i]) {
      StartOkGrows(log, entry, r, room.starts[i]);
    }
  }

  lemma ServerStep(server: Server, app: App, room: Room, r: nat, log: seq<Entry>, e: RoomEvent)
    requires ServerOk(server) && SessionsHeld(server, log)
    ensures
      var o := RoomStep(server, app, room, r, |log|, e);
      && ServerOk(o.server) && SessionsHeld(o.server, Logged(log, o.entry))
  {
    if e.OpenServed? && e.i < |room.starts| {
      OpenStep(server, app, room, r, log, e);
    } else {
      OnlyOpeningsReachTheServer(server, app, room, r, |log|, e);
    }
  }

  lemma OpenStep(server: Server, app: App, room: Room, r: nat, log: seq<Entry>, e: RoomEvent)
    requires ServerOk(server) && SessionsHeld(server, log) && e.OpenServed? && e.i < |room.starts|
    ensures
      var f := StartStep(server, app, room, r, |log|, e);
      ServerOk(f.server) && SessionsHeld(f.server, Logged(log, f.entry))
  {
    CS.StepSessions(server, CS.OpenSession(room.starts[e.i].props.token, room.starts[e.i].expected));
  }

  lemma OnlyOpeningsReachTheServer(server: Server, app: App, room: Room, r: nat, clock: nat, e: RoomEvent)
    requires !(e.OpenServed? && e.i < |room.starts|)
    ensures
      var o := RoomStep(server, app, room, r, clock, e);
      o.server == server && (o.entry.Some? ==> !o.entry.value.SessionOpened?)
  {
  }

  // --- the whole system -----------------------------------------------------------------------------

  lemma InRoomStep(s: Sys, r: nat, e: RoomEvent)
    requires SysOk(s) && r < |s.rooms|
    ensures SysOk(Next(s, In(r, e)))
  {
    var o := RoomStep(s.server, s.app, s.rooms[r], r, |s.log|, e);
    var t := Next(s, In(r, e));
    assert t.log == Logged(s.log, o.entry);
    RoomStepOk(s.server, s.app, s.rooms[r], r, s.log, e);
    ServerStep(s.server, s.app, s.rooms[r], r, s.log, e);
    if IsStartEvent(e) {
      StartEntryOk(s.server, s.app, s.rooms[r], r, s.log, e);
      StartEntryIsNoPoll(s.server, s.app, s.rooms[r], r, |s.log|, e);
    } else {
      RoomEntryOk(s.server, s.rooms[r], r, s.log, e);
    }
    LogStep(s.log, o.entry);
    forall q | 0 <= q < |t.rooms| ensures RoomOk(t.log, q, t.rooms[q]) {
      if q != r {
        OtherRoomOk(s.log, o.entry, q, s.rooms[q]);
      }
    }
  }

  lemma ServerRequestStep(s: Sys, q: CS.Request<Assignment, int>)
    requires SysOk(s) && Plausible(ServerDoes(q))
    ensures SysOk(Next(s, ServerDoes(q)))
  {
    CS.StepSessions(s.server, q);
  }

  lemma NextKeeps(s: Sys, e: Event)
    requires SysOk(s) && Plausible(e)
    ensures SysOk(Next(s, e))
    ensures s.log <= Next(s, e).log && |s.rooms| <= |Next(s, e).rooms|
  {
    if e.ServerDoes? {
      ServerRequestStep(s, e.q);
    } else if e.In? && e.room < |s.rooms| {
      InRoomStep(s, e.room, e.e);
    }
  }

  /** The invariant holds in every state any run reaches, and a run only ever adds to the log. */
  lemma {:induction false} RunKeeps(s: Sys, es: seq<Event>)
    requires SysOk(s)
    requires forall i :: 0 <= i < |es| ==> Plausible(es[i])
    ensures SysOk(Run(s, es))
    ensures s.log <= Run(s, es).log && |s.rooms| <= |Run(s, es).rooms|
    decreases |es|
  {
    if es != [] {
      NextKeeps(s, es[0]);
      RunKeeps(Next(s, es[0]), es[1..]);
    }
  }
}

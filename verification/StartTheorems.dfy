// The properties of the start protocol, over every run from the empty system.
module StartTheorems {
  import opened Text
  import PK = ProcedureKey
  import opened Assignments
  import CS = ControlServer
  import opened StartProtocol
  import opened StartSafety

  ghost predicate AllPlausible(es: seq<Event>)
  {
    forall i :: 0 <= i < |es| ==> Plausible(es[i])
  }

  function Log(es: seq<Event>): seq<Entry> { Run(Initial(), es).log }

  lemma Reached(es: seq<Event>)
    requires AllPlausible(es)
    ensures SysOk(Run(Initial(), es))
  {
    RunKeeps(Initial(), es);
  }

  // --- what is handed over --------------------------------------------------------------------------

  /**
   * Whenever a definition is handed over, the session handed over with it is one the server holds for
   * exactly that definition's match, and the definition was read after that session was opened.
   */
  lemma HandOffMatchesSession(es: seq<Event>, i: nat)
    requires AllPlausible(es)
    requires i < |Log(es)| && Log(es)[i].HandedOff?
    ensures
      var s := Run(Initial(), es);
      var h := s.log[i];
      && MatchIdOf(h.definition) == Some(h.expected)
      && CS.Holds(s.server, h.sessionId, h.expected)
      && h.openedAt < h.readAt < i
      && s.log[h.openedAt] == SessionOpened(h.expected, h.sessionId)
      && s.log[h.readAt].AssignmentRead?
      && s.log[h.readAt].a.scheduledMatchId == Some(h.expected)
      && Some(h.definition) in {s.log[h.readAt].a.definition, s.log[h.readAt].a.emergency}
  {
    Reached(es);
    var s := Run(Initial(), es);
    assert EntryOk(s.log, i, s.log[i]);
  }

  /** Two hand-overs share a session exactly when they are for the same match. */
  lemma HandOffsShareSessions(es: seq<Event>, i: nat, j: nat)
    requires AllPlausible(es)
    requires i < |Log(es)| && Log(es)[i].HandedOff?
    requires j < |Log(es)| && Log(es)[j].HandedOff?
    ensures
      var log := Log(es);
      log[i].sessionId == log[j].sessionId <==> MatchIdOf(log[i].definition) == MatchIdOf(log[j].definition)
  {
    Reached(es);
    HandOffMatchesSession(es, i);
    HandOffMatchesSession(es, j);
    var s := Run(Initial(), es);
    CS.HoldsDecides(s.server, s.log[i].sessionId, s.log[i].expected, s.log[j].sessionId, s.log[j].expected);
  }

  /**
   * An emergency definition is handed over only after a person in that room approved an assignment with
   * the same non-empty match, the same two revisions and the same procedure version.
   */
  lemma EmergencyNeedsApproval(es: seq<Event>, i: nat)
    requires AllPlausible(es)
    requires i < |Log(es)| && Log(es)[i].HandedOff?
    ensures
      var log := Log(es);
      && log[i].readAt < i && log[log[i].readAt].AssignmentRead?
      && (log[log[i].readAt].a.definition.None? ==>
            var current := log[log[i].readAt].a.Evidence();
            exists j :: 0 <= j < i && log[j].Approved? && log[j].room == log[i].who.room
              && log[j].a.Evidence().Keyed() && current.Keyed()
              && PK.SameEvidence(log[j].a.Evidence(), current)
              && (log[j].a.Evidence().AllFinite() && current.AllFinite() ==> log[j].a.Evidence() == current))
  {
    Reached(es);
    var log := Log(es);
    var h := log[i];
    assert EntryOk(log, i, h);
    if log[h.readAt].a.definition.None? {
      assert ApprovedBefore(log, i, h, log[h.readAt].a);
      var approved, current := log[h.approvedAt].a.Evidence(), log[h.readAt].a.Evidence();
      PK.KeyDecidesEvidence(approved, current);
      if approved.AllFinite() && current.AllFinite() {
        PK.ApprovalIsExact(approved, current);
      }
    }
  }

  // --- polls ----------------------------------------------------------------------------------------

  /** Every applied poll belongs to the room's key at that moment, and later ones have greater numbers. */
  lemma AppliedPollsIncrease(es: seq<Event>, i: nat, j: nat)
    requires AllPlausible(es)
    requires i <= j < |Log(es)|
    requires Log(es)[i].PollApplied? && Log(es)[j].PollApplied?
    requires Log(es)[i].room == Log(es)[j].room
    ensures
      var log := Log(es);
      && log[i].key == log[i].currentKey && log[j].key == log[j].currentKey
      && (i < j <==> log[i].sequence < log[j].sequence)
  {
    Reached(es);
    var log := Log(es);
    assert EntryOk(log, i, log[i]) && EntryOk(log, j, log[j]);
  }

  /**
   * A successful answer takes effect exactly when it answers the newest poll issued in that room, no poll
   * has been applied in its place, and the room is still the one it was asked for. Whatever keys came and
   * went in between, an older poll changes nothing anyone can see.
   */
  lemma OnlyNewestPollApplies(es: seq<Event>, r: nat, n: nat)
    requires AllPlausible(es)
    requires r < |Run(Initial(), es).rooms|
    requires n in Run(Initial(), es).rooms[r].polls
    requires Run(Initial(), es).rooms[r].polls[n].answer.Some?
    requires Run(Initial(), es).rooms[r].polls[n].answer.value.PollOk?
    ensures
      var s := Run(Initial(), es);
      var room := s.rooms[r];
      var t := Next(s, In(r, PollResumed(n)));
      if room.request.Some? && n == room.sequence && room.polls[n].props.key == room.flushed.key
      then t.log == s.log + [PollApplied(r, n, room.flushed.key, room.flushed.key)]
      else t.log == s.log && t.rooms[r].view == room.view && t.rooms[r].approvedKey == room.approvedKey
  {
    Reached(es);
    var s := Run(Initial(), es);
    assert PollsOk(s.log, r, s.rooms[r]);
  }

  // --- the start lock -------------------------------------------------------------------------------

  /**
   * At most one start is in flight in a room, and while one is no press begins another. In a mounted room
   * whose key has not changed, the lock is held exactly when a start is in flight.
   */
  lemma OneStartAtATime(es: seq<Event>, r: nat)
    requires AllPlausible(es) && r < |Run(Initial(), es).rooms|
    ensures
      var room := Run(Initial(), es).rooms[r];
      && |room.starts| <= 1
      && (room.starts != [] ==> PressStart(room) == room)
      && (room.mounted && room.generation == 1 ==> (room.starting <==> |room.starts| == 1))
  {
    Reached(es);
    assert RefsOk(Run(Initial(), es).rooms[r]);
  }

  /** Each start hands a definition over at most once. */
  lemma OneHandOffPerStart(es: seq<Event>, i: nat, j: nat)
    requires AllPlausible(es)
    requires i < |Log(es)| && Log(es)[i].HandedOff?
    requires j < |Log(es)| && Log(es)[j].HandedOff?
    requires Log(es)[i].who == Log(es)[j].who
    ensures i == j
  {
    Reached(es);
    var log := Log(es);
    assert EntryOk(log, i, log[i]) && EntryOk(log, j, log[j]);
  }

  /** A lock that was not given back is never given back: this room instance starts nothing again. */
  lemma {:induction false} LostLockStaysLost(s: Sys, es: seq<Event>, r: nat)
    requires r < |s.rooms| && s.rooms[r].starting && s.rooms[r].starts == []
    ensures r < |Run(s, es).rooms|
    ensures Run(s, es).rooms[r].starting && Run(s, es).rooms[r].starts == []
    ensures Run(s, es).rooms[r].startCount == s.rooms[r].startCount
    decreases |es|
  {
    if es != [] {
      LostLockStep(s, es[0], r);
      LostLockStaysLost(Next(s, es[0]), es[1..], r);
    }
  }

  lemma LostLockStep(s: Sys, e: Event, r: nat)
    requires r < |s.rooms| && s.rooms[r].starting && s.rooms[r].starts == []
    ensures
      var t := Next(s, e);
      r < |t.rooms| && t.rooms[r].starting && t.rooms[r].starts == [] && t.rooms[r].startCount == s.rooms[r].startCount
  {
  }

  // The lock in terms of what happened: the room was left, by its going away or by its key changing.

  predicate Leaves(room: Room, e: RoomEvent)
  {
    room.mounted && (e.Unmount? || (e.Flush? && room.rendered.key != room.flushed.key))
  }

  predicate LeftDuring(s: Sys, es: seq<Event>, r: nat)
    decreases |es|
  {
    es != [] &&
    (|| (es[0].In? && es[0].room == r && r < |s.rooms| && Leaves(s.rooms[r], es[0].e))
     || LeftDuring(Next(s, es[0]), es[1..], r))
  }

  /** The start lock is taken and stays taken: whatever happens, no start is ever begun again. */
  ghost predicate NeverFree(s: Sys, r: nat)
  {
    r < |s.rooms| && forall later :: r < |Run(s, later).rooms| && NoNewStart(s.rooms[r], Run(s, later).rooms[r])
  }

  ghost predicate NoNewStart(before: Room, after: Room)
  {
    after.starting && after.starts == [] && after.startCount == before.startCount
  }

  /** Start `n`, if it is still in flight, was pressed in generation `g`. */
  ghost predicate PressedIn(room: Room, n: nat, g: nat)
  {
    && n < room.startCount
    && forall i :: 0 <= i < |room.starts| && room.starts[i].number == n ==> room.starts[i].generation == g
  }

  lemma LeavingMovesGeneration(server: Server, app: App, room: Room, r: nat, clock: nat, e: RoomEvent, n: nat, g: nat)
    requires RefsOk(room) && PressedIn(room, n, g)
    ensures
      var after := RoomStep(server, app, room, r, clock, e).room;
      && PressedIn(after, n, g)
      && after.generation >= room.generation
      && (after.generation > room.generation <==> Leaves(room, e))
  {
    if IsStartEvent(e) {
      var f := StartStep(server, app, room, r, clock, e);
      MoveKeepsGenerations(room, f.view, f.move, n, g);
    } else {
      EventMovesGeneration(server, room, r, clock, e, n, g);
    }
  }

  lemma MoveKeepsGenerations(room: Room, view: View, move: Move, n: nat, g: nat)
    requires PressedIn(room, n, g)
    ensures
      var after := ApplyMove(room.(view := view), move);
      PressedIn(after, n, g) && after.generation == room.generation
  {
  }

  lemma EventMovesGeneration(server: Server, room: Room, r: nat, clock: nat, e: RoomEvent, n: nat, g: nat)
    requires !IsStartEvent(e) && RefsOk(room) && PressedIn(room, n, g)
    ensures
      var after := RoomEventStep(server, room, r, clock, e).0;
      && PressedIn(after, n, g)
      && after.generation >= room.generation
      && (after.generation > room.generation <==> Leaves(room, e))
  {
  }

  lemma {:induction false} GenerationMovesExactlyWhen(s: Sys, es: seq<Event>, r: nat, n: nat, g: nat)
    requires SysOk(s) && AllPlausible(es) && r < |s.rooms| && PressedIn(s.rooms[r], n, g)
    ensures SysOk(Run(s, es)) && r < |Run(s, es).rooms| && PressedIn(Run(s, es).rooms[r], n, g)
    ensures Run(s, es).rooms[r].generation >= s.rooms[r].generation
    ensures Run(s, es).rooms[r].generation > s.rooms[r].generation <==> LeftDuring(s, es, r)
    decreases |es|
  {
    if es != [] {
      NextKeeps(s, es[0]);
      if es[0].In? && es[0].room == r {
        LeavingMovesGeneration(s.server, s.app, s.rooms[r], r, |s.log|, es[0].e, n, g);
      }
      GenerationMovesExactlyWhen(Next(s, es[0]), es[1..], r, n, g);
    }
  }

  lemma EndDecidesTheLock(s: Sys, r: nat, e: RoomEvent)
    requires SysOk(s) && r < |s.rooms| && s.rooms[r].starts != []
    requires Next(s, In(r, e)).rooms[r].starts == []
    ensures Next(s, In(r, e)).rooms[r].starting <==> s.rooms[r].starts[0].generation != s.rooms[r].generation
  {
    var room := s.rooms[r];
    assert RefsOk(room);
    if IsStartEvent(e) {
      var f := StartStep(s.server, s.app, room, r, |s.log|, e);
      EndingMoveDecides(room, f.view, f.move);
    } else {
      OnlyStartsEnd(s.server, room, r, |s.log|, e);
    }
  }

  lemma EndingMoveDecides(room: Room, view: View, move: Move)
    requires RefsOk(room) && room.starts != [] && ApplyMove(room.(view := view), move).starts == []
    ensures ApplyMove(room.(view := view), move).starting <==> room.starts[0].generation != room.generation
  {
  }

  lemma OnlyStartsEnd(server: Server, room: Room, r: nat, clock: nat, e: RoomEvent)
    requires !IsStartEvent(e) && room.starts != []
    ensures RoomEventStep(server, room, r, clock, e).0.starts != []
  {
  }

  /**
   * From the press that begins a start to the event that ends it: the lock is lost for good, in every
   * continuation, exactly when the room was left in between.
   */
  lemma LockLostExactlyWhen(es: seq<Event>, r: nat, during: seq<Event>, end: RoomEvent)
    requires AllPlausible(es) && AllPlausible(during)
    requires r < |Run(Initial(), es).rooms| && MayPress(Run(Initial(), es).rooms[r])
    requires
      var s := Run(Initial(), es);
      var last := Run(Next(s, In(r, Press)), during);
      && r < |last.rooms| && last.rooms[r].starts != []
      && last.rooms[r].starts[0].number == s.rooms[r].startCount
      && Next(last, In(r, end)).rooms[r].starts == []
    ensures
      var begun := Next(Run(Initial(), es), In(r, Press));
      NeverFree(Next(Run(begun, during), In(r, end)), r) <==> LeftDuring(begun, during, r)
  {
    Reached(es);
    var s := Run(Initial(), es);
    var begun := Next(s, In(r, Press));
    var n, g := s.rooms[r].startCount, s.rooms[r].generation;
    NextKeeps(s, In(r, Press));
    PressBegins(s, r);
    GenerationMovesExactlyWhen(begun, during, r, n, g);
    EndDecidesTheLock(Run(begun, during), r, end);
    TakenIsLost(Next(Run(begun, during), In(r, end)), r);
  }

  lemma PressBegins(s: Sys, r: nat)
    requires SysOk(s) && r < |s.rooms| && MayPress(s.rooms[r])
    ensures
      var begun := Next(s, In(r, Press));
      && r < |begun.rooms| && begun.rooms[r].generation == s.rooms[r].generation
      && PressedIn(begun.rooms[r], s.rooms[r].startCount, s.rooms[r].generation)
  {
    assert RefsOk(s.rooms[r]);
  }

  lemma TakenIsLost(s: Sys, r: nat)
    requires r < |s.rooms| && s.rooms[r].starts == []
    ensures NeverFree(s, r) <==> s.rooms[r].starting
  {
    if s.rooms[r].starting {
      forall later ensures r < |Run(s, later).rooms| && NoNewStart(s.rooms[r], Run(s, later).rooms[r]) {
        LostLockStaysLost(s, later, r);
      }
    } else {
      assert Run(s, []) == s;
    }
  }

  /** And giving the room a new key under a start in flight is enough to lose it. */
  lemma RekeyLosesLock(s: Sys, r: nat, props: Props)
    requires SysOk(s) && r < |s.rooms|
    requires s.rooms[r].mounted && s.rooms[r].starts != [] && props.key != s.rooms[r].flushed.key
    ensures
      var t := Next(Next(Next(s, In(r, Commit(props))), In(r, Flush)), In(r, Thrown(0)));
      t.rooms[r].mounted && t.rooms[r].starting && t.rooms[r].starts == []
  {
    var a := Next(s, In(r, Commit(props)));
    var b := Next(a, In(r, Flush));
    assert a.rooms[r] == s.rooms[r].(rendered := props);
    assert b.rooms[r].generation > s.rooms[r].generation;
  }

  // --- stale starts ---------------------------------------------------------------------------------

  /** Start `n` of the room has ended, or is no longer current. */
  ghost predicate Stale(room: Room, n: nat)
  {
    && n < room.startCount
    && forall i :: 0 <= i < |room.starts| && room.starts[i].number == n ==> !IsCurrent(room, room.starts[i])
  }

  ghost predicate ActsFor(e: Entry, who: StartId)
  {
    (e.HandedOff? || e.ConnectionWritten? || e.ScorerMounted?) && e.who == who
  }

  lemma StaleMove(room: Room, view: View, move: Move, n: nat)
    requires Stale(room, n)
    ensures Stale(ApplyMove(room.(view := view), move), n)
  {
  }

  lemma StaleRoomEvent(server: Server, room: Room, r: nat, clock: nat, e: RoomEvent, n: nat)
    requires !IsStartEvent(e) && RefsOk(room) && Stale(room, n)
    ensures Stale(RoomEventStep(server, room, r, clock, e).0, n)
  {
    var after := RoomEventStep(server, room, r, clock, e).0;
    assert after.generation >= room.generation;
    assert after.generation == room.generation ==> after.flushed.key == room.flushed.key;
  }

  /** Only a current start can act. */
  lemma ActorIsCurrent(server: Server, app: App, room: Room, r: nat, clock: nat, e: RoomEvent)
    requires IsStartEvent(e)
    ensures
      var f := StartStep(server, app, room, r, clock, e);
      f.entry.Some?
      && (f.entry.value.HandedOff? || f.entry.value.ConnectionWritten? || f.entry.value.ScorerMounted?) ==>
        && e.i < |room.starts| && f.entry.value.who == StartId(r, room.starts[e.i].number)
        && IsCurrent(room, room.starts[e.i])
  {
  }

  lemma StaleStep(s: Sys, e: Event, r: nat, n: nat)
    requires SysOk(s) && Plausible(e) && r < |s.rooms| && Stale(s.rooms[r], n)
    ensures SysOk(Next(s, e)) && s.log <= Next(s, e).log
    ensures r < |Next(s, e).rooms| && Stale(Next(s, e).rooms[r], n)
    ensures forall i :: |s.log| <= i < |Next(s, e).log| ==> !ActsFor(Next(s, e).log[i], StartId(r, n))
  {
    NextKeeps(s, e);
    if e.In? && e.room < |s.rooms| {
      var q, re := e.room, e.e;
      if IsStartEvent(re) {
        var f := StartStep(s.server, s.app, s.rooms[q], q, |s.log|, re);
        ActorIsCurrent(s.server, s.app, s.rooms[q], q, |s.log|, re);
        if q == r {
          StaleMove(s.rooms[r], f.view, f.move, n);
        }
      } else {
        RoomEntryOk(s.server, s.rooms[q], q, s.log, re);
        RoomEventLogsNoAct(s.server, s.rooms[q], q, |s.log|, re);
        if q == r {
          StaleRoomEvent(s.server, s.rooms[r], r, |s.log|, re, n);
        }
      }
    }
  }

  lemma RoomEventLogsNoAct(server: Server, room: Room, r: nat, clock: nat, e: RoomEvent)
    requires !IsStartEvent(e)
    ensures
      var entry := RoomEventStep(server, room, r, clock, e).1;
      entry.Some? ==> entry.value.Approved? || entry.value.PollApplied?
  {
  }

  /** A stale start never hands over, never writes a connection and never mounts the scorer. */
  lemma {:induction false} StaleNeverActs(s: Sys, es: seq<Event>, r: nat, n: nat)
    requires SysOk(s) && AllPlausible(es) && r < |s.rooms| && Stale(s.rooms[r], n)
    ensures s.log <= Run(s, es).log
    ensures forall i :: |s.log| <= i < |Run(s, es).log| ==> !ActsFor(Run(s, es).log[i], StartId(r, n))
    decreases |es|
  {
    if es != [] {
      var t := Next(s, es[0]);
      StaleStep(s, es[0], r, n);
      StaleNeverActs(t, es[1..], r, n);
      assert forall i :: |s.log| <= i < |t.log| ==> Run(s, es).log[i] == t.log[i];
    }
  }

  /** Leaving the room, or its key changing, makes every start pressed before it stale for good. */
  lemma LeavingEndsStarts(es: seq<Event>, r: nat, e: RoomEvent, later: seq<Event>, n: nat)
    requires AllPlausible(es) && AllPlausible(later) && r < |Run(Initial(), es).rooms|
    requires
      var room := Run(Initial(), es).rooms[r];
      && room.mounted && n < room.startCount
      && (e.Unmount? || (e.Flush? && room.rendered.key != room.flushed.key))
    ensures
      var left := Next(Run(Initial(), es), In(r, e));
      var end := Run(left, later);
      && left.log <= end.log
      && forall i :: |left.log| <= i < |end.log| ==> !ActsFor(end.log[i], StartId(r, n))
  {
    Reached(es);
    var s := Run(Initial(), es);
    var left := Next(s, In(r, e));
    NextKeeps(s, In(r, e));
    assert RefsOk(s.rooms[r]);
    assert left.rooms[r].generation > s.rooms[r].generation;
    assert left.rooms[r].starts == s.rooms[r].starts && left.rooms[r].startCount == s.rooms[r].startCount;
    StaleNeverActs(left, later, r, n);
  }

  /**
   * The scorer mounts only after a connection naming that record was stored successfully by that same
   * start, with the session that start had been given.
   */
  lemma MountFollowsWrite(es: seq<Event>, i: nat)
    requires AllPlausible(es)
    requires i < |Log(es)| && Log(es)[i].ScorerMounted?
    ensures
      var log := Log(es);
      var m := log[i];
      exists w, h :: 0 <= h < w < i
        && log[h].HandedOff? && log[h].who == m.who
        && log[w].ConnectionWritten? && log[w].who == m.who && log[w].recordId == m.recordId
        && log[w].sessionId == log[h].sessionId && log[w].persisted
  {
    Reached(es);
    var log := Log(es);
    var w := log[i].writtenAt;
    assert EntryOk(log, i, log[i]) && EntryOk(log, w, log[w]);
    var h := log[w].handedAt;
    assert log[h].HandedOff? && log[h].who == log[i].who;
  }

  // --- the state at kickoff -------------------------------------------------------------------------

  predicate Strict(a: Assignment) { a.definition.Some? || a.emergency.Some? ==> a.state.Assigned? }

  ghost predicate StrictEvent(e: Event)
  {
    e.ServerDoes? && e.q.Assign? && e.q.round.Some? ==> Strict(e.q.round.value.document)
  }

  ghost predicate StrictSys(s: Sys)
  {
    && (s.server.served.Some? ==> Strict(s.server.served.value.document))
    && (forall i :: 0 <= i < |s.log| && s.log[i].AssignmentRead? ==> Strict(s.log[i].a))
  }

  lemma StartReadIsServed(server: Server, app: App, room: Room, r: nat, clock: nat, e: RoomEvent)
    requires IsStartEvent(e) && (server.served.Some? ==> Strict(server.served.value.document))
    ensures
      var f := StartStep(server, app, room, r, clock, e);
      && f.server.served == server.served
      && (f.entry.Some? && f.entry.value.AssignmentRead? ==> Strict(f.entry.value.a))
  {
  }

  lemma StrictStep(s: Sys, e: Event)
    requires StrictSys(s) && StrictEvent(e)
    ensures StrictSys(Next(s, e))
  {
    if e.In? && e.room < |s.rooms| {
      if IsStartEvent(e.e) {
        StartReadIsServed(s.server, s.app, s.rooms[e.room], e.room, |s.log|, e.e);
      } else {
        RoomEventLogsNoAct(s.server, s.rooms[e.room], e.room, |s.log|, e.e);
      }
    }
  }

  lemma {:induction false} StrictRun(s: Sys, es: seq<Event>)
    requires StrictSys(s) && forall i :: 0 <= i < |es| ==> StrictEvent(es[i])
    ensures StrictSys(Run(s, es))
    decreases |es|
  {
    if es != [] {
      StrictStep(s, es[0]);
      StrictRun(Next(s, es[0]), es[1..]);
    }
  }

  /**
   * With a server that offers a game, or an emergency definition, only in the assigned state (QBTCP, see
   * `GameImpliesAssigned`), whatever is handed over was assigned when the kickoff read it.
   */
  lemma KickoffWasAssigned(es: seq<Event>, i: nat)
    requires AllPlausible(es) && forall k :: 0 <= k < |es| ==> StrictEvent(es[k])
    requires i < |Log(es)| && Log(es)[i].HandedOff?
    ensures
      var log := Log(es);
      var h := log[i];
      && h.readAt < i && log[h.readAt].AssignmentRead? && log[h.readAt].a.state.Assigned?
      && Some(h.definition) ==
         if log[h.readAt].a.definition.Some? then log[h.readAt].a.definition else log[h.readAt].a.emergency
  {
    Reached(es);
    StrictRun(Initial(), es);
    var log := Log(es);
    assert EntryOk(log, i, log[i]);
  }

  /**
   * The kickoff read hands a game over exactly when the start is current, the read names the match that
   * was opened and there is a game to play. The state the read reports plays no part.
   */
  lemma KickoffHandsOverExactlyWhen(s: Sys, r: nat)
    requires r < |s.rooms| && s.rooms[r].starts != [] && s.rooms[r].starts[0].pc.ReadAnswered?
    ensures
      var room := s.rooms[r];
      var st := room.starts[0];
      var t := Next(s, In(r, ReadResumed(0)));
      var handed := IsCurrent(room, st) && st.pc.a.scheduledMatchId == Some(st.expected)
        && (|| st.pc.a.definition.Some?
            || (st.pc.a.emergency.Some? && PK.HasApproved(room.approvedKey, st.pc.a.Evidence())));
      if handed then |t.log| == |s.log| + 1 && t.log[|s.log|].HandedOff? else t.log == s.log
  {
  }

  // So a game can start although control was blocking the room when the kickoff read it. Nine events
  // bring a room to its kickoff; then control blocks it, as the legacy surface reports a block.

  function PlainGame(id: Str, state: AssignmentState): Assignment
  {
    var d := Definition(0, Some(id), None, PK.Finite(1), None);
    Assignment(state, Some(d), None, None, Some(id), Some(PK.Finite(1)), None)
  }

  /** A matchup of the legacy surface. */
  function PlainMatchup(id: Str): Matchup
  {
    Matchup(id, Some(Definition(0, None, None, PK.Finite(1), None)))
  }

  function Serve(id: Str, state: AssignmentState): Event
  {
    ServerDoes(CS.Assign(Some(CS.Round(id, PlainGame(id, state)))))
  }

  lemma {:induction false} RunAppend(s: Sys, es: seq<Event>, more: seq<Event>)
    ensures Run(s, es + more) == Run(Run(s, es), more)
    decreases |es|
  {
    if es == [] {
      assert es + more == more;
    } else {
      assert (es + more)[1..] == es[1..] + more;
      RunAppend(Next(s, es[0]), es[1..], more);
    }
  }

  lemma RunThree(s: Sys, a: Event, b: Event, c: Event)
    ensures Run(s, [a, b, c]) == Next(Next(Next(s, a), b), c)
  {
    assert [a, b, c][1..] == [b, c] && [b, c][1..] == [c] && [c][1..] == [];
    assert Run(Next(Next(s, a), b), [c]) == Next(Next(Next(s, a), b), c);
    assert Run(Next(s, a), [b, c]) == Run(Next(Next(s, a), b), [c]);
  }

  function MountedState(id: Str, key: Str): Sys
  {
    Sys(CS.Initial(Some(CS.Round(id, PlainGame(id, Assigned)))), App(true, Elsewhere, None),
        [NewRoom(Props(key, CS.ROOM_TOKEN))], [])
  }

  function ShownState(id: Str, key: Str): Sys
  {
    var view := View(Some(PlainGame(id, Assigned)), false, false);
    var room := NewRoom(Props(key, CS.ROOM_TOKEN)).(sequence := 1, view := view);
    MountedState(id, key).(rooms := [room], log := [PollApplied(0, 1, key, key)])
  }

  /** The shown room with its one start at `pc`, before or after the server opened session 1 for it. */
  function StartedState(id: Str, key: Str, pc: Pc, session: bool): Sys
  {
    var shown := ShownState(id, key);
    var st := Start(0, Props(key, CS.ROOM_TOKEN), 1, id, pc);
    Sys(if session then shown.server.(sessions := [CS.Session(1, id)], sessionCounter := 1) else shown.server,
        shown.app,
        [shown.rooms[0].(starting := true, starts := [st], startCount := 1)],
        if session then shown.log + [SessionOpened(id, 1)] else shown.log)
  }

  lemma MountSegment(id: Str, key: Str)
    ensures Run(Initial(), [StoreOpened, Serve(id, Assigned), Mount(Props(key, CS.ROOM_TOKEN))])
         == MountedState(id, key)
  {
    RunThree(Initial(), StoreOpened, Serve(id, Assigned), Mount(Props(key, CS.ROOM_TOKEN)));
  }

  lemma PollSegment(id: Str, key: Str)
    ensures Run(MountedState(id, key), [In(0, PollIssue(false)), In(0, PollServed(1)), In(0, PollResumed(1))])
         == ShownState(id, key)
  {
    var s := MountedState(id, key);
    var props := Props(key, CS.ROOM_TOKEN);
    RunThree(s, In(0, PollIssue(false)), In(0, PollServed(1)), In(0, PollResumed(1)));
    var s1 := Next(s, In(0, PollIssue(false)));
    assert s1.rooms[0].polls == map[1 := Poll(props, None)];
    var s2 := Next(s1, In(0, PollServed(1)));
    assert s2.rooms[0].polls == map[1 := Poll(props, Some(PollOk(PlainGame(id, Assigned))))];
    assert s2.rooms[0].polls - {1} == map[];
    assert Next(s2, In(0, PollResumed(1))).rooms == ShownState(id, key).rooms;
  }

  lemma PressSegment(id: Str, key: Str)
    requires id != []
    ensures Run(ShownState(id, key), [In(0, Press), In(0, OpenServed(0)), In(0, OpenResumed(0))])
         == StartedState(id, key, ReadSent(1, 1), true)
  {
    RunThree(ShownState(id, key), In(0, Press), In(0, OpenServed(0)), In(0, OpenResumed(0)));
    PressIt(id, key);
    OpenIt(id, key);
    ResumeIt(id, key);
  }

  lemma PressIt(id: Str, key: Str)
    ensures Next(ShownState(id, key), In(0, Press)) == StartedState(id, key, OpenSent, false)
  {
    assert Next(ShownState(id, key), In(0, Press)).rooms[0] == StartedState(id, key, OpenSent, false).rooms[0];
  }

  lemma OpenIt(id: Str, key: Str)
    requires id != []
    ensures Next(StartedState(id, key, OpenSent, false), In(0, OpenServed(0)))
         == StartedState(id, key, OpenAnswered(1, 1), true)
  {
    var s, t := StartedState(id, key, OpenSent, false), StartedState(id, key, OpenAnswered(1, 1), true);
    assert Next(s, In(0, OpenServed(0))).server == t.server;
    assert Next(s, In(0, OpenServed(0))).rooms[0].starts == t.rooms[0].starts;
    assert Next(s, In(0, OpenServed(0))).rooms[0] == t.rooms[0];
  }

  lemma ResumeIt(id: Str, key: Str)
    ensures Next(StartedState(id, key, OpenAnswered(1, 1), true), In(0, OpenResumed(0)))
         == StartedState(id, key, ReadSent(1, 1), true)
  {
    var s, t := StartedState(id, key, OpenAnswered(1, 1), true), StartedState(id, key, ReadSent(1, 1), true);
    assert Next(s, In(0, OpenResumed(0))).rooms[0].starts == t.rooms[0].starts;
    assert Next(s, In(0, OpenResumed(0))).rooms[0] == t.rooms[0];
  }

  lemma ServeBlocked(id: Str, key: Str)
    ensures
      var s := StartedState(id, key, ReadSent(1, 1), true);
      var t := Next(Next(s, Serve(id, Blocked)), In(0, ReadServed(0)));
      && t.log == s.log + [AssignmentRead(PlainGame(id, Blocked))] && |t.rooms| == 1
      && t.rooms[0].starts == [s.rooms[0].starts[0].(pc := ReadAnswered(1, 1, PlainGame(id, Blocked), 2))]
      && t.rooms[0] == s.rooms[0].(starts := t.rooms[0].starts)
  {
    var s := StartedState(id, key, ReadSent(1, 1), true);
    var served := Next(s, Serve(id, Blocked));
    assert served.rooms == s.rooms && served.log == s.log;
    assert served.server.served == Some(CS.Round(id, PlainGame(id, Blocked)));
  }

  lemma BlockIt(id: Str, key: Str)
    ensures
      var s := StartedState(id, key, ReadSent(1, 1), true);
      var log := Run(s, [Serve(id, Blocked), In(0, ReadServed(0)), In(0, ReadResumed(0))]).log;
      |log| == 4 && log[2] == AssignmentRead(PlainGame(id, Blocked)) && log[3].HandedOff? && log[3].readAt == 2
  {
    var s := StartedState(id, key, ReadSent(1, 1), true);
    RunThree(s, Serve(id, Blocked), In(0, ReadServed(0)), In(0, ReadResumed(0)));
    ServeBlocked(id, key);
    KickoffHandsOverExactlyWhen(Next(Next(s, Serve(id, Blocked)), In(0, ReadServed(0))), 0);
  }

  function BlockedRun(id: Str, key: Str): seq<Event>
  {
    [StoreOpened, Serve(id, Assigned), Mount(Props(key, CS.ROOM_TOKEN))]
    + ([In(0, PollIssue(false)), In(0, PollServed(1)), In(0, PollResumed(1))]
    + ([In(0, Press), In(0, OpenServed(0)), In(0, OpenResumed(0))]
    + [Serve(id, Blocked), In(0, ReadServed(0)), In(0, ReadResumed(0))]))
  }

  /** The run in which a room starts a game that the legacy surface reported as blocked when the kickoff read it. */
  lemma BlockedGameStarts(id: Str, key: Str)
    requires id != []
    ensures PlainGame(id, Blocked) == ReadLegacy(true, Some(PlainMatchup(id)))
    ensures
      var log := Log(BlockedRun(id, key));
      |log| == 4 && log[2] == AssignmentRead(PlainGame(id, Blocked)) && log[3].HandedOff? && log[3].readAt == 2
  {
    var first := [StoreOpened, Serve(id, Assigned), Mount(Props(key, CS.ROOM_TOKEN))];
    var polls := [In(0, PollIssue(false)), In(0, PollServed(1)), In(0, PollResumed(1))];
    var press := [In(0, Press), In(0, OpenServed(0)), In(0, OpenResumed(0))];
    var last := [Serve(id, Blocked), In(0, ReadServed(0)), In(0, ReadResumed(0))];
    RunAppend(Initial(), first, polls + (press + last));
    RunAppend(MountedState(id, key), polls, press + last);
    RunAppend(ShownState(id, key), press, last);
    MountSegment(id, key);
    PollSegment(id, key);
    PressSegment(id, key);
    BlockIt(id, key);
  }
}

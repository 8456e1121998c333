// What the start protocol leaves behind: the connection stored, the screen shown, what a poll shows and when
// Start is offered.
module StartOutcomes {
  import opened Text
  import PK = ProcedureKey
  import opened Assignments
  import CS = ControlServer
  import opened StartProtocol
  import opened StartSafety
  import opened StartTheorems

  // --- the connection -------------------------------------------------------------------------------

  /** The connection of the newest write. */
  function LastWritten(log: seq<Entry>): Option<Connection>
  {
    if log == [] then None
    else
      var e := log[|log| - 1];
      if e.ConnectionWritten? then Some(Connection(e.props, e.sessionId, e.recordId))
      else LastWritten(log[..|log| - 1])
  }

  lemma LastWrittenGrows(log: seq<Entry>, entry: Option<Entry>)
    ensures LastWritten(Logged(log, entry)) ==
      if entry.Some? && entry.value.ConnectionWritten?
      then Some(Connection(entry.value.props, entry.value.sessionId, entry.value.recordId)) else LastWritten(log)
  {
    if entry.Some? {
      assert (log + [entry.value])[..|log|] == log;
    }
  }

  /** A piece of a start changes the connection exactly when it logs a write, and to what it logs. */
  lemma StartWrites(server: Server, app: App, room: Room, r: nat, clock: nat, e: RoomEvent)
    requires IsStartEvent(e)
    ensures
      var f := StartStep(server, app, room, r, clock, e);
      f.app.connection ==
        if f.entry.Some? && f.entry.value.ConnectionWritten?
        then Some(Connection(f.entry.value.props, f.entry.value.sessionId, f.entry.value.recordId))
        else app.connection
  {
  }

  lemma ConnectionStep(s: Sys, e: Event)
    requires s.app.connection == LastWritten(s.log)
    ensures Next(s, e).app.connection == LastWritten(Next(s, e).log)
  {
    if e.In? && e.room < |s.rooms| {
      var o := RoomStep(s.server, s.app, s.rooms[e.room], e.room, |s.log|, e.e);
      LastWrittenGrows(s.log, o.entry);
      assert Next(s, e).log == Logged(s.log, o.entry);
      if IsStartEvent(e.e) {
        StartWrites(s.server, s.app, s.rooms[e.room], e.room, |s.log|, e.e);
      } else {
        RoomEventLogsNoAct(s.server, s.rooms[e.room], e.room, |s.log|, e.e);
      }
    }
  }

  lemma {:induction false} ConnectionRun(s: Sys, es: seq<Event>)
    requires s.app.connection == LastWritten(s.log)
    ensures Run(s, es).app.connection == LastWritten(Run(s, es).log)
    decreases |es|
  {
    if es != [] {
      ConnectionStep(s, es[0]);
      ConnectionRun(Next(s, es[0]), es[1..]);
    }
  }

  /** In every run the connection is that of the newest write, and there is none when nothing was written. */
  lemma ConnectionIsNewestWritten(es: seq<Event>)
    ensures Run(Initial(), es).app.connection == LastWritten(Log(es))
  {
    ConnectionRun(Initial(), es);
  }

  /**
   * A write names the room, the session and the record of the start that made it: the record that was ensured
   * for it, the session it was opened with and the room it was pressed in.
   */
  lemma WriteStores(s: Sys, e: Event, w: Entry)
    requires Next(s, e).log == s.log + [w] && w.ConnectionWritten?
    ensures e.In? && e.e.RecordEnsured? && e.room == w.who.room < |s.rooms| && e.e.i < |s.rooms[e.room].starts|
    ensures
      var st := s.rooms[e.room].starts[e.e.i];
      && st.number == w.who.number && st.pc.Ensuring?
      && e.e.record.Some? && w.recordId == e.e.record.value.id && w.persisted == e.e.persisted
      && w.sessionId == st.pc.sessionId
      && Next(s, e).app.connection == Some(Connection(st.props, st.pc.sessionId, w.recordId))
  {
    if e.In? && e.room < |s.rooms| {
      var o := RoomStep(s.server, s.app, s.rooms[e.room], e.room, |s.log|, e.e);
      assert Next(s, e).log == Logged(s.log, o.entry);
      assert o.entry.Some? ==> (s.log + [o.entry.value])[|s.log|] == o.entry.value;
      assert (s.log + [w])[|s.log|] == w;
      if !IsStartEvent(e.e) {
        RoomEventLogsNoAct(s.server, s.rooms[e.room], e.room, |s.log|, e.e);
      }
    }
  }

  /** Start `n`, if it is still in flight, is for that room and that match. */
  ghost predicate BegunFor(room: Room, n: nat, props: Props, expected: Str)
  {
    && n < room.startCount
    && forall i :: 0 <= i < |room.starts| && room.starts[i].number == n ==>
         room.starts[i].props == props && room.starts[i].expected == expected
  }

  lemma MoveKeepsPurpose(room: Room, view: View, move: Move, n: nat, props: Props, expected: Str)
    requires BegunFor(room, n, props, expected)
    ensures BegunFor(ApplyMove(room.(view := view), move), n, props, expected)
  {
  }

  lemma EventKeepsPurpose(
    server: Server, room: Room, r: nat, clock: nat, e: RoomEvent, n: nat, props: Props, expected: Str
  )
    requires !IsStartEvent(e) && BegunFor(room, n, props, expected)
    ensures BegunFor(RoomEventStep(server, room, r, clock, e).0, n, props, expected)
  {
  }

  lemma {:induction false} PurposeRun(s: Sys, es: seq<Event>, r: nat, n: nat, props: Props, expected: Str)
    requires r < |s.rooms| && BegunFor(s.rooms[r], n, props, expected)
    ensures r < |Run(s, es).rooms| && BegunFor(Run(s, es).rooms[r], n, props, expected)
    decreases |es|
  {
    if es != [] {
      var e := es[0];
      if e.In? && e.room == r {
        if IsStartEvent(e.e) {
          var f := StartStep(s.server, s.app, s.rooms[r], r, |s.log|, e.e);
          MoveKeepsPurpose(s.rooms[r], f.view, f.move, n, props, expected);
        } else {
          EventKeepsPurpose(s.server, s.rooms[r], r, |s.log|, e.e, n, props, expected);
        }
      }
      PurposeRun(Next(s, e), es[1..], r, n, props, expected);
    }
  }

  lemma PressFor(s: Sys, r: nat)
    requires SysOk(s) && r < |s.rooms| && MayPress(s.rooms[r])
    ensures
      var begun := Next(s, In(r, Press));
      && r < |begun.rooms|
      && BegunFor(begun.rooms[r], s.rooms[r].startCount, s.rooms[r].rendered,
                  s.rooms[r].view.assignment.value.scheduledMatchId.value)
  {
    assert RefsOk(s.rooms[r]);
  }

  /**
   * Whatever happens between a press and the write its start makes: what is stored is the room as it was on
   * screen when Start was pressed, the ensured record, and a session the server holds for the match shown then.
   */
  lemma WriteIsForItsPress(es: seq<Event>, r: nat, during: seq<Event>, e: Event, w: Entry)
    requires AllPlausible(es) && AllPlausible(during)
    requires r < |Run(Initial(), es).rooms| && MayPress(Run(Initial(), es).rooms[r])
    requires
      var s := Run(Initial(), es);
      var last := Run(Next(s, In(r, Press)), during);
      && Next(last, e).log == last.log + [w] && w.ConnectionWritten?
      && w.who == StartId(r, s.rooms[r].startCount)
    ensures
      var s := Run(Initial(), es);
      var last := Run(Next(s, In(r, Press)), during);
      && Next(last, e).app.connection == Some(Connection(s.rooms[r].rendered, w.sessionId, w.recordId))
      && CS.Holds(last.server, w.sessionId, s.rooms[r].view.assignment.value.scheduledMatchId.value)
  {
    Reached(es);
    var s := Run(Initial(), es);
    var begun := Next(s, In(r, Press));
    var expected := s.rooms[r].view.assignment.value.scheduledMatchId.value;
    NextKeeps(s, In(r, Press));
    RunKeeps(begun, during);
    PressFor(s, r);
    PurposeRun(begun, during, r, s.rooms[r].startCount, s.rooms[r].rendered, expected);
    WriteFor(Run(begun, during), r, s.rooms[r].startCount, s.rooms[r].rendered, expected, e, w);
  }

  lemma WriteFor(s: Sys, r: nat, n: nat, props: Props, expected: Str, e: Event, w: Entry)
    requires SysOk(s) && r < |s.rooms| && BegunFor(s.rooms[r], n, props, expected)
    requires Next(s, e).log == s.log + [w] && w.ConnectionWritten? && w.who == StartId(r, n)
    ensures Next(s, e).app.connection == Some(Connection(props, w.sessionId, w.recordId))
    ensures CS.Holds(s.server, w.sessionId, expected)
  {
    WriteStores(s, e, w);
    HeldForItsMatch(s, r, e.e.i);
  }

  /** The session of a start that ensures its record is held for the match it was pressed for. */
  lemma HeldForItsMatch(s: Sys, r: nat, i: nat)
    requires SysOk(s) && r < |s.rooms| && i < |s.rooms[r].starts| && s.rooms[r].starts[i].pc.Ensuring?
    ensures CS.Holds(s.server, s.rooms[r].starts[i].pc.sessionId, s.rooms[r].starts[i].expected)
  {
    var st := s.rooms[r].starts[i];
    assert RoomOk(s.log, r, s.rooms[r]) && StartOk(s.log, r, st);
    var h := s.log[st.pc.handedAt];
    assert EntryOk(s.log, st.pc.handedAt, h);
    assert s.log[h.openedAt] == SessionOpened(h.expected, h.sessionId);
  }

  // --- the screen -----------------------------------------------------------------------------------

  /** A step that logs a mount leaves that record's scoresheet on screen. */
  lemma MountShows(s: Sys, e: Event, m: Entry)
    requires Next(s, e).log == s.log + [m] && m.ScorerMounted?
    ensures Next(s, e).app.screen == Scoring(m.recordId)
  {
    if e.In? && e.room < |s.rooms| {
      var o := RoomStep(s.server, s.app, s.rooms[e.room], e.room, |s.log|, e.e);
      assert Next(s, e).log == Logged(s.log, o.entry);
      assert o.entry.Some? ==> (s.log + [o.entry.value])[|s.log|] == o.entry.value;
      assert (s.log + [m])[|s.log|] == m;
      if !IsStartEvent(e.e) {
        RoomEventLogsNoAct(s.server, s.rooms[e.room], e.room, |s.log|, e.e);
      }
    }
  }

  /** Nothing but navigation, an ensured record and an answered claim changes the screen. */
  lemma OthersKeepTheScreen(s: Sys, e: Event)
    requires !e.Navigate? && !(e.In? && (e.e.RecordEnsured? || e.e.ClaimResumed?))
    ensures Next(s, e).app.screen == s.app.screen
  {
  }

  /**
   * Where a record was ensured for a start that is still current, the connection is written; if that held, a
   * finished game goes to its completion screen and any other on to the claim. Otherwise nothing is shown.
   */
  lemma EnsuredDecides(s: Sys, r: nat, i: nat, record: Option<Record>, persisted: bool)
    requires r < |s.rooms| && i < |s.rooms[r].starts| && s.rooms[r].starts[i].pc.Ensuring?
    ensures
      var room, t := s.rooms[r], Next(s, In(r, RecordEnsured(i, record, persisted)));
      var st, writes := room.starts[i], record.Some? && IsCurrent(room, room.starts[i]);
      && |t.log| == |s.log| + (if writes then 1 else 0)
      && (writes ==> t.log[|s.log|].ConnectionWritten?)
      && t.app.screen ==
           (if writes && persisted && !record.value.active then Completed(record.value.id) else s.app.screen)
      && (t.rooms[r].starts[i].pc.Claiming? <==> writes && persisted && record.value.active)
      && (t.rooms[r].starts[i].pc.Claiming? ==> t.rooms[r].starts[i].pc.recordId == record.value.id)
  {
  }

  /** A current start with the claim mounts the scorer; without it the duplicate notice is shown. */
  lemma ClaimDecides(s: Sys, r: nat, i: nat, held: bool)
    requires r < |s.rooms| && i < |s.rooms[r].starts| && s.rooms[r].starts[i].pc.Claiming?
    ensures
      var room, t := s.rooms[r], Next(s, In(r, ClaimResumed(i, held)));
      var id, current := room.starts[i].pc.recordId, IsCurrent(room, room.starts[i]);
      && t.app.screen == (if !current then s.app.screen else if held then Scoring(id) else Duplicate(id))
      && |t.log| == |s.log| + (if current && held then 1 else 0)
      && (current && held ==> t.log[|s.log|].ScorerMounted?)
  {
  }

  /** Going to another screen shows it; an opened store stays open. */
  lemma AppFollows(s: Sys, screen: Screen)
    ensures Next(s, Navigate(screen)) == s.(app := App(s.app.storeReady, screen, s.app.connection))
    ensures Next(s, StoreOpened) == s.(app := App(true, s.app.screen, s.app.connection))
  {
  }

  // --- a start, from one await to the next ----------------------------------------------------------

  /** The server honours requests made with this token. */
  predicate Honours(server: Server, token: Str) { server.roomTokenValid && token == CS.ROOM_TOKEN }

  /**
   * Opening a session is asked for with the token the start was pressed with: where that is honoured, the answer
   * is a session the server holds for the match of the start.
   */
  lemma OpenIsAnswered(s: Sys, r: nat, i: nat)
    requires CS.SessionsValid(s.server)
    requires r < |s.rooms| && i < |s.rooms[r].starts| && s.rooms[r].starts[i].pc.OpenSent?
    ensures
      var st, t := s.rooms[r].starts[i], Next(s, In(r, OpenServed(i)));
      var pc := t.rooms[r].starts[i].pc;
      if !Honours(s.server, st.props.token) then pc == Pc.Refused(Failure(Some(401))) && t.log == s.log
      else if st.expected == [] then pc == Pc.Refused(Failure(Some(400))) && t.log == s.log
      else
        && pc.OpenAnswered? && CS.Holds(t.server, pc.sessionId, st.expected)
        && t.log == s.log + [SessionOpened(st.expected, pc.sessionId)]
  {
    var st := s.rooms[r].starts[i];
    CS.StepSessions(s.server, CS.OpenSession(st.props.token, st.expected));
  }

  /** The kickoff read is made with that token too, and gets what is served then. */
  lemma ReadIsAnswered(s: Sys, r: nat, i: nat)
    requires r < |s.rooms| && i < |s.rooms[r].starts| && s.rooms[r].starts[i].pc.ReadSent?
    ensures
      var st, t := s.rooms[r].starts[i], Next(s, In(r, ReadServed(i)));
      var pc := t.rooms[r].starts[i].pc;
      if !Honours(s.server, st.props.token) then pc == Pc.Refused(Failure(Some(401))) && t.log == s.log
      else
        && pc.ReadAnswered? && pc.sessionId == st.pc.sessionId
        && pc.a == (if s.server.served.Some? then s.server.served.value.document else NOTHING)
        && t.log == s.log + [AssignmentRead(pc.a)]
  {
  }

  /** A start whose request was lost holds the failure it was told; one that has sent none is untouched. */
  lemma LossIsKept(s: Sys, r: nat, i: nat, failure: Failure)
    requires r < |s.rooms| && i < |s.rooms[r].starts|
    ensures
      var st, t := s.rooms[r].starts[i], Next(s, In(r, RequestLost(i, failure)));
      t.rooms[r].starts[i].pc == if st.pc.OpenSent? || st.pc.ReadSent? then Pc.Refused(failure) else st.pc
  {
  }

  /** An opened start goes on to its kickoff read with that session if it is still current, and ends otherwise. */
  lemma OpenedGoesOn(s: Sys, r: nat, i: nat)
    requires r < |s.rooms| && i < |s.rooms[r].starts| && s.rooms[r].starts[i].pc.OpenAnswered?
    ensures
      var room, after := s.rooms[r], Next(s, In(r, OpenResumed(i))).rooms[r];
      if IsCurrent(room, room.starts[i]) then
        && |after.starts| == |room.starts| && after.starts[i].pc.ReadSent?
        && after.starts[i].pc.sessionId == room.starts[i].pc.sessionId
      else EndedAt(room.starts, after.starts, i)
  {
  }

  /** A start acts for the room whose effects are in force, and in the visit it was pressed in. */
  lemma ActsWhileCurrent(s: Sys, e: Event, act: Entry)
    requires Next(s, e).log == s.log + [act] && (act.HandedOff? || act.ConnectionWritten? || act.ScorerMounted?)
    ensures e.In? && e.room == act.who.room < |s.rooms| && IsStartEvent(e.e) && e.e.i < |s.rooms[e.room].starts|
    ensures
      var room := s.rooms[e.room];
      var st := room.starts[e.e.i];
      st.number == act.who.number && room.flushed.key == st.props.key && room.generation == st.generation
  {
    if e.In? && e.room < |s.rooms| {
      var o := RoomStep(s.server, s.app, s.rooms[e.room], e.room, |s.log|, e.e);
      assert Next(s, e).log == Logged(s.log, o.entry);
      assert o.entry.Some? ==> (s.log + [o.entry.value])[|s.log|] == o.entry.value;
      assert (s.log + [act])[|s.log|] == act;
      if !IsStartEvent(e.e) {
        RoomEventLogsNoAct(s.server, s.rooms[e.room], e.room, |s.log|, e.e);
      } else {
        PieceActsWhileCurrent(s.server, s.app, s.rooms[e.room], e.room, |s.log|, e.e);
      }
    }
  }

  lemma PieceActsWhileCurrent(server: Server, app: App, room: Room, r: nat, clock: nat, e: RoomEvent)
    requires IsStartEvent(e)
    ensures
      var entry := StartStep(server, app, room, r, clock, e).entry;
      entry.Some? && (entry.value.HandedOff? || entry.value.ConnectionWritten? || entry.value.ScorerMounted?) ==>
        && e.i < |room.starts| && entry.value.who == StartId(r, room.starts[e.i].number)
        && room.flushed.key == room.starts[e.i].props.key && room.generation == room.starts[e.i].generation
  {
  }

  predicate EndedAt(before: seq<Start>, after: seq<Start>, i: nat)
  {
    i < |before| && after == before[..i] + before[i + 1..]
  }

  /** The game a kickoff read yields: an approved definition stands in for a missing one. */
  function GameRead(room: Room, a: Assignment): Option<Definition>
  {
    if a.definition.None? && PK.HasApproved(room.approvedKey, a.Evidence()) then a.emergency else a.definition
  }

  /** The kickoff read of a current start shows what it read; one that is not current shows nothing. */
  lemma KickoffShows(s: Sys, r: nat, i: nat)
    requires r < |s.rooms| && i < |s.rooms[r].starts| && s.rooms[r].starts[i].pc.ReadAnswered?
    ensures
      var room, st, after := s.rooms[r], s.rooms[r].starts[i], Next(s, In(r, ReadResumed(i))).rooms[r];
      after.view ==
        if IsCurrent(room, st)
        then View(Some(st.pc.a.(definition := GameRead(room, st.pc.a))), room.view.forbidden,
                  room.view.credentialProblem)
        else room.view
  {
  }

  /**
   * A current start hands over the game it read exactly if that is for its match, and then waits for a record
   * exactly when there is a store to make it in. In every other case it ends.
   */
  lemma KickoffDecides(s: Sys, r: nat, i: nat)
    requires r < |s.rooms| && i < |s.rooms[r].starts| && s.rooms[r].starts[i].pc.ReadAnswered?
    ensures
      var room, st, t := s.rooms[r], s.rooms[r].starts[i], Next(s, In(r, ReadResumed(i)));
      var a, game, starts := st.pc.a, GameRead(room, st.pc.a), t.rooms[r].starts;
      if IsCurrent(room, st) && game.Some? && a.scheduledMatchId == Some(st.expected) then
        && |t.log| == |s.log| + 1
        && HandsOver(t.log[|s.log|], StartId(r, st.number), st.pc.sessionId, game.value, st.expected)
        && |starts| == |room.starts|
        && (s.app.storeReady ==> starts[i].pc.Ensuring? && starts[i].pc.sessionId == st.pc.sessionId)
        && (!s.app.storeReady ==> starts[i].pc.Returned?)
      else EndedAt(room.starts, starts, i) && t.log == s.log
  {
  }

  predicate HandsOver(h: Entry, who: StartId, sessionId: nat, game: Definition, expected: Str)
  {
    && h.HandedOff? && h.who == who && h.sessionId == sessionId && h.definition == game && h.expected == expected
  }

  /** A returned start ends when it is resumed, and so does any start that throws. */
  lemma ReturnedEnds(s: Sys, r: nat, i: nat)
    requires r < |s.rooms| && i < |s.rooms[r].starts|
    ensures EndedAt(s.rooms[r].starts, Next(s, In(r, Thrown(i))).rooms[r].starts, i)
    ensures s.rooms[r].starts[i].pc.Returned? ==>
      EndedAt(s.rooms[r].starts, Next(s, In(r, Finished(i))).rooms[r].starts, i)
  {
  }

  // --- rendering ------------------------------------------------------------------------------------

  /** A mounted room is rendered for what it is given, and running its effects puts that in force. */
  lemma EffectsFollowRenders(s: Sys, r: nat, props: Props)
    requires r < |s.rooms|
    ensures
      var room := s.rooms[r];
      var committed, flushed := Next(s, In(r, Commit(props))).rooms[r], Next(s, In(r, Flush)).rooms[r];
      && committed == (if room.mounted then room.(rendered := props) else room)
      && flushed.flushed == (if room.mounted then room.rendered else room.flushed)
      && flushed.rendered == room.rendered && flushed.mounted == room.mounted
      && !Next(s, In(r, Unmount)).rooms[r].mounted
  {
  }

  // --- polls and what they show ---------------------------------------------------------------------

  /** Asking for the assignment issues a poll exactly in a mounted room not already waiting for one of the same key. */
  lemma PollIssuedExactlyWhen(s: Sys, r: nat, fromButton: bool)
    requires r < |s.rooms|
    ensures
      var room, after := s.rooms[r], Next(s, In(r, PollIssue(fromButton))).rooms[r];
      var key := (if fromButton then room.rendered else room.flushed).key;
      && (after.sequence > room.sequence <==> room.mounted && !(room.request.Some? && room.request.value.key == key))
      && (after.sequence > room.sequence ==>
            && after.request == Some(Ticket(key, after.sequence)) && after.sequence in after.polls
            && after.polls[after.sequence].props.key == key && after.polls[after.sequence].answer.None?)
      && (after.sequence <= room.sequence ==> after == room)
  {
  }

  /** The server answers a poll with what it serves, to a room whose token it honours. */
  lemma PollGetsTheAssignment(s: Sys, r: nat, n: nat)
    requires r < |s.rooms| && n in s.rooms[r].polls && s.rooms[r].polls[n].answer.None?
    ensures
      var poll, after := s.rooms[r].polls[n], Next(s, In(r, PollServed(n))).rooms[r];
      n in after.polls && after.polls[n].answer ==
        if !(s.server.roomTokenValid && poll.props.token == CS.ROOM_TOKEN) then Some(PollFailed(Failure(Some(401))))
        else if s.server.served.Some? then Some(PollOk(s.server.served.value.document))
        else Some(PollOk(NOTHING))
  {
  }

  /**
   * A poll that was lost answers with its failure, and an answer stands: neither the server nor the network
   * replaces it.
   */
  lemma AnswersStand(s: Sys, r: nat, n: nat, answer: PollAnswer)
    requires r < |s.rooms| && n in s.rooms[r].polls && !answer.PollOk?
    ensures
      var room, lost := s.rooms[r], Next(s, In(r, PollLost(n, answer))).rooms[r];
      if room.polls[n].answer.Some? then lost == room && Next(s, In(r, PollServed(n))).rooms[r] == room
      else lost == room.(polls := room.polls[n := Poll(room.polls[n].props, Some(answer))])
  {
  }

  /** An answered poll that is resumed is over, whatever came of it, and the room waits for it no longer. */
  lemma PollEnds(s: Sys, r: nat, n: nat)
    requires r < |s.rooms| && n in s.rooms[r].polls && s.rooms[r].polls[n].answer.Some?
    ensures
      var room, after := s.rooms[r], Next(s, In(r, PollResumed(n))).rooms[r];
      && after.polls == room.polls - {n}
      && after.request ==
           (if room.request.Some? && room.request.value.sequence == n then None else room.request)
      && (!Answers(room, n) || room.polls[n].answer.value.PollThrew? ==> after.view == room.view)
  {
  }

  /** The newest poll of the room it was asked for, answered. */
  predicate Answers(room: Room, n: nat)
  {
    && n in room.polls && room.polls[n].answer.Some?
    && room.request.Some? && room.request.value.sequence == n && room.polls[n].props.key == room.flushed.key
  }

  /**
   * Such a poll shows the assignment it got, a game in the place of the missing one only if that was approved,
   * and clears both connection problems.
   */
  lemma AppliedPollShows(s: Sys, r: nat, n: nat)
    requires r < |s.rooms| && Answers(s.rooms[r], n) && s.rooms[r].polls[n].answer.value.PollOk?
    ensures
      var room, a := s.rooms[r], s.rooms[r].polls[n].answer.value.a;
      var after := Next(s, In(r, PollResumed(n))).rooms[r];
      && !after.view.forbidden && !after.view.credentialProblem && after.view.assignment.Some?
      && after.view.assignment.value.(definition := a.definition) == a
      && after.view.assignment.value.definition == GameRead(room, a)
      && after.approvedKey == (if room.approvedKey == PK.Key(a.Evidence()) then room.approvedKey else None)
  {
  }

  /** What a refused request does to the notices: 401 is a credential problem, 403 a refusal of the room. */
  ghost predicate Notices(before: View, after: View, status: Option<nat>)
  {
    && after.assignment == before.assignment
    && (after.credentialProblem <==> status == Some(401) || before.credentialProblem)
    && (after.forbidden <==> status == Some(403) || (before.forbidden && status != Some(401)))
  }

  lemma FailedPollShows(s: Sys, r: nat, n: nat)
    requires r < |s.rooms| && Answers(s.rooms[r], n) && s.rooms[r].polls[n].answer.value.PollFailed?
    ensures
      Notices(s.rooms[r].view, Next(s, In(r, PollResumed(n))).rooms[r].view,
              s.rooms[r].polls[n].answer.value.failure.status)
  {
  }

  /** A start that was refused ends, and shows why if it is still current. */
  lemma RefusedStartShows(s: Sys, r: nat, i: nat)
    requires r < |s.rooms| && i < |s.rooms[r].starts| && s.rooms[r].starts[i].pc.Refused?
    ensures
      var room, after := s.rooms[r], Next(s, In(r, OpenResumed(i))).rooms[r];
      && |after.starts| == |room.starts| - 1
      && if IsCurrent(room, room.starts[i]) then Notices(room.view, after.view, room.starts[i].pc.failure.status)
         else after.view == room.view
  {
  }

  // --- when Start is offered ------------------------------------------------------------------------

  /** A press begins a start exactly when a game that is assigned and names its match is shown, and nothing is wrong. */
  lemma PressBeginsExactlyWhen(s: Sys, r: nat)
    requires r < |s.rooms|
    ensures
      var room, after := s.rooms[r], Next(s, In(r, Press)).rooms[r];
      && (after.startCount > room.startCount <==>
            && room.mounted && !room.starting && !room.view.forbidden && !room.view.credentialProblem
            && room.view.assignment.Some? && room.view.assignment.value.state.Assigned?
            && room.view.assignment.value.definition.Some? && room.view.assignment.value.scheduledMatchId.Some?)
      && (after.startCount > room.startCount ==>
            after.starting && |after.starts| == |room.starts| + 1
            && after.starts[|room.starts|].pc.OpenSent? && after.starts[|room.starts|].number == room.startCount)
      && (after.startCount <= room.startCount ==> after == room)
  {
  }

  /** Approving shows the emergency definition as the game, and files the key of what was shown. */
  lemma ApprovalShows(s: Sys, r: nat)
    requires r < |s.rooms| && s.rooms[r].mounted && s.rooms[r].view.assignment.Some?
    requires s.rooms[r].view.assignment.value.emergency.Some?
    ensures
      var a, after := s.rooms[r].view.assignment.value, Next(s, In(r, Approve)).rooms[r];
      && after.view.assignment == Some(a.(definition := a.emergency))
      && after.approvedKey == PK.Key(a.Evidence())
  {
  }

  predicate Barred(room: Room) { room.view.forbidden || room.view.credentialProblem }

  ghost predicate PollsApplied(before: seq<Entry>, after: seq<Entry>, r: nat)
  {
    exists i :: |before| <= i < |after| && after[i].PollApplied? && after[i].room == r
  }

  lemma BarredMove(room: Room, view: View, move: Move)
    requires Barred(room) && (view.forbidden || view.credentialProblem)
    ensures Barred(ApplyMove(room.(view := view), move))
    ensures ApplyMove(room.(view := view), move).startCount == room.startCount
  {
  }

  lemma StartKeepsBar(server: Server, app: App, room: Room, r: nat, clock: nat, e: RoomEvent)
    requires IsStartEvent(e) && Barred(room)
    ensures
      var view := StartStep(server, app, room, r, clock, e).view;
      view.forbidden || view.credentialProblem
  {
  }

  lemma EventKeepsBar(server: Server, room: Room, r: nat, clock: nat, e: RoomEvent)
    requires !IsStartEvent(e) && Barred(room)
    ensures
      var (after, entry) := RoomEventStep(server, room, r, clock, e);
      (entry.Some? && entry.value.PollApplied? && entry.value.room == r)
      || (Barred(after) && after.startCount == room.startCount)
  {
  }

  lemma BarredStep(s: Sys, e: Event, r: nat)
    requires r < |s.rooms| && Barred(s.rooms[r])
    ensures s.log <= Next(s, e).log && r < |Next(s, e).rooms|
    ensures PollsApplied(s.log, Next(s, e).log, r)
      || (Barred(Next(s, e).rooms[r]) && Next(s, e).rooms[r].startCount == s.rooms[r].startCount)
  {
    if e.In? && e.room == r {
      if IsStartEvent(e.e) {
        var f := StartStep(s.server, s.app, s.rooms[r], r, |s.log|, e.e);
        StartKeepsBar(s.server, s.app, s.rooms[r], r, |s.log|, e.e);
        BarredMove(s.rooms[r], f.view, f.move);
      } else {
        var (after, entry) := RoomEventStep(s.server, s.rooms[r], r, |s.log|, e.e);
        EventKeepsBar(s.server, s.rooms[r], r, |s.log|, e.e);
        assert entry.Some? ==> Next(s, e).log[|s.log|] == entry.value;
      }
    }
  }

  /** A room that was refused begins no start until an assignment has been read again. */
  lemma {:induction false} BarredUntilRead(s: Sys, es: seq<Event>, r: nat)
    requires r < |s.rooms| && Barred(s.rooms[r])
    ensures s.log <= Run(s, es).log && r < |Run(s, es).rooms|
    ensures PollsApplied(s.log, Run(s, es).log, r)
      || (Barred(Run(s, es).rooms[r]) && Run(s, es).rooms[r].startCount == s.rooms[r].startCount)
    decreases |es|
  {
    if es != [] {
      var t := Next(s, es[0]);
      BarredStep(s, es[0], r);
      LogGrows(t, es[1..]);
      if PollsApplied(s.log, t.log, r) {
        var i :| |s.log| <= i < |t.log| && t.log[i].PollApplied? && t.log[i].room == r;
        assert Run(s, es).log[i] == t.log[i];
      } else {
        BarredUntilRead(t, es[1..], r);
        assert PollsApplied(t.log, Run(t, es[1..]).log, r) ==> PollsApplied(s.log, Run(s, es).log, r);
      }
    }
  }

  lemma {:induction false} LogGrows(s: Sys, es: seq<Event>)
    ensures s.log <= Run(s, es).log && |s.rooms| <= |Run(s, es).rooms|
    decreases |es|
  {
    if es != [] {
      LogGrows(Next(s, es[0]), es[1..]);
    }
  }
}

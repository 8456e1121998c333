// When the retry service gives a capability up, and that a failure worth retrying is sent again.
module RetryOutcomes {
  import opened Text
  import L = ResultLedger
  import opened RetryService
  import opened RetryBooks
  import opened RetryTheorems

  /** Nothing more will be tried for a delivery: it was accepted, is not worth retrying, or is not supported. */
  predicate GivesUp(d: L.Delivery) { d.state.Sent? || !d.retryable || d.unsupported }

  /** The write of a recording throws; one that writes nothing cannot. */
  predicate WriteThrows(pc: Pc, write: Write)
    requires pc.Saving?
  {
    write.Threw? && pc.seen.Some? && !L.Ignored(pc.seen.value.record, pc.arrival.d)
  }

  /** A save gives the capability up exactly when nothing more will be tried, it did not throw and storage lets go. */
  lemma ForgetsExactlyWhen(s: State, i: nat, write: Write, forgets: bool)
    requires MaySave(s, i)
    ensures
      var t, op := Next(s, Save(i, write, forgets)), s.ops[i];
      var gone := GivesUp(op.pc.arrival.d) && forgets && !WriteThrows(op.pc, write);
      && t.capabilities == (if gone then s.capabilities - {op.id} else s.capabilities)
      && (gone <==> |t.log| > |s.log| && t.log[|t.log| - 1] == Forgot(i, op.id))
  {
    StoreShape(s, i, write);
    ForgetShape(Store(s, i, write), i, s.ops[i].pc.arrival.d, forgets);
  }

  /** The save of an operation whose delivery will not be tried again. */
  predicate IsGivingUp(s: State, e: Event, i: nat, id: Str)
  {
    e.Save? && e.i == i && MaySave(s, i) && s.ops[i].id == id && GivesUp(s.ops[i].pc.arrival.d) && e.forgets
  }

  lemma StepForgets(s: State, e: Event, k: nat)
    requires k < |Next(s, e).log| && Next(s, e).log[k].Forgot?
    ensures s.log <= Next(s, e).log
    ensures k >= |s.log| ==> IsGivingUp(s, e, Next(s, e).log[k].op, Next(s, e).log[k].id)
  {
    if e.Save? && MaySave(s, e.i) {
      SaveForgets(s, e.i, e.write, e.forgets, k);
    } else {
      OthersForgetNothing(s, e, k);
    }
  }

  lemma SaveForgets(s: State, i: nat, write: Write, forgets: bool, k: nat)
    requires MaySave(s, i) && k < |SaveOutcome(s, i, write, forgets).log|
    ensures s.log <= SaveOutcome(s, i, write, forgets).log
    ensures
      var t := SaveOutcome(s, i, write, forgets);
      k >= |s.log| && t.log[k].Forgot? ==> IsGivingUp(s, Save(i, write, forgets), t.log[k].op, t.log[k].id)
  {
    StoreShape(s, i, write);
    ForgetShape(Store(s, i, write), i, s.ops[i].pc.arrival.d, forgets);
  }

  lemma OthersForgetNothing(s: State, e: Event, k: nat)
    requires !(e.Save? && MaySave(s, e.i)) && k < |Next(s, e).log|
    ensures s.log <= Next(s, e).log
    ensures k >= |s.log| ==> !Next(s, e).log[k].Forgot?
  {
    if IsStage(e) && e.i < |s.ops| {
      var note := Note(e.i, s.ops[e.i], Move(s, e));
      assert Next(s, e).log == s.log + note;
      assert forall n :: 0 <= n < |note| ==> !note[n].Forgot?;
    }
  }

  /** In every run a capability is only ever given up by such a save. */
  lemma {:induction false} OnlyGivingUpForgets(s: State, es: seq<Event>, k: nat)
    requires |s.log| <= k < |Run(s, es).log| && Run(s, es).log[k].Forgot?
    ensures
      var e := Run(s, es).log[k];
      exists n: nat :: n < |es| && IsGivingUp(Run(s, es[..n]), es[n], e.op, e.id)
    decreases |es|
  {
    var n := |es| - 1;
    RunNext(s, es, n);
    assert es[..n + 1] == es;
    var before := Run(s, es[..n]);
    StepForgets(before, es[n], k);
    if k < |before.log| {
      OnlyGivingUpForgets(s, es[..n], k);
      var m: nat :| m < n && IsGivingUp(Run(s, es[..n][..m]), es[..n][m], before.log[k].op, before.log[k].id);
      assert es[..n][..m] == es[..m];
    }
  }

  // --- a failure worth retrying ---------------------------------------------------------------------

  lemma HistoryStep(s: State, e: Event)
    ensures Next(s, e).history.Keys == s.history.Keys
  {
    if e.Save? && MaySave(s, e.i) {
      SaveShape(s, e.i, e.write, e.forgets);
    }
  }

  lemma {:induction false} HistoryRun(s: State, es: seq<Event>)
    ensures Run(s, es).history.Keys == s.history.Keys
    decreases |es|
  {
    if es != [] {
      HistoryStep(s, es[0]);
      HistoryRun(Next(s, es[0]), es[1..]);
    }
  }

  /** The retry `i` is about to record a failure that is worth another try, of a record still there and sendable. */
  predicate FailsForNow(s: State, i: nat)
  {
    && MaySave(s, i) && !s.ops[i].direct && s.ops[i].id in s.games && s.ops[i].id in s.capabilities
    && s.games[s.ops[i].id].connected && s.games[s.ops[i].id].record.Completed()
    && s.ops[i].pc.seen.Some? && !L.Ignored(s.ops[i].pc.seen.value.record, s.ops[i].pc.arrival.d)
    && !GivesUp(s.ops[i].pc.arrival.d)
  }

  /** Its save keeps the record eligible and the capability held. */
  lemma FailureIsSaved(s: State, i: nat, forgets: bool)
    requires FailsForNow(s, i) && s.ops[i].id in s.history
    ensures
      var t, id := Next(s, Save(i, Taken, forgets)), s.ops[i].id;
      && t.log == s.log + [SavedEntry(s, i)] && t.capabilities == s.capabilities && t.pending == s.pending
      && t.ops == s.ops[i := s.ops[i].(pc := Settled)]
      && id in t.games && Eligible(t.games[id])
  {
    StoreShape(s, i, Taken);
    assert Store(s, i, Taken).log == s.log + [SavedEntry(s, i)];
    StoreDecides(s, i, Taken);
  }

  lemma ClosedIsFree(s: State, i: nat)
    requires SingleFlight(s) && i < |s.ops| && s.ops[i].pc.Settled? && !s.ops[i].direct
    ensures
      var t := Next(s, Close(i));
      && s.ops[i].id !in t.pending && |t.ops| == |s.ops|
      && t.log == s.log && t.games == s.games && t.capabilities == s.capabilities
  {
  }

  /** What the service does about a failure worth retrying: the save, its end, and another retry. */
  function TriedAgain(s: State, i: nat, forgets: bool): State
    requires i < |s.ops|
  {
    Retried(Next(Next(s, Save(i, Taken, forgets)), Close(i)), s.ops[i].id)
  }

  /** In every run, after a failure worth retrying was saved and its retry ended, the next retry sends again. */
  lemma FailureIsSentAgain(first: State, es: seq<Event>, i: nat, forgets: bool)
    requires Start(first) && FailsForNow(Run(first, es), i)
    ensures
      var s := Run(first, es);
      TriedAgain(s, i, forgets).log == s.log + [SavedEntry(s, i), Posted(|s.ops|, s.ops[i].id, |s.log| + 1)]
  {
    FlightRun(first, es);
    LogTellsTheStore(first, es);
    HistoryRun(first, es);
    SentAgain(Run(first, es), i, forgets);
  }

  lemma SavedAndClosed(s: State, i: nat, forgets: bool)
    requires SingleFlight(s) && FailsForNow(s, i) && s.ops[i].id in s.history
    ensures
      var t, id := Next(Next(s, Save(i, Taken, forgets)), Close(i)), s.ops[i].id;
      && t.log == s.log + [SavedEntry(s, i)] && |t.ops| == |s.ops| && id !in t.pending
      && id in t.games && id in t.capabilities && Eligible(t.games[id])
  {
    FailureIsSaved(s, i, forgets);
    FlightStep(s, Save(i, Taken, forgets));
    ClosedIsFree(Next(s, Save(i, Taken, forgets)), i);
  }

  lemma SentAgain(s: State, i: nat, forgets: bool)
    requires SingleFlight(s) && FailsForNow(s, i) && s.ops[i].id in s.history
    ensures
      TriedAgain(s, i, forgets).log == s.log + [SavedEntry(s, i), Posted(|s.ops|, s.ops[i].id, |s.log| + 1)]
  {
    SavedAndClosed(s, i, forgets);
    RetrySends(Next(Next(s, Save(i, Taken, forgets)), Close(i)), s.ops[i].id);
  }

  /** A retry of a record that may be sent, while none is under way, sends it. */
  lemma RetrySends(s: State, id: Str)
    requires id !in s.pending && id in s.games && id in s.capabilities && Eligible(s.games[id])
    ensures Retried(s, id).log == s.log + [Posted(|s.ops|, id, |s.log|)]
  {
    RetryReads(s, id);
    BeginAfter(Next(Next(s, Retry(id)), Load(|s.ops|, false)), |s.ops|);
  }

  // --- what may be sent, and what the other events do -----------------------------------------------

  /**
   * A retry that has read its record sends its request exactly when there was one, connected and completed, neither
   * accepted nor without a server, its last failure not final, and the capability is held; else it ends.
   */
  lemma BeginsExactlyWhen(s: State, i: nat)
    requires i < |s.ops| && s.ops[i].pc.Loaded?
    ensures
      var op, t := s.ops[i], Next(s, Begin(i));
      var sends := op.pc.game.Some? && op.id in s.capabilities && MayBeSent(op.pc.game.value);
      && t.log == (if sends then s.log + [Posted(i, op.id, op.pc.since)] else s.log)
      && (t.ops[i].pc.Posting? <==> sends) && (!sends ==> t.ops[i].pc.Settled?)
  {
  }

  predicate MayBeSent(g: Game)
  {
    && g.connected && g.record.completedAt.Some? && g.record.finalQbj.Some?
    && (g.record.serverDelivery.Pending? || g.record.serverDelivery.Rejected?)
    && (g.record.ledger.Some? ==> g.record.ledger.value.retryable != Some(false))
  }

  /** A read gives the record that is there, and nothing when it fails: a retry's first, and the one before a save. */
  lemma ReadsSee(s: State, i: nat, fails: bool)
    requires i < |s.ops|
    ensures
      var id := s.ops[i].id;
      var seen := if id in s.games && !fails then Some(s.games[id]) else None;
      && (s.ops[i].pc.Reading? ==> Next(s, Load(i, fails)).ops[i].pc == Loaded(seen, |s.log|))
      && (s.ops[i].pc.Answered? ==> Next(s, Look(i, fails)).ops[i].pc == Saving(s.ops[i].pc.arrival, seen, |s.log|))
  {
  }

  /** A step that throws ends its operation, and an answer is the one that arrived. */
  lemma AnswersAndThrows(s: State, i: nat, arrival: L.Arrival)
    requires i < |s.ops| && !s.ops[i].pc.Closed?
    ensures Next(s, Throw(i)).ops[i].pc.Settled? && Next(s, Throw(i)).log == s.log
    ensures s.ops[i].pc.Posting? && arrival.d.Valid() ==> Next(s, Answer(i, arrival)).ops[i].pc == Answered(arrival)
  {
  }

  /** A retry under way is joined; otherwise one begins, and a closed one makes room for the next. */
  lemma RetriesJoin(s: State, id: Str)
    ensures id in s.pending ==> Next(s, Retry(id)) == s
    ensures id !in s.pending ==>
      && Next(s, Retry(id)).ops == s.ops + [Op(id, false, Reading)]
      && id in Next(s, Retry(id)).pending && Next(s, Retry(id)).pending[id] == |s.ops|
  {
  }

  /** What remembering, expiring and pruning change. */
  lemma OthersDo(s: State, id: Str)
    ensures Next(s, Remember(id)).capabilities == s.capabilities + {id}
    ensures Next(s, Expire(id)).capabilities == s.capabilities - {id}
    ensures Next(s, Prune(id)).games == s.games - {id} && Next(s, Prune(id)).capabilities == s.capabilities
  {
  }

  /**
   * A recording whose record was read and may be written puts the delivery into the ledger if the database takes it,
   * and changes nothing of the record if it does not. The delivery is in the record's history exactly if the record
   * is now as it should be after it: it was written, or there was nothing to write.
   */
  lemma SaveWrites(s: State, i: nat, write: Write, forgets: bool)
    requires MaySave(s, i) && s.ops[i].id in s.games && s.ops[i].id in s.history
    ensures
      var id, pc, t := s.ops[i].id, s.ops[i].pc, Next(s, Save(i, write, forgets));
      var writes := pc.seen.Some? && !L.Ignored(pc.seen.value.record, pc.arrival.d) && write.Taken?;
      && id in t.games
      && t.games[id] ==
           (if writes
            then s.games[id].(record := L.Commit(pc.seen.value.record, s.games[id].record, pc.arrival.d, pc.arrival.at))
            else s.games[id])
      && t.history[id] == s.history[id] +
           (if writes || (pc.seen.Some? && L.Ignored(pc.seen.value.record, pc.arrival.d)) then [pc.arrival] else [])
      && t.ops[i].pc.Settled?
  {
  }
}

// What the retry service guarantees for a record that only retries deliver: no request after a saved receipt,
// a ledger that is its history, and exactly when an accepted result is sent again.
module RetryTheorems {
  import opened Text
  import L = ResultLedger
  import opened RetryService
  import opened RetryBooks

  /** No outcome of this record was recorded from outside the service. */
  ghost predicate Alone(s: State, id: Str)
  {
    forall i :: 0 <= i < |s.ops| && s.ops[i].id == id ==> !s.ops[i].direct
  }

  ghost predicate NotSaved(log: seq<Entry>, id: Str)
  {
    forall j :: 0 <= j < |log| && SavesOf(log[j], id) ==> !log[j].receipt
  }

  // --- the invariant of one record ------------------------------------------------------------------

  predicate IsPosted(e: Entry, i: nat, id: Str) { e.Posted? && e.op == i && e.id == id }

  ghost predicate HasPosted(log: seq<Entry>, i: nat, id: Str)
  {
    exists j :: 0 <= j < |log| && IsPosted(log[j], i, id)
  }

  /** A retry that has sent its request: the record is still what made it eligible. */
  ghost predicate SentFor(s: State, i: nat, id: Str)
  {
    NotSaved(s.log, id) && (id in s.games ==> Eligible(s.games[id])) && HasPosted(s.log, i, id)
  }

  /** What a retry knows about its record. */
  ghost predicate OpOk(s: State, i: nat, op: Op)
  {
    match op.pc
    case Loaded(game, _) =>
      && (game.Some? && op.id in s.games ==> game.value == s.games[op.id])
      && (game.Some? && !game.value.record.serverDelivery.Sent? ==> NotSaved(s.log, op.id))
    case Posting => SentFor(s, i, op.id)
    case Answered(arrival) => SentFor(s, i, op.id)
    case Saving(arrival, seen, _) =>
      SentFor(s, i, op.id) && (seen.Some? && op.id in s.games ==> seen.value == s.games[op.id])
    case _ => true
  }

  ghost predicate OpsOk(s: State, id: Str)
  {
    forall i :: 0 <= i < |s.ops| && s.ops[i].id == id ==> OpOk(s, i, s.ops[i])
  }

  /** An acceptance is logged for an operation that has its answer. */
  predicate Answers(op: Op)
  {
    match op.pc
    case Answered(arrival) => arrival.d.state.Sent?
    case Saving(arrival, _, _) => arrival.d.state.Sent?
    case Settled => true
    case Closed => true
    case _ => false
  }

  ghost predicate AcceptedOk(s: State)
  {
    forall j :: 0 <= j < |s.log| && s.log[j].Accepted? && s.log[j].op < |s.ops| ==> Answers(s.ops[s.log[j].op])
  }

  predicate About(e: Entry, id: Str) { IsOps(e) && e.id == id }

  /** What the earlier of two entries about one record has to do with the later. */
  predicate Precedes(p: Entry, q: Entry)
    requires IsOps(p) && IsOps(q)
  {
    && p.op <= q.op
    && (p.Accepted? && q.Posted? ==> p.op < q.op)
    && (p.Saved? && p.receipt ==> !q.Posted?)
  }

  /** Entries about one record come in the order of their operations. */
  ghost predicate InOrder(log: seq<Entry>, id: Str)
  {
    forall p, q :: 0 <= p < q < |log| && About(log[p], id) && About(log[q], id) ==> Precedes(log[p], log[q])
  }

  ghost predicate SavedReceipt(log: seq<Entry>, i: nat, id: Str)
  {
    exists q :: 0 <= q < |log| && SavesOf(log[q], id) && log[q].op == i && log[q].receipt
  }

  ghost predicate PostedLater(log: seq<Entry>, i: nat, id: Str)
  {
    exists q :: 0 <= q < |log| && log[q].Posted? && log[q].id == id && log[q].op > i
  }

  /** An accepted answer that was not saved leaves the record eligible until something else is sent. */
  ghost predicate LeftEligible(s: State, i: nat, id: Str)
  {
    id in s.games && !SavedReceipt(s.log, i, id) && !PostedLater(s.log, i, id) ==> Eligible(s.games[id])
  }

  ghost predicate LostOk(s: State, id: Str)
  {
    forall j :: 0 <= j < |s.log| && s.log[j].Accepted? && s.log[j].id == id ==> LeftEligible(s, s.log[j].op, id)
  }

  ghost predicate SentOnce(s: State, id: Str)
  {
    id in s.games && Unsent(s.games[id]) ==> NotSaved(s.log, id)
  }

  predicate Unsent(g: Game) { !g.record.serverDelivery.Sent? }

  ghost predicate HistoryOk(first: State, s: State, id: Str)
  {
    && s.games.Keys <= first.games.Keys && s.history.Keys == first.games.Keys
    && (id in s.history ==> L.AllValid(s.history[id]))
    && (id in s.games ==> s.games[id].record == L.Apply(first.games[id].record, s.history[id]))
  }

  ghost predicate Own(first: State, s: State, id: Str)
  {
    && OpsOk(s, id) && AcceptedOk(s) && InOrder(s.log, id) && LostOk(s, id) && SentOnce(s, id)
    && HistoryOk(first, s, id)
  }

  ghost predicate Inv(first: State, s: State, id: Str)
  {
    SingleFlight(s) && LogIds(s.ops, s.log) && Own(first, s, id)
  }

  // --- entries --------------------------------------------------------------------------------------

  /** What was logged before still was, and what is new is not about the record. */
  ghost predicate Elsewhere(log: seq<Entry>, more: seq<Entry>, id: Str)
  {
    log <= more && forall j :: |log| <= j < |more| ==> !About(more[j], id)
  }

  lemma ElsewhereKeeps(log: seq<Entry>, more: seq<Entry>, id: Str)
    requires Elsewhere(log, more, id)
    ensures NotSaved(more, id) <==> NotSaved(log, id)
    ensures InOrder(log, id) ==> InOrder(more, id)
    ensures forall i :: HasPosted(log, i, id) ==> HasPosted(more, i, id)
    ensures forall i :: SavedReceipt(log, i, id) <==> SavedReceipt(more, i, id)
    ensures forall i :: PostedLater(log, i, id) <==> PostedLater(more, i, id)
  {
    assert forall j :: 0 <= j < |log| ==> more[j] == log[j];
  }

  /** Nothing about the record changed, but that it may be gone or a retry of it begun. */
  ghost predicate Untouched(s: State, t: State, id: Str)
  {
    && |s.ops| <= |t.ops| && Elsewhere(s.log, t.log, id)
    && (forall i :: 0 <= i < |s.ops| && s.ops[i].id == id ==> t.ops[i] == s.ops[i])
    && (forall i :: 0 <= i < |s.ops| ==> t.ops[i].id == s.ops[i].id)
    && (forall i :: |s.ops| <= i < |t.ops| && t.ops[i].id == id ==> t.ops[i].pc.Reading?)
    && (id in t.games ==> id in s.games && t.games[id] == s.games[id])
    && t.games.Keys <= s.games.Keys && t.history.Keys == s.history.Keys
    && (id in s.history ==> t.history[id] == s.history[id])
  }

  lemma UntouchedOps(s: State, t: State, id: Str)
    requires Untouched(s, t, id) && OpsOk(s, id)
    ensures OpsOk(t, id)
  {
    ElsewhereKeeps(s.log, t.log, id);
    forall i | 0 <= i < |t.ops| && t.ops[i].id == id ensures OpOk(t, i, t.ops[i]) {
      if i < |s.ops| {
        assert OpOk(s, i, s.ops[i]);
      }
    }
  }

  lemma UntouchedKeeps(first: State, s: State, t: State, id: Str)
    requires Own(first, s, id) && Untouched(s, t, id) && AcceptedOk(t)
    ensures Own(first, t, id)
  {
    UntouchedOps(s, t, id);
    ElsewhereKeeps(s.log, t.log, id);
    forall j | 0 <= j < |t.log| && t.log[j].Accepted? && t.log[j].id == id ensures LeftEligible(t, t.log[j].op, id) {
      assert About(t.log[j], id);
      assert t.log[j] == s.log[j];
    }
  }

  // --- one step -------------------------------------------------------------------------------------

  lemma AcceptedAt(s: State, t: State, i: nat)
    requires LogIds(s.ops, s.log) && AcceptedOk(s) && i < |s.ops| == |t.ops| && s.log <= t.log
    requires forall k :: 0 <= k < |s.ops| && k != i ==> t.ops[k] == s.ops[k]
    requires Answers(s.ops[i]) ==> Answers(t.ops[i])
    requires forall j :: |s.log| <= j < |t.log| && t.log[j].Accepted? ==> t.log[j].op == i && Answers(t.ops[i])
    ensures AcceptedOk(t)
  {
  }

  lemma AcceptedStage(s: State, e: Event)
    requires LogIds(s.ops, s.log) && AcceptedOk(s) && IsStage(e) && e.i < |s.ops|
    ensures AcceptedOk(Stage(s, e))
  {
    AcceptedAt(s, Stage(s, e), e.i);
  }

  lemma AcceptedOpen(s: State, e: Event)
    requires LogIds(s.ops, s.log) && AcceptedOk(s) && (e.Retry? || e.Record?)
    ensures AcceptedOk(Next(s, e))
  {
  }

  lemma AcceptedStep(s: State, e: Event)
    requires LogIds(s.ops, s.log) && AcceptedOk(s)
    ensures AcceptedOk(Next(s, e))
  {
    if e.Retry? || e.Record? {
      AcceptedOpen(s, e);
    } else if e.Save? {
      if MaySave(s, e.i) {
        SaveShape(s, e.i, e.write, e.forgets);
        AcceptedAt(s, Next(s, e), e.i);
      }
    } else if IsStage(e) && e.i < |s.ops| {
      AcceptedStage(s, e);
    }
  }

  /** The event runs a piece of an operation on this record, or begins one from outside. */
  predicate Touches(s: State, e: Event, id: Str)
  {
    || (e.Record? && e.id == id)
    || ((IsStage(e) || e.Save?) && e.i < |s.ops| && s.ops[e.i].id == id)
  }

  lemma OtherStage(s: State, e: Event, id: Str)
    requires IsStage(e) && e.i < |s.ops| && s.ops[e.i].id != id
    ensures Untouched(s, Stage(s, e), id)
  {
  }

  lemma OtherSave(s: State, e: Event, id: Str)
    requires e.Save? && MaySave(s, e.i) && s.ops[e.i].id != id
    ensures Untouched(s, Next(s, e), id)
  {
    SaveShape(s, e.i, e.write, e.forgets);
  }

  lemma OtherTable(s: State, e: Event, id: Str)
    requires !Touches(s, e, id) && !IsStage(e) && !e.Save?
    ensures Untouched(s, Next(s, e), id)
  {
  }

  lemma OtherStep(s: State, e: Event, id: Str)
    requires !Touches(s, e, id)
    ensures Untouched(s, Next(s, e), id)
  {
    if e.Save? {
      if MaySave(s, e.i) {
        OtherSave(s, e, id);
      }
    } else if IsStage(e) {
      if e.i < |s.ops| {
        OtherStage(s, e, id);
      }
    } else {
      OtherTable(s, e, id);
    }
  }

  /** An operation that is open is the only open one of its record, and the last one logged. */
  lemma OnlyOpen(s: State, i: nat, id: Str)
    requires SingleFlight(s) && LogIds(s.ops, s.log) && Alone(s, id)
    requires i < |s.ops| && s.ops[i].id == id && !s.ops[i].pc.Closed?
    ensures forall k :: 0 <= k < |s.ops| && s.ops[k].id == id && k != i ==> s.ops[k].pc.Closed?
    ensures forall j :: 0 <= j < |s.log| && About(s.log[j], id) ==> s.log[j].op <= i
  {
    forall k | 0 <= k < |s.ops| && s.ops[k].id == id && k != i ensures s.ops[k].pc.Closed? && k < i {
      assert !s.ops[k].direct && !s.ops[i].direct;
    }
  }

  /** One entry more about a record, made by its only open operation. */
  lemma OrderedEntry(log: seq<Entry>, e: Entry, id: Str)
    requires InOrder(log, id) && About(e, id)
    requires forall j :: 0 <= j < |log| && About(log[j], id) ==> Precedes(log[j], e)
    ensures InOrder(log + [e], id)
  {
    var more := log + [e];
    forall p, q | 0 <= p < q < |more| && About(more[p], id) && About(more[q], id) ensures Precedes(more[p], more[q]) {
      assert more[p] == log[p];
    }
  }

  /** A move within the set-up of a request or after it, which logs nothing. */
  lemma SilentMove(first: State, s: State, e: Event, id: Str)
    requires Inv(first, s, id) && Alone(s, id) && IsStage(e) && e.i < |s.ops| && s.ops[e.i].id == id
    requires Note(e.i, s.ops[e.i], Move(s, e)) == []
    ensures Own(first, Stage(s, e), id)
  {
    var t := Stage(s, e);
    AcceptedStep(s, e);
    assert t.log == s.log;
    assert OpOk(s, e.i, s.ops[e.i]);
    assert OpOk(t, e.i, t.ops[e.i]);
    forall k | 0 <= k < |t.ops| && t.ops[k].id == id ensures OpOk(t, k, t.ops[k]) {
      if k != e.i {
        assert OpOk(s, k, s.ops[k]);
      }
    }
    forall j | 0 <= j < |t.log| && t.log[j].Accepted? && t.log[j].id == id ensures LeftEligible(t, t.log[j].op, id) {
      assert LeftEligible(s, s.log[j].op, id);
    }
  }

  lemma LogMore(log: seq<Entry>, e: Entry, id: Str)
    requires e.Posted? || e.Accepted?
    ensures NotSaved(log + [e], id) <==> NotSaved(log, id)
    ensures forall i :: HasPosted(log, i, id) ==> HasPosted(log + [e], i, id)
    ensures e.Posted? && e.id == id ==> HasPosted(log + [e], e.op, id)
    ensures forall i :: SavedReceipt(log + [e], i, id) ==> SavedReceipt(log, i, id)
    ensures forall i :: PostedLater(log, i, id) ==> PostedLater(log + [e], i, id)
    ensures e.Posted? && e.id == id ==> forall i: nat :: i < e.op ==> PostedLater(log + [e], i, id)
  {
    var more := log + [e];
    assert more[|log|] == e && forall j :: 0 <= j < |log| ==> more[j] == log[j];
    if e.Posted? && e.id == id {
      assert IsPosted(more[|log|], e.op, id);
    }
  }

  /** What the other operations of the record know is nothing. */
  lemma OnlyOneKnows(s: State, t: State, i: nat, id: Str)
    requires SingleFlight(s) && LogIds(s.ops, s.log) && Alone(s, id)
    requires i < |s.ops| && s.ops[i].id == id && !s.ops[i].pc.Closed?
    requires |t.ops| == |s.ops| && forall k :: 0 <= k < |s.ops| && k != i ==> t.ops[k] == s.ops[k]
    requires t.ops[i].id == id && OpOk(t, i, t.ops[i])
    ensures OpsOk(t, id)
  {
    OnlyOpen(s, i, id);
  }

  lemma BeginPosts(first: State, s: State, i: nat, id: Str)
    requires Inv(first, s, id) && Alone(s, id) && i < |s.ops| && s.ops[i].id == id
    requires s.ops[i].pc.Loaded? && Move(s, Begin(i)).Posting?
    ensures Own(first, Stage(s, Begin(i)), id)
  {
    var t, e := Stage(s, Begin(i)), Posted(i, id, s.ops[i].pc.since);
    assert t.log == s.log + [e];
    AcceptedStep(s, Begin(i));
    OnlyOpen(s, i, id);
    LogMore(s.log, e, id);
    assert OpOk(s, i, s.ops[i]);
    OnlyOneKnows(s, t, i, id);
    forall j | 0 <= j < |s.log| && About(s.log[j], id) ensures Precedes(s.log[j], e) {
      if s.log[j].Accepted? {
        assert Answers(s.ops[s.log[j].op]);
      }
    }
    OrderedEntry(s.log, e, id);
    forall j | 0 <= j < |t.log| && t.log[j].Accepted? && t.log[j].id == id ensures LeftEligible(t, t.log[j].op, id) {
      assert t.log[j] == s.log[j] && Precedes(s.log[j], e);
    }
  }

  lemma AnswerAccepts(first: State, s: State, i: nat, arrival: L.Arrival, id: Str)
    requires Inv(first, s, id) && Alone(s, id) && i < |s.ops| && s.ops[i].id == id
    requires s.ops[i].pc.Posting? && arrival.d.Valid() && arrival.d.state.Sent?
    ensures Own(first, Stage(s, Answer(i, arrival)), id)
  {
    var t, e := Stage(s, Answer(i, arrival)), Accepted(i, id);
    assert t.log == s.log + [e];
    AcceptedStep(s, Answer(i, arrival));
    OnlyOpen(s, i, id);
    LogMore(s.log, e, id);
    assert OpOk(s, i, s.ops[i]);
    OnlyOneKnows(s, t, i, id);
    OrderedEntry(s.log, e, id);
    forall j | 0 <= j < |t.log| && t.log[j].Accepted? && t.log[j].id == id ensures LeftEligible(t, t.log[j].op, id) {
      if j < |s.log| {
        assert t.log[j] == s.log[j] && LeftEligible(s, s.log[j].op, id);
      }
    }
  }

  lemma StageStep(first: State, s: State, e: Event, id: Str)
    requires Inv(first, s, id) && Alone(s, id) && IsStage(e) && e.i < |s.ops| && s.ops[e.i].id == id
    ensures Own(first, Stage(s, e), id)
  {
    var note := Note(e.i, s.ops[e.i], Move(s, e));
    if note == [] {
      SilentMove(first, s, e, id);
    } else if e.Begin? {
      BeginPosts(first, s, e.i, id);
    } else {
      AnswerAccepts(first, s, e.i, e.arrival, id);
    }
  }

  // The save.

  lemma AppliesOneMore(record: L.Record, hs: seq<L.Arrival>, h: L.Arrival)
    requires L.AllValid(hs) && h.d.Valid()
    ensures L.AllValid(hs + [h]) && L.Apply(record, hs + [h]) == L.Recorded(L.Apply(record, hs), h.d, h.at)
  {
    assert (hs + [h])[..|hs|] == hs;
  }

  /** Where the record is still as it was read, a save adds its delivery to the history, or adds nothing. */
  lemma StoreAdds(s: State, i: nat, write: Write, id: Str)
    requires MaySave(s, i) && s.ops[i].id == id && id in s.games && id in s.history
    requires s.ops[i].pc.seen.Some? ==> s.ops[i].pc.seen.value == s.games[id]
    ensures
      var t, h := Store(s, i, write), s.ops[i].pc.arrival;
      && id in t.games && id in t.history
      && (|| (t.history[id] == s.history[id] && t.games[id].record == s.games[id].record)
          || (t.history[id] == s.history[id] + [h] && t.games[id].record == L.Recorded(s.games[id].record, h.d, h.at)))
  {
  }

  lemma HistoryKept(first: State, s: State, i: nat, write: Write, id: Str)
    requires Inv(first, s, id) && Alone(s, id) && MaySave(s, i) && s.ops[i].id == id
    ensures HistoryOk(first, Store(s, i, write), id)
  {
    StoreShape(s, i, write);
    assert OpOk(s, i, s.ops[i]);
    if id in s.games {
      AppliesOneMore(first.games[id].record, s.history[id], s.ops[i].pc.arrival);
      StoreAdds(s, i, write, id);
    } else {
      assert Store(s, i, write).history == s.history;
    }
  }

  lemma SettledKeeps(first: State, s: State, t: State, i: nat, id: Str)
    requires Inv(first, s, id) && Alone(s, id) && MaySave(s, i) && s.ops[i].id == id
    requires t.ops == s.ops[i := s.ops[i].(pc := Settled)] && t.games == s.games && t.log == s.log
    requires HistoryOk(first, t, id)
    ensures Own(first, t, id)
  {
    OnlyOneKnows(s, t, i, id);
    forall j | 0 <= j < |t.log| && t.log[j].Accepted? && t.log[j].id == id ensures LeftEligible(t, t.log[j].op, id) {
      assert LeftEligible(s, s.log[j].op, id);
    }
    assert AcceptedOk(t);
  }

  /** Operation `i` of the record saves, and the database takes it. */
  ghost predicate Writing(first: State, s: State, i: nat, write: Write, id: Str)
  {
    && Inv(first, s, id) && Alone(s, id) && MaySave(s, i) && s.ops[i].id == id
    && Store(s, i, write).log != s.log
  }

  lemma WritingShape(first: State, s: State, i: nat, write: Write, id: Str)
    requires Writing(first, s, i, write, id)
    ensures Store(s, i, write).log == s.log + [SavedEntry(s, i)]
    ensures Store(s, i, write).ops == s.ops[i := s.ops[i].(pc := Settled)]
  {
  }

  lemma WrittenOrder(first: State, s: State, i: nat, write: Write, id: Str)
    requires Writing(first, s, i, write, id)
    ensures InOrder(Store(s, i, write).log, id)
  {
    WritingShape(first, s, i, write, id);
    OnlyOpen(s, i, id);
    OrderedEntry(s.log, SavedEntry(s, i), id);
  }

  lemma WrittenOps(first: State, s: State, i: nat, write: Write, id: Str)
    requires Writing(first, s, i, write, id)
    ensures OpsOk(Store(s, i, write), id) && AcceptedOk(Store(s, i, write))
  {
    var t := Store(s, i, write);
    WritingShape(first, s, i, write, id);
    OnlyOneKnows(s, t, i, id);
    forall j | 0 <= j < |t.log| && t.log[j].Accepted? && t.log[j].op < |t.ops| ensures Answers(t.ops[t.log[j].op]) {
      assert t.log[j] == s.log[j];
    }
  }

  lemma WrittenOnce(first: State, s: State, i: nat, write: Write, id: Str)
    requires Writing(first, s, i, write, id)
    ensures SentOnce(Store(s, i, write), id)
  {
    var t := Store(s, i, write);
    WritingShape(first, s, i, write, id);
    assert OpOk(s, i, s.ops[i]);
    forall j | 0 <= j < |t.log| && SavesOf(t.log[j], id)
      ensures t.log[j].receipt ==> !(id in t.games && Unsent(t.games[id]))
    {
      if j < |s.log| {
        assert t.log[j] == s.log[j];
      }
    }
  }

  lemma WrittenKeeps(first: State, s: State, i: nat, write: Write, id: Str)
    requires Writing(first, s, i, write, id)
    ensures Own(first, Store(s, i, write), id)
  {
    HistoryKept(first, s, i, write, id);
    WrittenOps(first, s, i, write, id);
    WrittenOrder(first, s, i, write, id);
    WrittenOnce(first, s, i, write, id);
    assert OpOk(s, i, s.ops[i]);
    WrittenLost(s, i, write, id);
  }

  lemma WrittenLost(s: State, i: nat, write: Write, id: Str)
    requires SingleFlight(s) && LogIds(s.ops, s.log) && Alone(s, id) && MaySave(s, i) && s.ops[i].id == id
    requires OpOk(s, i, s.ops[i]) && AcceptedOk(s) && Store(s, i, write).log != s.log
    ensures LostOk(Store(s, i, write), id)
  {
    var t, pc := Store(s, i, write), s.ops[i].pc;
    var n := |s.log|;
    OnlyOpen(s, i, id);
    assert t.log[n] == SavedEntry(s, i);
    var p :| 0 <= p < n && IsPosted(s.log[p], i, id);
    assert IsPosted(t.log[p], i, id);
    forall j | 0 <= j < |t.log| && t.log[j].Accepted? && t.log[j].id == id ensures LeftEligible(t, t.log[j].op, id) {
      assert t.log[j] == s.log[j] && About(s.log[j], id);
      if t.log[j].op == i {
        assert Answers(s.ops[i]);
        assert SavedReceipt(t.log, i, id);
      } else {
        assert PostedLater(t.log, t.log[j].op, id);
      }
    }
  }

  lemma StoreStep(first: State, s: State, i: nat, write: Write, id: Str)
    requires Inv(first, s, id) && Alone(s, id) && MaySave(s, i) && s.ops[i].id == id
    ensures Own(first, Store(s, i, write), id)
  {
    if Store(s, i, write).log != s.log {
      WrittenKeeps(first, s, i, write, id);
    } else {
      HistoryKept(first, s, i, write, id);
      NothingWritten(s, i, write);
      SettledKeeps(first, s, Store(s, i, write), i, id);
    }
  }

  lemma NothingWritten(s: State, i: nat, write: Write)
    requires MaySave(s, i) && Store(s, i, write).log == s.log
    ensures Store(s, i, write).games == s.games && Store(s, i, write).ops == s.ops[i := s.ops[i].(pc := Settled)]
  {
    assert forall e :: |s.log + [e]| == |s.log| + 1;
  }

  /** Forgetting the capability leaves what the invariant speaks of as it is. */
  lemma ForgetStep(first: State, s: State, i: nat, d: L.Delivery, forgets: bool, id: Str)
    requires Own(first, s, id) && i < |s.ops| && s.ops[i].id == id
    requires forall k :: 0 <= k < |s.ops| && s.ops[k].id == id ==> s.ops[k].pc.Settled? || s.ops[k].pc.Closed?
    requires forall j :: 0 <= j < |s.log| && About(s.log[j], id) ==> s.log[j].op <= i
    ensures Own(first, Forget(s, i, d, forgets), id)
  {
    var t := Forget(s, i, d, forgets);
    if Final(d) && forgets {
      var e := Forgot(i, id);
      assert t.log == s.log + [e];
      OrderedEntry(s.log, e, id);
      assert forall j :: 0 <= j < |s.log| ==> t.log[j] == s.log[j];
      forall j | 0 <= j < |t.log| && t.log[j].Accepted? && t.log[j].id == id ensures LeftEligible(t, t.log[j].op, id) {
        assert LeftEligible(s, s.log[j].op, id);
      }
    }
  }

  lemma StoredIsLast(first: State, s: State, i: nat, write: Write, id: Str)
    requires Inv(first, s, id) && Alone(s, id) && MaySave(s, i) && s.ops[i].id == id
    ensures
      var t := Store(s, i, write);
      && |t.ops| == |s.ops| && t.ops[i].id == id
      && (forall k :: 0 <= k < |t.ops| && t.ops[k].id == id ==> t.ops[k].pc.Settled? || t.ops[k].pc.Closed?)
      && (forall j :: 0 <= j < |t.log| && About(t.log[j], id) ==> t.log[j].op <= i)
  {
    OnlyOpen(s, i, id);
  }

  lemma SaveStep(first: State, s: State, e: Event, id: Str)
    requires Inv(first, s, id) && Alone(s, id) && e.Save? && MaySave(s, e.i) && s.ops[e.i].id == id
    ensures Own(first, Next(s, e), id)
  {
    var i, d := e.i, s.ops[e.i].pc.arrival.d;
    if Writes(s.ops[i].pc.seen, d) && e.write.Threw? {
      SettledKeeps(first, s, At(s, i, Settled), i, id);
    } else {
      StoreStep(first, s, i, e.write, id);
      StoredIsLast(first, s, i, e.write, id);
      ForgetStep(first, Store(s, i, e.write), i, d, e.forgets, id);
    }
  }

  lemma RecordIsOutside(s: State, id: Str, arrival: L.Arrival)
    ensures arrival.d.Valid() ==> !Alone(Next(s, Record(id, arrival)), id)
    ensures !arrival.d.Valid() ==> Next(s, Record(id, arrival)) == s
  {
    var t := Next(s, Record(id, arrival));
    if arrival.d.Valid() {
      assert t.ops[|s.ops|] == Op(id, true, Answered(arrival));
    }
  }

  lemma OwnStep(first: State, s: State, e: Event, id: Str)
    requires Inv(first, s, id) && Alone(Next(s, e), id) && Alone(s, id)
    ensures Own(first, Next(s, e), id)
  {
    if !Touches(s, e, id) {
      OtherStep(s, e, id);
      AcceptedStep(s, e);
      UntouchedKeeps(first, s, Next(s, e), id);
    } else if e.Save? {
      if MaySave(s, e.i) {
        SaveStep(first, s, e, id);
      }
    } else if e.Record? {
      RecordIsOutside(s, e.id, e.arrival);
    } else {
      StageStep(first, s, e, id);
    }
  }

  // --- over every run -------------------------------------------------------------------------------

  lemma AloneBefore(s: State, e: Event, id: Str)
    requires Alone(Next(s, e), id)
    ensures Alone(s, id)
  {
    SameOps(s, e);
  }

  lemma SameOps(s: State, e: Event)
    ensures |s.ops| <= |Next(s, e).ops|
    ensures forall i :: 0 <= i < |s.ops| ==>
      Next(s, e).ops[i].id == s.ops[i].id && Next(s, e).ops[i].direct == s.ops[i].direct
  {
    if e.Save? && MaySave(s, e.i) {
      SaveShape(s, e.i, e.write, e.forgets);
    }
  }

  lemma {:induction false} AloneThroughout(s: State, es: seq<Event>, id: Str)
    requires Alone(Run(s, es), id)
    ensures Alone(s, id)
    decreases |es|
  {
    if es != [] {
      AloneThroughout(Next(s, es[0]), es[1..], id);
      AloneBefore(s, es[0], id);
    }
  }

  lemma {:induction false} RunKeeps(first: State, origin: State, s: State, es: seq<Event>, id: Str)
    requires Inv(first, s, id) && Books(origin, s) && Alone(Run(s, es), id)
    ensures Inv(first, Run(s, es), id) && Books(origin, Run(s, es))
    decreases |es|
  {
    if es != [] {
      var t := Next(s, es[0]);
      AloneThroughout(t, es[1..], id);
      AloneBefore(s, es[0], id);
      FlightStep(s, es[0]);
      StepKeeps(origin, s, es[0]);
      OwnStep(first, s, es[0], id);
      RunKeeps(first, origin, t, es[1..], id);
    }
  }

  /** In every run, what is known of a record no outcome of which was recorded from outside. */
  lemma UndisturbedRun(first: State, es: seq<Event>, id: Str)
    requires Start(first) && Alone(Run(first, es), id)
    ensures Inv(first, Run(first, es), id) && Books(first, Run(first, es))
  {
    RunKeeps(first, first, first, es, id);
  }

  /** No request is started for such a record once its acceptance has been saved, whatever happens after. */
  lemma NoRequestAfterSaved(first: State, es: seq<Event>, j: nat, k: nat, id: Str)
    requires Start(first) && Alone(Run(first, es), id) && j < k < |Run(first, es).log|
    requires SavesOf(Run(first, es).log[j], id) && Run(first, es).log[j].receipt
    ensures !(Run(first, es).log[k].Posted? && Run(first, es).log[k].id == id)
  {
    UndisturbedRun(first, es, id);
    var log := Run(first, es).log;
    assert About(log[k], id) ==> Precedes(log[j], log[k]);
  }

  /**
   * Such a record is what its ledger started as with the deliveries saved for it applied one at a time, so
   * everything `LedgerTellsHistory` says of a history is true of it.
   */
  lemma RecordsAreTheirHistories(first: State, es: seq<Event>, id: Str)
    requires Start(first) && Alone(Run(first, es), id) && id in Run(first, es).games
    ensures id in first.games && id in Run(first, es).history && L.AllValid(Run(first, es).history[id])
    ensures Run(first, es).games[id].record == L.Apply(first.games[id].record, Run(first, es).history[id])
    ensures L.Fresh(first.games[id].record) ==> L.Tells(Run(first, es).games[id].record, Run(first, es).history[id])
  {
    UndisturbedRun(first, es, id);
    if L.Fresh(first.games[id].record) {
      L.LedgerTellsHistory(first.games[id].record, Run(first, es).history[id]);
    }
  }

  /** And none of its receipts is ever undone. */
  lemma ReceiptsStand(first: State, es: seq<Event>, e: Event, id: Str)
    requires Start(first) && Alone(Next(Run(first, es), e), id) && id in Next(Run(first, es), e).games
    requires Run(first, es).games[id].record.serverDelivery.Sent?
    ensures Next(Run(first, es), e).games[id].record.serverDelivery.Sent?
  {
    var s := Run(first, es);
    AloneBefore(s, e, id);
    UndisturbedRun(first, es, id);
    OnlySavesUndo(first, es, e, id);
    if e.Save? && MaySave(s, e.i) && s.ops[e.i].id == id {
      assert OpOk(s, e.i, s.ops[e.i]);
    }
  }

  // --- sending an accepted result again -------------------------------------------------------------

  /** The operation forgot the capability, and it was not remembered again. */
  ghost predicate ForgottenForGood(log: seq<Entry>, i: nat, id: Str)
  {
    exists q :: 0 <= q < |log| && log[q] == Forgot(i, id) && NotRememberedFrom(log, q, id)
  }

  ghost predicate NotRememberedFrom(log: seq<Entry>, q: nat, id: Str)
  {
    forall r :: q < r < |log| ==> log[r] != Remembered(id)
  }

  /** Every accepting answer about a record is settled: saved, forgotten for good, or still being recorded. */
  ghost predicate AllSettled(s: State, id: Str)
  {
    forall j :: 0 <= j < |s.log| && s.log[j].Accepted? && s.log[j].id == id ==>
      var i := s.log[j].op;
      SavedReceipt(s.log, i, id) || ForgottenForGood(s.log, i, id) || (i < |s.ops| && !s.ops[i].pc.Closed?)
  }

  lemma {:induction false} ForgottenIsNotHeld(capabilities: set<Str>, log: seq<Entry>, q: nat, k: nat, id: Str)
    requires q < k <= |log| && log[q].Forgot? && log[q].id == id && NotRememberedFrom(log, q, id)
    ensures !HeldBy(capabilities, log[..k], id)
    decreases k
  {
    assert log[..k][..k - 1] == log[..k - 1];
    if q < k - 1 {
      ForgottenIsNotHeld(capabilities, log, q, k - 1, id);
    }
  }

  /** A request sent after an accepting answer is a later operation's, and comes after all of the earlier one. */
  lemma LaterRequest(s: State, j: nat, k: nat, id: Str)
    requires SingleFlight(s) && LogIds(s.ops, s.log) && InOrder(s.log, id) && Alone(s, id)
    requires j < k < |s.log| && s.log[j].Accepted? && s.log[j].id == id && s.log[k].Posted? && s.log[k].id == id
    ensures s.log[j].op < |s.ops| && s.ops[s.log[j].op].pc.Closed?
    ensures AllBefore(s.log, s.log[j].op, k, id)
  {
    var log := s.log;
    assert Precedes(log[j], log[k]);
    assert !s.ops[log[j].op].direct && !s.ops[log[k].op].direct;
    forall q | k <= q < |log| && About(log[q], id) ensures log[j].op < log[q].op {
      if k < q {
        assert Precedes(log[k], log[q]);
      }
    }
  }

  ghost predicate AllBefore(log: seq<Entry>, i: nat, k: nat, id: Str)
  {
    forall q :: 0 <= q < |log| && About(log[q], id) && log[q].op == i ==> q < k
  }

  lemma SavedStops(log: seq<Entry>, i: nat, k: nat, id: Str)
    requires InOrder(log, id) && SavedReceipt(log, i, id) && k < |log| && AllBefore(log, i, k, id)
    ensures !(log[k].Posted? && log[k].id == id)
  {
    var q :| 0 <= q < |log| && SavesOf(log[q], id) && log[q].op == i && log[q].receipt;
    assert About(log[k], id) ==> Precedes(log[q], log[k]);
  }

  lemma ForgottenStops(first: State, log: seq<Entry>, i: nat, k: nat, id: Str)
    requires LogOk(first, log) && ForgottenForGood(log, i, id) && k < |log| && AllBefore(log, i, k, id)
    ensures !(log[k].Posted? && log[k].id == id)
  {
    var q :| 0 <= q < |log| && log[q] == Forgot(i, id) && NotRememberedFrom(log, q, id);
    ForgottenIsNotHeld(first.capabilities, log, q, k, id);
    assert EntryOk(first, log[..k], log[k]);
  }

  /**
   * While every accepting answer reaches a save that takes, or its capability goes and is not remembered again,
   * nothing is sent for a record after an accepting answer.
   */
  lemma NoRequestAfterAccepted(first: State, es: seq<Event>, j: nat, k: nat, id: Str)
    requires Start(first) && Alone(Run(first, es), id) && AllSettled(Run(first, es), id)
    requires j < k < |Run(first, es).log| && Run(first, es).log[j].Accepted? && Run(first, es).log[j].id == id
    ensures !(Run(first, es).log[k].Posted? && Run(first, es).log[k].id == id)
  {
    UndisturbedRun(first, es, id);
    var s := Run(first, es);
    var i := s.log[j].op;
    if s.log[k].Posted? && s.log[k].id == id {
      LaterRequest(s, j, k, id);
      if SavedReceipt(s.log, i, id) {
        SavedStops(s.log, i, k, id);
      } else {
        ForgottenStops(first, s.log, i, k, id);
      }
    }
  }

  /** Retrying a record and letting its request begin. */
  function Retried(s: State, id: Str): State
  {
    Next(Next(Next(s, Retry(id)), Load(|s.ops|, false)), Begin(|s.ops|))
  }

  /**
   * And exactly then: where an accepting answer has been dealt with and nothing was sent since, a retry sends
   * the result again exactly when that acceptance was not saved and the capability is held, that is, was there
   * or was remembered, and has neither been forgotten nor expired since.
   */
  lemma SendsAgainExactlyWhen(first: State, es: seq<Event>, j: nat, id: Str)
    requires Start(first) && Alone(Run(first, es), id) && id in Run(first, es).games && id !in Run(first, es).pending
    requires j < |Run(first, es).log| && Run(first, es).log[j].Accepted? && Run(first, es).log[j].id == id
    requires !PostedLater(Run(first, es).log, Run(first, es).log[j].op, id)
    ensures
      var s, t := Run(first, es), Retried(Run(first, es), id);
      (t.log == s.log + [Posted(|s.ops|, id, |s.log|)] <==>
         !SavedReceipt(s.log, s.log[j].op, id) && HeldBy(first.capabilities, s.log, id))
      && (t.log == s.log + [Posted(|s.ops|, id, |s.log|)] || t.log == s.log)
  {
    UndisturbedRun(first, es, id);
    var s, n := Run(first, es), |Run(first, es).ops|;
    var i := s.log[j].op;
    assert LeftEligible(s, i, id);
    if SavedReceipt(s.log, i, id) {
      assert !NotSaved(s.log, id);
    }
    RetryReads(s, id);
    BeginAfter(Next(Next(s, Retry(id)), Load(n, false)), n);
  }

  lemma RetryReads(s: State, id: Str)
    requires id !in s.pending && id in s.games
    ensures
      var n, t := |s.ops|, Next(Next(s, Retry(id)), Load(|s.ops|, false));
      && t.ops == s.ops + [Op(id, false, Loaded(Some(s.games[id]), |s.log|))]
      && t.log == s.log && t.capabilities == s.capabilities
  {
    var a := Next(s, Retry(id));
    assert a.ops[|s.ops|] == Op(id, false, Reading);
  }

  lemma BeginAfter(s: State, i: nat)
    requires i < |s.ops| && s.ops[i].pc.Loaded? && s.ops[i].pc.game.Some?
    ensures
      var op := s.ops[i];
      Next(s, Begin(i)).log ==
        if CanRetry(op.pc.game.value, op.id in s.capabilities) then s.log + [Posted(i, op.id, op.pc.since)] else s.log
  {
  }

  // --- a receipt that is undone ---------------------------------------------------------------------

  /**
   * The scoring screen's own delivery beside a retry: the retry's request is accepted while the screen's counts
   * as unanswered, both read the record, the receipt is written first and the other over it.
   */
  function UndoingRun(id: Str, accepted: L.Arrival, unanswered: L.Arrival): seq<Event>
  {
    [Retry(id), Load(0, false), Begin(0), Record(id, unanswered), Answer(0, accepted),
     Look(0, false), Look(1, false), Save(0, Taken, true), Save(1, Taken, true)]
  }

  /** One finished game that was never delivered, its capability held. */
  function OneGame(id: Str, g: Game): State
  {
    State(map[id := g], {id}, [], map[], map[id := []], [])
  }

  /** The run after its first seven events: both are about to save what they read. */
  function BothLooked(id: Str, g: Game, accepted: L.Arrival, unanswered: L.Arrival): State
  {
    OneGame(id, g).(
      ops := [Op(id, false, Saving(accepted, Some(g), 2)), Op(id, true, Saving(unanswered, Some(g), 2))],
      pending := map[id := 0],
      log := [Posted(0, id, 0), Accepted(0, id)])
  }

  lemma {:induction false} RunJoins(s: State, es: seq<Event>, more: seq<Event>)
    ensures Run(s, es + more) == Run(Run(s, es), more)
    decreases |es|
  {
    if es == [] {
      assert es + more == more;
    } else {
      assert (es + more)[1..] == es[1..] + more;
      RunJoins(Next(s, es[0]), es[1..], more);
    }
  }

  lemma RunOne(s: State, es: seq<Event>, e: Event)
    ensures Run(s, es + [e]) == Next(Run(s, es), e)
  {
    RunJoins(s, es, [e]);
    assert [e][1..] == [];
    assert Run(Run(s, es), [e]) == Run(Next(Run(s, es), e), []);
  }

  lemma Requesting(id: Str, g: Game)
    requires Eligible(g)
    ensures Run(OneGame(id, g), [Retry(id), Load(0, false), Begin(0)])
      == OneGame(id, g).(ops := [Op(id, false, Posting)], pending := map[id := 0], log := [Posted(0, id, 0)])
  {
    var s := OneGame(id, g);
    var a := s.(ops := [Op(id, false, Reading)], pending := map[id := 0]);
    var b := a.(ops := [Op(id, false, Loaded(Some(g), 0))]);
    assert Next(s, Retry(id)) == a;
    assert Next(a, Load(0, false)) == b;
    RunOne(s, [], Retry(id));
    RunOne(s, [Retry(id)], Load(0, false));
    RunOne(s, [Retry(id), Load(0, false)], Begin(0));
    assert [] + [Retry(id)] == [Retry(id)];
    assert [Retry(id)] + [Load(0, false)] == [Retry(id), Load(0, false)];
    assert [Retry(id), Load(0, false)] + [Begin(0)] == [Retry(id), Load(0, false), Begin(0)];
  }

  /**
   * Beside the scoring screen a request can follow an acceptance with nothing failing: a retry has read the
   * record, the screen's own delivery is accepted, and the retry sends its request all the same.
   */
  lemma SendsBesideTheScreen(id: Str, g: Game, accepted: L.Arrival)
    requires Eligible(g) && accepted.d.Valid() && accepted.d.state.Sent?
    ensures Start(OneGame(id, g))
    ensures Run(OneGame(id, g), [Retry(id), Load(0, false), Record(id, accepted), Begin(0)]).log
         == [Accepted(1, id), Posted(0, id, 0)]
  {
    var s := OneGame(id, g);
    var a := s.(ops := [Op(id, false, Reading)], pending := map[id := 0]);
    var b := a.(ops := [Op(id, false, Loaded(Some(g), 0))]);
    var c := b.(ops := [Op(id, false, Loaded(Some(g), 0)), Op(id, true, Answered(accepted))], log := [Accepted(1, id)]);
    assert Next(s, Retry(id)) == a;
    assert Next(a, Load(0, false)) == b;
    assert Next(b, Record(id, accepted)) == c;
    RunFour(s, Retry(id), Load(0, false), Record(id, accepted), Begin(0));
  }

  lemma RunFour(s: State, a: Event, b: Event, c: Event, d: Event)
    ensures Run(s, [a, b, c, d]) == Next(Next(Next(Next(s, a), b), c), d)
  {
    RunOne(s, [], a);
    RunOne(s, [a], b);
    RunOne(s, [a, b], c);
    RunOne(s, [a, b, c], d);
    assert [] + [a] == [a] && [a] + [b] == [a, b] && [a, b] + [c] == [a, b, c] && [a, b, c] + [d] == [a, b, c, d];
  }

  lemma BothAnswered(id: Str, g: Game, accepted: L.Arrival, unanswered: L.Arrival)
    requires Conflict(accepted, unanswered)
    ensures
      var s := OneGame(id, g).(ops := [Op(id, false, Posting)], pending := map[id := 0], log := [Posted(0, id, 0)]);
      Next(Next(Next(Next(s, Record(id, unanswered)), Answer(0, accepted)), Look(0, false)), Look(1, false))
      == BothLooked(id, g, accepted, unanswered)
  {
    var s := OneGame(id, g).(ops := [Op(id, false, Posting)], pending := map[id := 0], log := [Posted(0, id, 0)]);
    var a := s.(ops := [Op(id, false, Posting), Op(id, true, Answered(unanswered))]);
    var b := a.(ops := [Op(id, false, Answered(accepted)), Op(id, true, Answered(unanswered))],
                log := [Posted(0, id, 0), Accepted(0, id)]);
    var c := b.(ops := [Op(id, false, Saving(accepted, Some(g), 2)), Op(id, true, Answered(unanswered))]);
    assert Next(s, Record(id, unanswered)) == a;
    assert Next(a, Answer(0, accepted)) == b;
    assert Next(b, Look(0, false)) == c;
  }

  predicate IsDelivered(s: State, id: Str) { id in s.games && !Unsent(s.games[id]) }

  predicate IsUndelivered(s: State, id: Str) { id in s.games && Unsent(s.games[id]) }

  /** The two saves: first the receipt, then over it the delivery that had read the record before. */
  lemma ReceiptUndone(id: Str, g: Game, accepted: L.Arrival, unanswered: L.Arrival)
    requires Eligible(g) && Conflict(accepted, unanswered)
    ensures
      var t := Next(BothLooked(id, g, accepted, unanswered), Save(0, Taken, true));
      IsDelivered(t, id) && IsUndelivered(Next(t, Save(1, Taken, true)), id)
  {
    var s := BothLooked(id, g, accepted, unanswered);
    var t := Next(s, Save(0, Taken, true));
    assert !L.Ignored(g.record, accepted.d) && !L.Ignored(g.record, unanswered.d);
    assert t.games[id].record == L.Commit(g.record, g.record, accepted.d, accepted.at);
    assert t.ops[1] == Op(id, true, Saving(unanswered, Some(g), 2));
  }

  lemma RunNext(s: State, es: seq<Event>, n: nat)
    requires n < |es|
    ensures Run(s, es[..n + 1]) == Next(Run(s, es[..n]), es[n])
  {
    RunOne(s, es[..n], es[n]);
    assert es[..n + 1] == es[..n] + [es[n]];
  }

  lemma RunTwo(s: State, es: seq<Event>, n: nat)
    requires n + 2 <= |es|
    ensures Run(s, es[..n + 2]) == Next(Next(Run(s, es[..n]), es[n]), es[n + 1])
  {
    RunNext(s, es, n);
    RunNext(s, es, n + 1);
  }

  /** The accepting answer and the one that counts as unanswered. */
  predicate Conflict(accepted: L.Arrival, unanswered: L.Arrival)
  {
    accepted.d.Valid() && accepted.d.state.Sent? && unanswered.d.Valid() && !unanswered.d.state.Sent?
  }

  /** The events of the undoing run, one by one. */
  ghost predicate IsUndoing(events: seq<Event>, id: Str, accepted: L.Arrival, unanswered: L.Arrival)
  {
    && |events| == 9 && events[..3] == [Retry(id), Load(0, false), Begin(0)]
    && events[3] == Record(id, unanswered) && events[4] == Answer(0, accepted)
    && events[5] == Look(0, false) && events[6] == Look(1, false)
    && events[7] == Save(0, Taken, true) && events[8] == Save(1, Taken, true)
  }

  lemma UndoingEvents(id: Str, accepted: L.Arrival, unanswered: L.Arrival)
    ensures IsUndoing(UndoingRun(id, accepted, unanswered), id, accepted, unanswered)
  {
    assert UndoingRun(id, accepted, unanswered)[..3] == [Retry(id), Load(0, false), Begin(0)];
  }

  lemma UntilBothLooked(events: seq<Event>, id: Str, g: Game, accepted: L.Arrival, unanswered: L.Arrival)
    requires Eligible(g) && Conflict(accepted, unanswered) && IsUndoing(events, id, accepted, unanswered)
    ensures Run(OneGame(id, g), events[..7]) == BothLooked(id, g, accepted, unanswered)
  {
    Requesting(id, g);
    BothAnswered(id, g, accepted, unanswered);
    RunTwo(OneGame(id, g), events, 3);
    RunTwo(OneGame(id, g), events, 5);
  }

  /** So a run undoes a receipt: after eight events the record is delivered, after the ninth it is not. */
  lemma UndoingRunUndoes(id: Str, g: Game, accepted: L.Arrival, unanswered: L.Arrival)
    requires Eligible(g) && Conflict(accepted, unanswered)
    ensures Start(OneGame(id, g))
    ensures
      var events := UndoingRun(id, accepted, unanswered);
      var t, u := Run(OneGame(id, g), events[..8]), Run(OneGame(id, g), events);
      IsDelivered(t, id) && IsUndelivered(u, id)
  {
    UndoingEvents(id, accepted, unanswered);
    ItsSavesUndo(UndoingRun(id, accepted, unanswered), id, g, accepted, unanswered);
  }

  lemma ItsSavesUndo(events: seq<Event>, id: Str, g: Game, accepted: L.Arrival, unanswered: L.Arrival)
    requires Eligible(g) && Conflict(accepted, unanswered) && IsUndoing(events, id, accepted, unanswered)
    ensures
      var t, u := Run(OneGame(id, g), events[..8]), Run(OneGame(id, g), events);
      IsDelivered(t, id) && IsUndelivered(u, id)
  {
    UntilBothLooked(events, id, g, accepted, unanswered);
    ReceiptUndone(id, g, accepted, unanswered);
    LastTwo(OneGame(id, g), events, 7, Save(0, Taken, true), Save(1, Taken, true));
  }

  lemma LastTwo(first: State, events: seq<Event>, n: nat, a: Event, b: Event)
    requires |events| == n + 2 && events[n] == a && events[n + 1] == b
    ensures Run(first, events[..n + 1]) == Next(Run(first, events[..n]), a)
    ensures Run(first, events) == Next(Run(first, events[..n + 1]), b)
  {
    RunNext(first, events, n);
    RunNext(first, events, n + 1);
    assert events[..n + 2] == events;
  }
}

// What the retry service's log says, against what is in the store: the invariant of every run, direct
// recordings included, and when a receipt is undone.
module RetryBooks {
  import opened Text
  import L = ResultLedger
  import opened RetryService

  /** Every entry is about the record of the operation that made it. */
  ghost predicate LogIds(ops: seq<Op>, log: seq<Entry>)
  {
    forall j :: 0 <= j < |log| && IsOps(log[j]) ==> log[j].op < |ops| && ops[log[j].op].id == log[j].id
  }

  ghost predicate HeldOk(first: State, s: State)
  {
    forall id :: id in s.capabilities <==> HeldBy(first.capabilities, s.log, id)
  }

  ghost predicate SentOk(first: State, s: State)
  {
    && s.games.Keys <= first.games.Keys
    && (forall id :: id in s.games ==>
         (s.games[id].record.serverDelivery.Sent? <==> AcceptedBy(first.games, s.log, id)))
  }

  /** What no delivery changes, and whether a record may be retried. */
  ghost predicate EligibleOk(first: State, s: State)
  {
    && s.games.Keys <= first.games.Keys
    && (forall id :: id in s.games ==> SameGame(s.games[id], first.games[id]))
    && (forall id :: id in s.games ==> (Eligible(s.games[id]) <==> EligibleBy(first.games, s.log, id)))
  }

  predicate SameGame(a: Game, b: Game)
  {
    a.connected == b.connected && (a.record.Completed() <==> b.record.Completed())
  }

  /** What an operation has read is how the record stood when it read it. */
  ghost predicate SawOk(first: State, op: Op, log: seq<Entry>)
  {
    match op.pc
    case Loaded(game, since) => StoodSo(first, op.id, game, since, log)
    case Saving(_, seen, since) => StoodSo(first, op.id, seen, since, log)
    case _ => true
  }

  ghost predicate StoodSo(first: State, id: Str, game: Option<Game>, since: nat, log: seq<Entry>)
  {
    && since <= |log|
    && (game.Some? ==>
          && (game.value.record.serverDelivery.Sent? <==> AcceptedBy(first.games, log[..since], id))
          && (Eligible(game.value) <==> EligibleBy(first.games, log[..since], id)))
  }

  ghost predicate AllSawOk(first: State, ops: seq<Op>, log: seq<Entry>)
  {
    forall i :: 0 <= i < |ops| ==> SawOk(first, ops[i], log)
  }

  /** What must hold of an entry when it is made, after `log`. */
  ghost predicate EntryOk(first: State, log: seq<Entry>, e: Entry)
  {
    && (e.Saved? && !e.receipt ==> e.since <= |log| && !AcceptedBy(first.games, log[..e.since], e.id))
    && (e.Posted? ==> e.since <= |log| && !AcceptedBy(first.games, log[..e.since], e.id))
    && (e.Posted? ==> HeldBy(first.capabilities, log, e.id))
  }

  ghost predicate LogOk(first: State, log: seq<Entry>)
  {
    forall k :: 0 <= k < |log| ==> EntryOk(first, log[..k], log[k])
  }

  ghost predicate Books(first: State, s: State)
  {
    && LogIds(s.ops, s.log) && HeldOk(first, s) && SentOk(first, s) && EligibleOk(first, s)
    && AllSawOk(first, s.ops, s.log) && LogOk(first, s.log)
  }

  lemma LogOkGrows(first: State, log: seq<Entry>, e: Entry)
    requires LogOk(first, log) && EntryOk(first, log, e)
    ensures LogOk(first, log + [e])
  {
    var more := log + [e];
    forall k | 0 <= k < |more| ensures EntryOk(first, more[..k], more[k]) {
      assert more[..k] == log[..k];
      assert log[..|log|] == log;
    }
  }

  lemma SawGrows(first: State, op: Op, log: seq<Entry>, e: Entry)
    requires SawOk(first, op, log)
    ensures SawOk(first, op, log + [e])
  {
    if op.pc.Saving? || op.pc.Loaded? {
      assert (log + [e])[..op.pc.since] == log[..op.pc.since];
    }
  }

  lemma AllSawGrows(first: State, ops: seq<Op>, log: seq<Entry>, e: Entry)
    requires AllSawOk(first, ops, log)
    ensures AllSawOk(first, ops, log + [e])
  {
    forall i | 0 <= i < |ops| ensures SawOk(first, ops[i], log + [e]) {
      SawGrows(first, ops[i], log, e);
    }
  }

  /** One entry more, with the store changed to match it. */
  lemma OneEntry(first: State, s: State, t: State, e: Entry)
    requires Books(first, s) && t.log == s.log + [e] && t.ops == s.ops && EntryOk(first, s.log, e)
    requires IsOps(e) ==> e.op < |s.ops| && s.ops[e.op].id == e.id
    requires t.games.Keys <= s.games.Keys
    requires forall id :: id in t.games ==>
      (t.games[id].record.serverDelivery.Sent? <==>
       if SavesOf(e, id) then e.receipt else s.games[id].record.serverDelivery.Sent?)
    requires forall id :: id in t.games ==> SameGame(t.games[id], s.games[id])
    requires forall id :: id in t.games ==>
      (Eligible(t.games[id]) <==> if SavesOf(e, id) then EligibleAfter(s.games[id], e) else Eligible(s.games[id]))
    requires forall id :: id in t.capabilities <==>
      if (e.Remembered? || e.Forgot? || e.Expired?) && e.id == id then e.Remembered? else id in s.capabilities
    ensures Books(first, t)
  {
    LogOkGrows(first, s.log, e);
    AllSawGrows(first, s.ops, s.log, e);
    forall id ensures id in t.capabilities <==> HeldBy(first.capabilities, t.log, id) {
      OneMore(first, s.log, e, id);
    }
    forall id | id in t.games ensures t.games[id].record.serverDelivery.Sent? <==> AcceptedBy(first.games, t.log, id) {
      OneMore(first, s.log, e, id);
    }
    forall id | id in t.games ensures Eligible(t.games[id]) <==> EligibleBy(first.games, t.log, id) {
      OneMore(first, s.log, e, id);
      assert SameGame(s.games[id], first.games[id]);
    }
  }

  /** Operations that see what is there, and a store that only loses records. */
  lemma NoEntry(first: State, s: State, t: State)
    requires Books(first, s) && t.log == s.log && t.capabilities == s.capabilities
    requires |s.ops| <= |t.ops| && forall i :: 0 <= i < |s.ops| ==> t.ops[i].id == s.ops[i].id
    requires AllSawOk(first, t.ops, t.log)
    requires t.games.Keys <= s.games.Keys && forall id :: id in t.games ==> t.games[id] == s.games[id]
    ensures Books(first, t)
  {
  }

  /** What is saved decides whether the record may be retried; the rest of the game stays as it was. */
  lemma StoreDecides(s: State, i: nat, write: Write)
    requires MaySave(s, i) && Store(s, i, write).log != s.log
    ensures
      var t, id, e := Store(s, i, write), s.ops[i].id, SavedEntry(s, i);
      && id in s.games && id in t.games && t.games.Keys == s.games.Keys
      && SameGame(t.games[id], s.games[id]) && (Eligible(t.games[id]) <==> EligibleAfter(s.games[id], e))
      && (t.games[id].record.serverDelivery.Sent? <==> e.receipt)
      && forall k :: k in s.games && k != id ==> t.games[k] == s.games[k]
  {
  }

  lemma StoreKeeps(first: State, s: State, i: nat, write: Write)
    requires Books(first, s) && MaySave(s, i)
    ensures Books(first, Store(s, i, write))
  {
    var id, pc := s.ops[i].id, s.ops[i].pc;
    var done := At(s, i, Settled);
    NoEntry(first, s, done);
    var t := Store(s, i, write);
    if t.log == s.log {
      NoEntry(first, s, t);
    } else {
      assert SawOk(first, s.ops[i], s.log);
      StoreDecides(s, i, write);
      OneEntry(first, done, t, SavedEntry(s, i));
    }
  }

  lemma ForgetKeeps(first: State, s: State, i: nat, d: L.Delivery, forgets: bool)
    requires Books(first, s) && i < |s.ops|
    ensures Books(first, Forget(s, i, d, forgets))
  {
    if Final(d) && forgets {
      OneEntry(first, s, Forget(s, i, d, forgets), Forgot(i, s.ops[i].id));
    }
  }

  lemma SaveKeeps(first: State, s: State, i: nat, write: Write, forgets: bool)
    requires Books(first, s) && MaySave(s, i)
    ensures Books(first, SaveOutcome(s, i, write, forgets))
  {
    var d := s.ops[i].pc.arrival.d;
    if Writes(s.ops[i].pc.seen, d) && write.Threw? {
      NoEntry(first, s, At(s, i, Settled));
    } else {
      StoreKeeps(first, s, i, write);
      ForgetKeeps(first, Store(s, i, write), i, d, forgets);
    }
  }

  lemma MovedSaw(first: State, s: State, e: Event)
    requires Books(first, s) && IsStage(e) && e.i < |s.ops|
    ensures AllSawOk(first, At(s, e.i, Move(s, e)).ops, s.log)
  {
    var after := At(s, e.i, Move(s, e)).ops;
    assert SawOk(first, s.ops[e.i], s.log);
    assert s.log[..|s.log|] == s.log;
    forall k | 0 <= k < |after| ensures SawOk(first, after[k], s.log) {
      if k != e.i {
        assert SawOk(first, s.ops[k], s.log);
      }
    }
  }

  lemma StageKeeps(first: State, s: State, e: Event)
    requires Books(first, s) && IsStage(e) && e.i < |s.ops|
    ensures Books(first, Stage(s, e))
  {
    var t, pc := Stage(s, e), Move(s, e);
    var moved := At(s, e.i, pc);
    MovedSaw(first, s, e);
    NoEntry(first, s, moved);
    var note := Note(e.i, s.ops[e.i], pc);
    if note == [] {
      NoEntry(first, s, t);
    } else {
      assert t.ops == moved.ops;
      OneEntry(first, moved, t, note[0]);
    }
  }

  lemma RecordKeeps(first: State, s: State, id: Str, arrival: L.Arrival)
    requires Books(first, s) && arrival.d.Valid()
    ensures Books(first, Next(s, Record(id, arrival)))
  {
    var begun := s.(ops := s.ops + [Op(id, true, Answered(arrival))]);
    NoEntry(first, s, begun);
    if arrival.d.state.Sent? {
      OneEntry(first, begun, Next(s, Record(id, arrival)), Accepted(|s.ops|, id));
    }
  }

  lemma TableKeeps(first: State, s: State, e: Event)
    requires Books(first, s) && (e.Retry? || e.Remember? || e.Expire? || e.Prune?)
    ensures Books(first, Next(s, e))
  {
    match e {
      case Remember(id) => OneEntry(first, s, Next(s, e), Remembered(id));
      case Expire(id) => OneEntry(first, s, Next(s, e), Expired(id));
      case _ => NoEntry(first, s, Next(s, e));
    }
  }

  lemma StepKeeps(first: State, s: State, e: Event)
    requires Books(first, s)
    ensures Books(first, Next(s, e))
  {
    if e.Retry? || e.Remember? || e.Expire? || e.Prune? {
      TableKeeps(first, s, e);
    } else if e.Record? {
      if e.arrival.d.Valid() {
        RecordKeeps(first, s, e.id, e.arrival);
      }
    } else if e.Save? {
      if MaySave(s, e.i) {
        SaveKeeps(first, s, e.i, e.write, e.forgets);
      }
    } else if e.i < |s.ops| {
      StageKeeps(first, s, e);
    }
  }

  lemma {:induction false} BooksRun(first: State, s: State, es: seq<Event>)
    requires Books(first, s)
    ensures Books(first, Run(s, es))
    decreases |es|
  {
    if es != [] {
      StepKeeps(first, s, es[0]);
      BooksRun(first, Next(s, es[0]), es[1..]);
    }
  }

  /** In every run the log accounts for what is in the store. */
  lemma LogTellsTheStore(first: State, es: seq<Event>)
    requires Start(first)
    ensures Books(first, Run(first, es))
  {
    BooksRun(first, first, es);
  }

  // --- when a receipt is undone ---------------------------------------------------------------------

  /** The newest save of a record before position b is at a. */
  ghost predicate LastSave(log: seq<Entry>, b: nat, id: Str, a: nat)
  {
    && a < b <= |log| && SavesOf(log[a], id)
    && forall c :: a < c < b ==> !SavesOf(log[c], id)
  }

  /** Between two positions without a save nothing changes. */
  lemma {:induction false} QuietKeeps(games: map<Str, Game>, log: seq<Entry>, a: nat, b: nat, id: Str)
    requires a <= b <= |log| && forall c :: a <= c < b ==> !SavesOf(log[c], id)
    ensures AcceptedBy(games, log[..b], id) == AcceptedBy(games, log[..a], id)
    decreases b - a
  {
    if a < b {
      assert log[..b][..b - 1] == log[..b - 1];
      QuietKeeps(games, log, a, b - 1, id);
    }
  }

  /** Looking back from b for the newest save of the record at or after `since`. */
  lemma {:induction false} FindLastSave(log: seq<Entry>, since: nat, b: nat, id: Str) returns (a: nat)
    requires since <= b <= |log|
    ensures since <= a <= b
    ensures forall c :: a <= c < b ==> !SavesOf(log[c], id)
    ensures a > since ==> SavesOf(log[a - 1], id)
    decreases b - since
  {
    a := b;
    if since < b && !SavesOf(log[b - 1], id) {
      a := FindLastSave(log, since, b - 1, id);
    }
  }

  /** A record that stood unaccepted at `since` is accepted at b exactly when its newest save is a receipt since. */
  lemma AcceptedSince(games: map<Str, Game>, log: seq<Entry>, since: nat, b: nat, id: Str)
    requires since <= b <= |log| && !AcceptedBy(games, log[..since], id)
    ensures AcceptedBy(games, log[..b], id) <==>
      exists a: nat :: LastSave(log, b, id, a) && log[a].receipt && since <= a
  {
    var a := FindLastSave(log, since, b, id);
    QuietKeeps(games, log, a, b, id);
    if a > since {
      assert LastSave(log, b, id, a - 1);
      assert log[..a][..a - 1] == log[..a - 1];
    }
  }

  /**
   * A save that is no receipt undoes one exactly when the newest save of that record before it is a receipt
   * written since the record was read for it.
   */
  lemma UndoneExactlyWhen(first: State, es: seq<Event>, b: nat)
    requires Start(first) && b < |Run(first, es).log|
    requires Run(first, es).log[b].Saved? && !Run(first, es).log[b].receipt
    ensures
      var log := Run(first, es).log;
      AcceptedBy(first.games, log[..b], log[b].id) <==>
        exists a: nat :: LastSave(log, b, log[b].id, a) && log[a].receipt && log[b].since <= a
  {
    LogTellsTheStore(first, es);
    var log := Run(first, es).log;
    assert EntryOk(first, log[..b], log[b]);
    assert log[..b][..log[b].since] == log[..log[b].since];
    AcceptedSince(first.games, log, log[b].since, b, log[b].id);
  }

  /**
   * In every run, the scoring screen's own recordings included, a request goes out only while the capability is
   * held, and for a record saved as accepted exactly when that receipt, the newest save of the record, was
   * written since the retry read it.
   */
  lemma SentAfterReceiptExactlyWhen(first: State, es: seq<Event>, b: nat)
    requires Start(first) && b < |Run(first, es).log| && Run(first, es).log[b].Posted?
    ensures
      var log := Run(first, es).log;
      && HeldBy(first.capabilities, log[..b], log[b].id)
      && (AcceptedBy(first.games, log[..b], log[b].id) <==>
            exists a: nat :: LastSave(log, b, log[b].id, a) && log[a].receipt && log[b].since <= a)
  {
    LogTellsTheStore(first, es);
    var log := Run(first, es).log;
    assert EntryOk(first, log[..b], log[b]);
    assert log[..b][..log[b].since] == log[..log[b].since];
    AcceptedSince(first.games, log, log[b].since, b, log[b].id);
  }

  /**
   * In every run, whatever has been accepted or saved in the meantime, a retry that has read its record sends its
   * request exactly when the record could be retried where it was read and the capability is held now.
   */
  lemma PostsExactlyWhen(first: State, es: seq<Event>, i: nat)
    requires Start(first) && i < |Run(first, es).ops| && Run(first, es).ops[i].pc.Loaded?
    ensures
      var s, t := Run(first, es), Next(Run(first, es), Begin(i));
      var id, pc := s.ops[i].id, s.ops[i].pc;
      && pc.since <= |s.log|
      && (t.log == s.log + [Posted(i, id, pc.since)] <==>
            && pc.game.Some? && EligibleBy(first.games, s.log[..pc.since], id)
            && HeldBy(first.capabilities, s.log, id))
      && (t.log == s.log + [Posted(i, id, pc.since)] || t.log == s.log)
  {
    LogTellsTheStore(first, es);
    assert SawOk(first, Run(first, es).ops[i], Run(first, es).log);
  }

  /** And nothing else undoes one: over a run a record stops being accepted only at such a save. */
  lemma OnlySavesUndo(first: State, es: seq<Event>, e: Event, id: Str)
    requires Start(first) && id in Next(Run(first, es), e).games
    requires Run(first, es).games[id].record.serverDelivery.Sent?
    ensures
      var s, t := Run(first, es), Next(Run(first, es), e);
      t.games[id].record.serverDelivery.Sent? <==>
        !(e.Save? && MaySave(s, e.i) && s.ops[e.i].id == id && e.write.Taken? && id in s.history
          && Writes(s.ops[e.i].pc.seen, s.ops[e.i].pc.arrival.d) && !s.ops[e.i].pc.arrival.d.state.Sent?)
  {
    var s := Run(first, es);
    if e.Save? && MaySave(s, e.i) {
      SaveShape(s, e.i, e.write, e.forgets);
    }
  }
}

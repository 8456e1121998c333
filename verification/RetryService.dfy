// The retry service over the ledger (`ResultDeliveryService` in src/app/ResultDelivery.ts).
//
// `retry` is a coroutine with five awaits; it is cut at each of them, and anything may happen in between:
// other retries of any record, a capability expiring or being remembered, a record being pruned, a read
// failing, a write being refused, any step throwing. Recording an outcome is itself a read and then a write,
// two steps. It is done by retries and, beside them, by the scoring screen with a delivery of its own
// (src/app/ScoringScreen.tsx), which is a `direct` operation here and goes through no pending map.
module RetryService {
  import opened Text
  import L = ResultLedger

  datatype Game = Game(connected: bool, record: L.Record)

  /** `since` is the length of the log when the record was last read. */
  datatype Pc =
    | Reading
    | Loaded(game: Option<Game>, since: nat)
    | Posting
    | Answered(arrival: L.Arrival)
    | Saving(arrival: L.Arrival, seen: Option<Game>, since: nat)
    | Settled
    | Closed

  datatype Op = Op(id: Str, direct: bool, pc: Pc)

  /** What happened, and which operation did it; nothing the service does depends on it. */
  datatype Entry =
    | Posted(op: nat, id: Str, since: nat)
    | Accepted(op: nat, id: Str)
    | Saved(op: nat, id: Str, receipt: bool, retryable: bool, since: nat)
    | Forgot(op: nat, id: Str)
    | Remembered(id: Str)
    | Expired(id: Str)

  datatype State = State(
    games: map<Str, Game>,
    capabilities: set<Str>,
    ops: seq<Op>,
    pending: map<Str, nat>,
    history: map<Str, seq<L.Arrival>>,
    log: seq<Entry>)

  datatype Write = Taken | Refused | Threw

  datatype Event =
    | Retry(id: Str)
    | Record(id: Str, arrival: L.Arrival)
    | Load(i: nat, fails: bool)
    | Begin(i: nat)
    | Answer(i: nat, arrival: L.Arrival)
    | Look(i: nat, fails: bool)
    | Save(i: nat, write: Write, forgets: bool)
    | Throw(i: nat)
    | Close(i: nat)
    | Remember(id: Str)
    | Expire(id: Str)
    | Prune(id: Str)

  /** A record that may be retried, capability aside. */
  predicate Eligible(g: Game)
  {
    && g.connected && g.record.Completed()
    && !g.record.serverDelivery.Sent? && !g.record.serverDelivery.NoServer?
    && !(g.record.ledger.Some? && g.record.ledger.value.retryable == Some(false))
  }

  /** `canRetry`. */
  predicate CanRetry(g: Game, held: bool) { Eligible(g) && held }

  /** A read of the store; one that fails is answered as a record that is not there. */
  function Find(games: map<Str, Game>, id: Str, fails: bool): Option<Game>
  {
    if id in games && !fails then Some(games[id]) else None
  }

  function At(s: State, i: nat, pc: Pc): State
    requires i < |s.ops|
  {
    s.(ops := s.ops[i := s.ops[i].(pc := pc)])
  }

  /** Whether recording a delivery on the record seen comes to an update at all. */
  predicate Writes(seen: Option<Game>, d: L.Delivery)
  {
    seen.Some? && !L.Ignored(seen.value.record, d)
  }

  predicate Final(d: L.Delivery) { d.state.Sent? || !d.retryable || d.unsupported }

  predicate MaySave(s: State, i: nat)
  {
    i < |s.ops| && s.ops[i].pc.Saving? && s.ops[i].pc.arrival.d.Valid()
  }

  function SavedEntry(s: State, i: nat): Entry
    requires MaySave(s, i)
  {
    var op := s.ops[i];
    Saved(i, op.id, op.pc.arrival.d.state.Sent?, op.pc.arrival.d.retryable, op.pc.since)
  }

  /** `recordFinalDelivery` after its read: what is in the store, and what the delivery did to it. */
  function Store(s: State, i: nat, write: Write): State
    requires MaySave(s, i)
  {
    var id, arrival, seen := s.ops[i].id, s.ops[i].pc.arrival, s.ops[i].pc.seen;
    var done := At(s, i, Settled);
    if seen.None? || id !in s.games || id !in s.history then done
    else if !Writes(seen, arrival.d) then done.(history := s.history[id := s.history[id] + [arrival]])
    else if !write.Taken? then done
    else
      var after := L.Commit(seen.value.record, s.games[id].record, arrival.d, arrival.at);
      done.(
        games := s.games[id := s.games[id].(record := after)],
        history := s.history[id := s.history[id] + [arrival]],
        log := s.log + [SavedEntry(s, i)])
  }

  /** The rest of `recordOutcome`, which a write that throws does not reach. */
  function Forget(s: State, i: nat, d: L.Delivery, forgets: bool): State
    requires i < |s.ops|
  {
    if Final(d) && forgets then
      s.(capabilities := s.capabilities - {s.ops[i].id}, log := s.log + [Forgot(i, s.ops[i].id)])
    else s
  }

  function SaveOutcome(s: State, i: nat, write: Write, forgets: bool): State
    requires MaySave(s, i)
  {
    var d := s.ops[i].pc.arrival.d;
    if Writes(s.ops[i].pc.seen, d) && write.Threw? then At(s, i, Settled)
    else Forget(Store(s, i, write), i, d, forgets)
  }

  predicate IsStage(e: Event) { e.Load? || e.Begin? || e.Answer? || e.Look? || e.Throw? || e.Close? }

  /** Where an operation goes at a stage other than its save. */
  function Move(s: State, e: Event): Pc
    requires IsStage(e) && e.i < |s.ops|
  {
    var id, pc := s.ops[e.i].id, s.ops[e.i].pc;
    match e
    case Load(_, fails) => if pc.Reading? then Loaded(Find(s.games, id, fails), |s.log|) else pc
    case Begin(_) =>
      if !pc.Loaded? then pc
      else if pc.game.Some? && CanRetry(pc.game.value, id in s.capabilities) then Posting
      else Settled
    case Answer(_, arrival) => if pc.Posting? && arrival.d.Valid() then Answered(arrival) else pc
    case Look(_, fails) => if pc.Answered? then Saving(pc.arrival, Find(s.games, id, fails), |s.log|) else pc
    case Throw(_) => if pc.Closed? then pc else Settled
    case Close(_) => if pc.Settled? then Closed else pc
  }

  /** What a stage adds to the log. */
  function Note(i: nat, op: Op, pc: Pc): seq<Entry>
  {
    if op.pc.Loaded? && pc.Posting? then [Posted(i, op.id, op.pc.since)]
    else if op.pc.Posting? && pc.Answered? && pc.arrival.d.state.Sent? then [Accepted(i, op.id)]
    else []
  }

  function Stage(s: State, e: Event): State
    requires IsStage(e) && e.i < |s.ops|
  {
    var op, pc := s.ops[e.i], Move(s, e);
    At(s, e.i, pc).(
      log := s.log + Note(e.i, op, pc),
      pending := if e.Close? && op.pc.Settled? && op.id in s.pending && s.pending[op.id] == e.i then s.pending - {op.id}
                 else s.pending)
  }

  function Next(s: State, e: Event): State
  {
    match e
    case Retry(id) =>
      // A retry already under way is joined.
      if id in s.pending then s
      else s.(ops := s.ops + [Op(id, false, Reading)], pending := s.pending[id := |s.ops|])
    case Record(id, arrival) =>
      if !arrival.d.Valid() then s
      else
        s.(ops := s.ops + [Op(id, true, Answered(arrival))],
           log := if arrival.d.state.Sent? then s.log + [Accepted(|s.ops|, id)] else s.log)
    case Save(i, write, forgets) => if MaySave(s, i) then SaveOutcome(s, i, write, forgets) else s
    case Remember(id) => s.(capabilities := s.capabilities + {id}, log := s.log + [Remembered(id)])
    case Expire(id) => s.(capabilities := s.capabilities - {id}, log := s.log + [Expired(id)])
    case Prune(id) => s.(games := s.games - {id})
    case _ => if e.i < |s.ops| then Stage(s, e) else s
  }

  function Run(s: State, es: seq<Event>): State
    decreases |es|
  {
    if es == [] then s else Run(Next(s, es[0]), es[1..])
  }

  /** Records as they are when the application opens, and nothing under way. */
  ghost predicate Start(s: State)
  {
    s.ops == [] && s.pending == map[] && s.log == [] && s.history.Keys == s.games.Keys
    && forall id :: id in s.history ==> s.history[id] == []
  }

  // --- reading the log ------------------------------------------------------------------------------

  predicate IsOps(e: Entry) { e.Posted? || e.Accepted? || e.Saved? || e.Forgot? }

  predicate SavesOf(e: Entry, id: Str) { e.Saved? && e.id == id }

  /** Whether the newest save of a record was a receipt, or the record had one to begin with. */
  function AcceptedBy(games: map<Str, Game>, log: seq<Entry>, id: Str): bool
  {
    if log == [] then id in games && games[id].record.serverDelivery.Sent?
    else if SavesOf(log[|log| - 1], id) then log[|log| - 1].receipt
    else AcceptedBy(games, log[..|log| - 1], id)
  }

  /**
   * Whether a record may be retried, by the log: its newest save was a refusal worth retrying, of a record that is
   * connected and completed, or nothing was saved and it could be retried to begin with.
   */
  function EligibleBy(games: map<Str, Game>, log: seq<Entry>, id: Str): bool
  {
    if log == [] then id in games && Eligible(games[id])
    else if SavesOf(log[|log| - 1], id) then id in games && EligibleAfter(games[id], log[|log| - 1])
    else EligibleBy(games, log[..|log| - 1], id)
  }

  predicate EligibleAfter(g: Game, e: Entry)
  {
    g.connected && g.record.Completed() && e.Saved? && !e.receipt && e.retryable
  }

  /** Whether a capability was remembered, or there to begin with, and neither forgotten nor expired since. */
  function HeldBy(capabilities: set<Str>, log: seq<Entry>, id: Str): bool
  {
    if log == [] then id in capabilities
    else
      var e := log[|log| - 1];
      if (e.Remembered? || e.Forgot? || e.Expired?) && e.id == id then e.Remembered?
      else HeldBy(capabilities, log[..|log| - 1], id)
  }

  lemma OneMore(first: State, log: seq<Entry>, e: Entry, id: Str)
    ensures AcceptedBy(first.games, log + [e], id)
      == if SavesOf(e, id) then e.receipt else AcceptedBy(first.games, log, id)
    ensures EligibleBy(first.games, log + [e], id)
      == if SavesOf(e, id) then id in first.games && EligibleAfter(first.games[id], e)
         else EligibleBy(first.games, log, id)
    ensures HeldBy(first.capabilities, log + [e], id)
      == if (e.Remembered? || e.Forgot? || e.Expired?) && e.id == id then e.Remembered?
         else HeldBy(first.capabilities, log, id)
  {
    assert (log + [e])[..|log|] == log;
  }

  // --- one retry at a time --------------------------------------------------------------------------

  /** The pending map is exactly the retries that have not been closed, and of a record only the newest is open. */
  ghost predicate SingleFlight(s: State)
  {
    && (forall id :: id in s.pending ==>
          && s.pending[id] < |s.ops|
          && var op := s.ops[s.pending[id]]; op.id == id && !op.direct && !op.pc.Closed?)
    && (forall i :: 0 <= i < |s.ops| && !s.ops[i].direct && !s.ops[i].pc.Closed? ==>
          s.ops[i].id in s.pending && s.pending[s.ops[i].id] == i)
    && (forall i, m :: 0 <= i < m < |s.ops| && !s.ops[i].direct && !s.ops[m].direct && s.ops[i].id == s.ops[m].id ==>
          s.ops[i].pc.Closed?)
  }

  /** The same operations, open or closed as they were. */
  ghost predicate SameFlights(s: State, t: State)
  {
    && t.pending == s.pending && |t.ops| == |s.ops|
    && forall i :: 0 <= i < |s.ops| ==>
         && t.ops[i].id == s.ops[i].id && t.ops[i].direct == s.ops[i].direct
         && (t.ops[i].pc.Closed? <==> s.ops[i].pc.Closed?)
  }

  lemma StoreShape(s: State, i: nat, write: Write)
    requires MaySave(s, i)
    ensures
      var t, id := Store(s, i, write), s.ops[i].id;
      && t.ops == s.ops[i := s.ops[i].(pc := Settled)] && t.pending == s.pending && t.capabilities == s.capabilities
      && t.games.Keys == s.games.Keys && t.history.Keys == s.history.Keys
      && (forall k :: k != id && k in s.games ==> t.games[k] == s.games[k])
      && (forall k :: k != id && k in s.history ==> t.history[k] == s.history[k])
      && (t.log == s.log || t.log == s.log + [SavedEntry(s, i)])
  {
  }

  lemma ForgetShape(s: State, i: nat, d: L.Delivery, forgets: bool)
    requires i < |s.ops|
    ensures
      var t := Forget(s, i, d, forgets);
      && t.ops == s.ops && t.pending == s.pending && t.games == s.games && t.history == s.history
      && (t.log == s.log || t.log == s.log + [Forgot(i, s.ops[i].id)])
  {
  }

  /** What a save leaves alone, and what it can log. */
  lemma SaveShape(s: State, i: nat, write: Write, forgets: bool)
    requires MaySave(s, i)
    ensures
      var t, id := SaveOutcome(s, i, write, forgets), s.ops[i].id;
      && t.ops == s.ops[i := s.ops[i].(pc := Settled)] && t.pending == s.pending
      && t.games.Keys == s.games.Keys && t.history.Keys == s.history.Keys
      && (forall k :: k != id && k in s.games ==> t.games[k] == s.games[k])
      && (forall k :: k != id && k in s.history ==> t.history[k] == s.history[k])
      && s.log <= t.log
      && forall j :: |s.log| <= j < |t.log| ==> (t.log[j].Saved? || t.log[j].Forgot?) && t.log[j].id == id
  {
    StoreShape(s, i, write);
    ForgetShape(Store(s, i, write), i, s.ops[i].pc.arrival.d, forgets);
  }

  lemma StageKeepsFlights(s: State, e: Event)
    requires IsStage(e) && !e.Close? && e.i < |s.ops|
    ensures SameFlights(s, Stage(s, e))
  {
  }

  lemma SameFlightsKeep(s: State, t: State)
    requires SingleFlight(s) && SameFlights(s, t)
    ensures SingleFlight(t)
  {
  }

  lemma CloseKeeps(s: State, i: nat)
    requires SingleFlight(s) && i < |s.ops|
    ensures SingleFlight(Stage(s, Close(i)))
  {
  }

  lemma OpeningKeeps(s: State, e: Event)
    requires SingleFlight(s) && (e.Retry? || e.Record?)
    ensures SingleFlight(Next(s, e))
  {
  }

  lemma FlightStep(s: State, e: Event)
    requires SingleFlight(s)
    ensures SingleFlight(Next(s, e))
  {
    if e.Retry? || e.Record? {
      OpeningKeeps(s, e);
    } else if e.Save? {
      if MaySave(s, e.i) {
        SaveShape(s, e.i, e.write, e.forgets);
        SameFlightsKeep(s, Next(s, e));
      }
    } else if IsStage(e) && e.i < |s.ops| {
      if e.Close? {
        CloseKeeps(s, e.i);
      } else {
        StageKeepsFlights(s, e);
        SameFlightsKeep(s, Next(s, e));
      }
    }
  }

  predicate InFlight(op: Op) { !op.direct && op.pc.Posting? }

  lemma {:induction false} FlightRun(s: State, es: seq<Event>)
    requires SingleFlight(s)
    ensures SingleFlight(Run(s, es))
    decreases |es|
  {
    if es != [] {
      FlightStep(s, es[0]);
      FlightRun(Next(s, es[0]), es[1..]);
    }
  }

  /** At most one request is on its way for a record, and the pending map is exactly the open retries. */
  lemma OneRequestPerRecord(first: State, es: seq<Event>)
    requires Start(first)
    ensures
      var s := Run(first, es);
      && (forall i, j :: 0 <= i < j < |s.ops| && InFlight(s.ops[i]) && InFlight(s.ops[j]) ==>
            s.ops[i].id != s.ops[j].id)
      && (forall id :: id in s.pending <==>
            exists i :: 0 <= i < |s.ops| && s.ops[i].id == id && !s.ops[i].direct && !s.ops[i].pc.Closed?)
  {
    FlightRun(first, es);
  }
}

// The QBTCP side of tournament control (e2e/support/tournamentControl.ts).
//
// One request is one atomic step. The state and the step are written as a value and a function so that
// whole runs can be quantified over (here and in StartProtocol); `TournamentControl` is the server
// itself, an object whose fields each request updates, proved to take exactly those steps.
//
// A session identifier `sess-n` is represented by its number n, a result fingerprint `fp-n` likewise.
// D is the document an assignment is served as, B the body of a progress or result request.
module ControlServer {
  import opened Text

  const ROOM_TOKEN: Str := Lit("room-token-9f13")
  const SESSION_TOKEN: Str := Lit("session-token-4a72")
  const PAIRING_CODE: Str := Lit("48213906")

  datatype Session = Session(id: nat, matchId: Str)

  datatype Round<D> = Round(matchId: Str, document: D)

  datatype State<D, B> = State(
    served: Option<Round<D>>,
    roomTokenValid: bool,
    sessionTokenValid: bool,
    writer: Option<Str>,
    refusedWrites: nat,
    sessions: seq<Session>,
    sessionCounter: nat,
    progress: seq<B>,
    results: seq<B>,
    resultAttempts: seq<B>,
    failNext: Option<nat>)

  datatype Request<D, B> =
    | Pair(code: Str)
    | GetStatus(token: Str)
    | GetAssignment(token: Str)
    | OpenSession(token: Str, matchId: Str)
    | TakeWriter(token: Str, sessionId: nat, takeOver: bool)
    | PutProgress(token: Str, sessionId: nat, body: B)
    | PostResult(token: Str, sessionId: nat, body: B)
    | Assign(round: Option<Round<D>>)
    | RevokeRoomToken
    | RevokeSessionToken
    | GiveWriterTo(device: Str)
    | FailNextResult(status: nat)

  datatype Reply<D> =
    | Refused(status: nat)
    | Paired(token: Str)
    | Status(served: bool, open: Option<nat>)
    | NoContent
    | Document(document: D)
    | Opened(sessionId: nat, token: Str)
    | WriterGiven(sessionId: nat)
    | Recorded
    | Receipt(matchId: Option<Str>, fingerprint: nat, duplicate: bool)
    | Done

  function Initial<D, B>(round: Option<Round<D>>): State<D, B>
  {
    State(round, true, true, None, 0, [], 0, [], [], [], None)
  }

  /** The first open session for a match, in the order sessions were opened. */
  function FindSession(sessions: seq<Session>, matchId: Str): Option<nat>
  {
    if sessions == [] then None
    else if sessions[0].matchId == matchId then Some(sessions[0].id)
    else FindSession(sessions[1..], matchId)
  }

  predicate RoomAuthorized<D, B>(s: State<D, B>, token: Str)
  {
    s.roomTokenValid && token == ROOM_TOKEN
  }

  predicate SessionAuthorized<D, B>(s: State<D, B>, token: Str)
  {
    s.sessionTokenValid && token == SESSION_TOKEN
  }

  function OpenFor<D, B>(s: State<D, B>, matchId: Str): (State<D, B>, Reply<D>)
  {
    var valid := s.(sessionTokenValid := true);
    match FindSession(s.sessions, matchId)
    case Some(id) => (valid, Opened(id, SESSION_TOKEN))
    case None =>
      var id := s.sessionCounter + 1;
      (valid.(sessionCounter := id, sessions := s.sessions + [Session(id, matchId)]), Opened(id, SESSION_TOKEN))
  }

  function RecordResult<D, B>(s: State<D, B>, body: B): (State<D, B>, Reply<D>)
  {
    var tried := s.(resultAttempts := s.resultAttempts + [body]);
    if s.failNext.Some? then (tried.(failNext := None), Refused(s.failNext.value))
    else
      (tried.(results := s.results + [body]),
       Receipt(if s.served.Some? then Some(s.served.value.matchId) else None, |s.results| + 1, |s.results| > 0))
  }

  function Step<D, B>(s: State<D, B>, q: Request<D, B>): (State<D, B>, Reply<D>)
  {
    match q
    case Pair(code) =>
      if code == PAIRING_CODE then (s.(roomTokenValid := true), Paired(ROOM_TOKEN)) else (s, Refused(401))
    case GetStatus(token) =>
      if !RoomAuthorized(s, token) then (s, Refused(401))
      else (s, Status(s.served.Some?, if s.served.Some? then FindSession(s.sessions, s.served.value.matchId) else None))
    case GetAssignment(token) =>
      if !RoomAuthorized(s, token) then (s, Refused(401))
      else if s.served.None? then (s, NoContent)
      else (s, Document(s.served.value.document))
    case OpenSession(token, matchId) =>
      if !RoomAuthorized(s, token) then (s, Refused(401))
      else if matchId == [] then (s, Refused(400))
      else OpenFor(s, matchId)
    case TakeWriter(token, id, takeOver) =>
      if !SessionAuthorized(s, token) then (s, Refused(401))
      else if !takeOver then (s, Refused(400))
      else (s.(writer := None), WriterGiven(id))
    case PutProgress(token, id, body) =>
      if !SessionAuthorized(s, token) then (s, Refused(401))
      else if s.writer.Some? then (s.(refusedWrites := s.refusedWrites + 1), Refused(409))
      else (s.(progress := s.progress + [body]), Recorded)
    case PostResult(token, id, body) =>
      if !SessionAuthorized(s, token) then (s, Refused(401))
      else if s.writer.Some? then (s.(refusedWrites := s.refusedWrites + 1), Refused(409))
      else RecordResult(s, body)
    case Assign(round) => (s.(served := round), Done)
    case RevokeRoomToken => (s.(roomTokenValid := false), Done)
    case RevokeSessionToken => (s.(sessionTokenValid := false), Done)
    case GiveWriterTo(device) => (s.(writer := Some(device)), Done)
    case FailNextResult(status) => (s.(failNext := Some(status)), Done)
  }

  /** The server. Its methods are its routes and its test controls. */
  class TournamentControl<D, B> {
    var served: Option<Round<D>>
    var roomTokenValid: bool
    var sessionTokenValid: bool
    var writer: Option<Str>
    var refusedWrites: nat
    var sessions: seq<Session>
    var sessionCounter: nat
    var progress: seq<B>
    var results: seq<B>
    var resultAttempts: seq<B>
    var failNext: Option<nat>

    ghost function Value(): State<D, B>
      reads this
    {
      State(served, roomTokenValid, sessionTokenValid, writer, refusedWrites, sessions, sessionCounter,
            progress, results, resultAttempts, failNext)
    }

    constructor (round: Option<Round<D>>)
      ensures Value() == Initial(round)
    {
      served, roomTokenValid, sessionTokenValid := round, true, true;
      writer, refusedWrites, failNext := None, 0, None;
      sessions, sessionCounter := [], 0;
      progress, results, resultAttempts := [], [], [];
    }

    method FindOpen(matchId: Str) returns (found: Option<nat>)
      ensures found == FindSession(sessions, matchId)
    {
      for i := 0 to |sessions|
        invariant FindSession(sessions, matchId) == FindSession(sessions[i..], matchId)
      {
        if sessions[i].matchId == matchId {
          return Some(sessions[i].id);
        }
      }
      return None;
    }

    method OpenSessionRoute(token: Str, matchId: Str) returns (reply: Reply<D>)
      modifies this
      ensures (Value(), reply) == Step(old(Value()), OpenSession(token, matchId))
    {
      if !(roomTokenValid && token == ROOM_TOKEN) {
        return Refused(401);
      }
      if matchId == [] {
        return Refused(400);
      }
      sessionTokenValid := true;
      var found := FindOpen(matchId);
      if found.Some? {
        return Opened(found.value, SESSION_TOKEN);
      }
      sessionCounter := sessionCounter + 1;
      sessions := sessions + [Session(sessionCounter, matchId)];
      return Opened(sessionCounter, SESSION_TOKEN);
    }

    method ReadRoutes(q: Request<D, B>) returns (reply: Reply<D>)
      requires q.GetStatus? || q.GetAssignment?
      ensures (Value(), reply) == Step(Value(), q)
    {
      if !(roomTokenValid && q.token == ROOM_TOKEN) {
        return Refused(401);
      }
      if q.GetStatus? {
        var open: Option<nat> := None;
        if served.Some? {
          open := FindOpen(served.value.matchId);
        }
        return Status(served.Some?, open);
      }
      if served.None? {
        return NoContent;
      }
      return Document(served.value.document);
    }

    method WriteRoutes(q: Request<D, B>) returns (reply: Reply<D>)
      requires q.TakeWriter? || q.PutProgress? || q.PostResult?
      modifies this
      ensures (Value(), reply) == Step(old(Value()), q)
    {
      if !(sessionTokenValid && q.token == SESSION_TOKEN) {
        return Refused(401);
      }
      if q.TakeWriter? {
        if !q.takeOver {
          return Refused(400);
        }
        writer := None;
        return WriterGiven(q.sessionId);
      }
      if writer.Some? {
        refusedWrites := refusedWrites + 1;
        return Refused(409);
      }
      if q.PutProgress? {
        progress := progress + [q.body];
        return Recorded;
      }
      resultAttempts := resultAttempts + [q.body];
      if failNext.Some? {
        var status := failNext.value;
        failNext := None;
        return Refused(status);
      }
      var duplicate := |results| > 0;
      results := results + [q.body];
      return Receipt(if served.Some? then Some(served.value.matchId) else None, |results|, duplicate);
    }

    method Handle(q: Request<D, B>) returns (reply: Reply<D>)
      modifies this
      ensures (Value(), reply) == Step(old(Value()), q)
    {
      reply := Done;
      match q {
        case Pair(code) =>
          if code != PAIRING_CODE {
            return Refused(401);
          }
          roomTokenValid := true;
          reply := Paired(ROOM_TOKEN);
        case OpenSession(token, matchId) => reply := OpenSessionRoute(token, matchId);
        case GetStatus(_) => reply := ReadRoutes(q);
        case GetAssignment(_) => reply := ReadRoutes(q);
        case TakeWriter(_, _, _) => reply := WriteRoutes(q);
        case PutProgress(_, _, _) => reply := WriteRoutes(q);
        case PostResult(_, _, _) => reply := WriteRoutes(q);
        case Assign(round) => served := round;
        case RevokeRoomToken => roomTokenValid := false;
        case RevokeSessionToken => sessionTokenValid := false;
        case GiveWriterTo(device) => writer := Some(device);
        case FailNextResult(status) => failNext := Some(status);
      }
    }
  }

  // Whole runs.

  function Run<D, B>(s: State<D, B>, qs: seq<Request<D, B>>): State<D, B>
    decreases |qs|
  {
    if qs == [] then s else Run(Step(s, qs[0]).0, qs[1..])
  }

  function Replies<D, B>(s: State<D, B>, qs: seq<Request<D, B>>): (r: seq<Reply<D>>)
    ensures |r| == |qs|
    decreases |qs|
  {
    if qs == [] then [] else [Step(s, qs[0]).1] + Replies(Step(s, qs[0]).0, qs[1..])
  }

  /** Sessions are numbered from one in the order they were opened, one for each match. */
  ghost predicate SessionsValid<D, B>(s: State<D, B>)
  {
    && s.sessionCounter == |s.sessions|
    && (forall i :: 0 <= i < |s.sessions| ==> s.sessions[i].id == i + 1 && s.sessions[i].matchId != [])
    && (forall i, j :: 0 <= i < j < |s.sessions| ==> s.sessions[i].matchId != s.sessions[j].matchId)
  }

  lemma {:induction false} FoundSession(sessions: seq<Session>, matchId: Str)
    ensures FindSession(sessions, matchId).Some? ==>
      exists i :: 0 <= i < |sessions| && sessions[i] == Session(FindSession(sessions, matchId).value, matchId)
    ensures FindSession(sessions, matchId).None? ==>
      forall i :: 0 <= i < |sessions| ==> sessions[i].matchId != matchId
  {
    if sessions != [] && sessions[0].matchId != matchId {
      var rest := sessions[1..];
      FoundSession(rest, matchId);
      if FindSession(rest, matchId).Some? {
        var i :| 0 <= i < |rest| && rest[i] == Session(FindSession(rest, matchId).value, matchId);
        assert sessions[i + 1] == rest[i];
      } else {
        assert forall i :: 1 <= i < |sessions| ==> sessions[i] == rest[i - 1];
      }
    }
  }

  /** The server holds session `id` for match `matchId`. */
  ghost predicate Holds<D, B>(s: State<D, B>, id: nat, matchId: Str)
  {
    0 < id <= |s.sessions| && s.sessions[id - 1] == Session(id, matchId)
  }

  lemma StepSessions<D, B>(s: State<D, B>, q: Request<D, B>)
    requires SessionsValid(s)
    ensures SessionsValid(Step(s, q).0)
    ensures s.sessions <= Step(s, q).0.sessions
    ensures Step(s, q).1.Opened? ==> q.OpenSession? && Holds(Step(s, q).0, Step(s, q).1.sessionId, q.matchId)
  {
    if q.OpenSession? && RoomAuthorized(s, q.token) && q.matchId != [] {
      OpenForSessions(s, q.matchId);
    } else {
      OthersOpenNothing(s, q);
    }
  }

  lemma OpenForSessions<D, B>(s: State<D, B>, matchId: Str)
    requires SessionsValid(s) && matchId != []
    ensures
      var (t, reply) := OpenFor(s, matchId);
      && SessionsValid(t) && s.sessions <= t.sessions
      && reply.Opened? && Holds(t, reply.sessionId, matchId)
  {
    FoundSession(s.sessions, matchId);
  }

  lemma OthersOpenNothing<D, B>(s: State<D, B>, q: Request<D, B>)
    requires !(q.OpenSession? && RoomAuthorized(s, q.token) && q.matchId != [])
    ensures
      var (t, reply) := Step(s, q);
      t.sessions == s.sessions && t.sessionCounter == s.sessionCounter && !reply.Opened?
  {
  }

  lemma HoldsDecides<D, B>(s: State<D, B>, id: nat, m: Str, id': nat, m': Str)
    requires SessionsValid(s) && Holds(s, id, m) && Holds(s, id', m')
    ensures id == id' <==> m == m'
  {
  }

  /** After any requests, in any order, the session table is sound and nothing opened was ever lost. */
  lemma {:induction false} RunKeepsSessions<D, B>(s: State<D, B>, qs: seq<Request<D, B>>)
    requires SessionsValid(s)
    ensures SessionsValid(Run(s, qs))
    ensures s.sessions <= Run(s, qs).sessions
    decreases |qs|
  {
    if qs != [] {
      StepSessions(s, qs[0]);
      RunKeepsSessions(Step(s, qs[0]).0, qs[1..]);
    }
  }

  /** Every answer to "open a session" in a run is the session the final table holds for that match. */
  lemma {:induction false} OpenedIsHeld<D, B>(s: State<D, B>, qs: seq<Request<D, B>>, i: nat)
    requires SessionsValid(s)
    requires i < |qs| && Replies(s, qs)[i].Opened?
    ensures qs[i].OpenSession? && Holds(Run(s, qs), Replies(s, qs)[i].sessionId, qs[i].matchId)
    decreases |qs|
  {
    var next := Step(s, qs[0]).0;
    StepSessions(s, qs[0]);
    if i == 0 {
      RunKeepsSessions(next, qs[1..]);
    } else {
      OpenedIsHeld(next, qs[1..], i - 1);
    }
  }

  /**
   * One session per match and one match per session, over a whole run: two openings were answered with
   * the same session exactly when they asked for the same match.
   */
  lemma OneSessionPerMatch<D, B>(s: State<D, B>, qs: seq<Request<D, B>>, i: nat, j: nat)
    requires SessionsValid(s)
    requires i < |qs| && j < |qs| && Replies(s, qs)[i].Opened? && Replies(s, qs)[j].Opened?
    ensures qs[i].OpenSession? && qs[j].OpenSession?
    ensures Replies(s, qs)[i].sessionId == Replies(s, qs)[j].sessionId <==> qs[i].matchId == qs[j].matchId
  {
    OpenedIsHeld(s, qs, i);
    OpenedIsHeld(s, qs, j);
    RunKeepsSessions(s, qs);
    HoldsDecides(Run(s, qs), Replies(s, qs)[i].sessionId, qs[i].matchId, Replies(s, qs)[j].sessionId, qs[j].matchId);
  }

  // The writer lock.

  predicate IsWrite<D, B>(q: Request<D, B>) { q.PutProgress? || q.PostResult? }

  /** How many writes in a run were made with a session token the server honoured at that moment. */
  function AuthorizedWrites<D, B>(s: State<D, B>, qs: seq<Request<D, B>>): nat
    decreases |qs|
  {
    if qs == [] then 0
    else
      (if IsWrite(qs[0]) && SessionAuthorized(s, qs[0].token) then 1 else 0)
      + AuthorizedWrites(Step(s, qs[0]).0, qs[1..])
  }

  /**
   * While another device holds the lock and nobody takes it over, no write lands, every honoured write
   * is refused and counted, and the lock stays where it is. Handing the lock to a third device is not
   * a takeover.
   */
  lemma {:induction false} LockHoldsWritesOff<D, B>(s: State<D, B>, qs: seq<Request<D, B>>)
    requires s.writer.Some?
    requires forall i :: 0 <= i < |qs| ==> !(qs[i].TakeWriter? && qs[i].takeOver)
    ensures
      var t := Run(s, qs);
      && t.writer.Some?
      && t.progress == s.progress && t.results == s.results && t.resultAttempts == s.resultAttempts
      && t.refusedWrites == s.refusedWrites + AuthorizedWrites(s, qs)
    decreases |qs|
  {
    if qs != [] {
      LockHoldsOneOff(s, qs[0]);
      LockHoldsWritesOff(Step(s, qs[0]).0, qs[1..]);
    }
  }

  lemma LockHoldsOneOff<D, B>(s: State<D, B>, q: Request<D, B>)
    requires s.writer.Some? && !(q.TakeWriter? && q.takeOver)
    ensures
      var t := Step(s, q).0;
      && t.writer.Some?
      && t.progress == s.progress && t.results == s.results && t.resultAttempts == s.resultAttempts
      && t.refusedWrites == s.refusedWrites + if IsWrite(q) && SessionAuthorized(s, q.token) then 1 else 0
  {
  }

  /** A run in which the lock is never given away refuses no write for it. */
  lemma {:induction false} NoLockNoRefusal<D, B>(s: State<D, B>, qs: seq<Request<D, B>>)
    requires s.writer.None?
    requires forall i :: 0 <= i < |qs| ==> !qs[i].GiveWriterTo?
    ensures Run(s, qs).refusedWrites == s.refusedWrites && Run(s, qs).writer.None?
    decreases |qs|
  {
    if qs != [] {
      NoLockNoRefusal(Step(s, qs[0]).0, qs[1..]);
    }
  }

  // Results.

  /** The results a run had accepted, read off its replies. */
  function Receipts<D>(replies: seq<Reply<D>>): nat
  {
    if replies == [] then 0 else (if replies[0].Receipt? then 1 else 0) + Receipts(replies[1..])
  }

  lemma OneReceipt<D, B>(s: State<D, B>, q: Request<D, B>)
    ensures
      var (t, r) := Step(s, q);
      && |t.results| == |s.results| + (if r.Receipt? then 1 else 0)
      && (r.Receipt? ==> r.fingerprint == |s.results| + 1 && (r.duplicate <==> |s.results| > 0))
  {
  }

  lemma {:induction false} ResultsAreReceipts<D, B>(s: State<D, B>, qs: seq<Request<D, B>>)
    ensures |Run(s, qs).results| == |s.results| + Receipts(Replies(s, qs))
    decreases |qs|
  {
    if qs != [] {
      OneReceipt(s, qs[0]);
      ResultsAreReceipts(Step(s, qs[0]).0, qs[1..]);
    }
  }

  lemma ReceiptsShift<D>(first: Reply<D>, rest: seq<Reply<D>>, i: nat)
    requires i <= |rest|
    ensures Receipts(([first] + rest)[..i + 1]) == (if first.Receipt? then 1 else 0) + Receipts(rest[..i])
  {
    assert ([first] + rest)[..i + 1][1..] == rest[..i];
  }

  /** The receipt at position i. */
  lemma {:induction false} ReceiptAt<D, B>(s: State<D, B>, qs: seq<Request<D, B>>, i: nat)
    requires i < |qs| && Replies(s, qs)[i].Receipt?
    ensures
      var r := Replies(s, qs)[i];
      && r.fingerprint == |s.results| + Receipts(Replies(s, qs)[..i]) + 1
      && (r.duplicate <==> r.fingerprint > 1)
    decreases |qs|
  {
    OneReceipt(s, qs[0]);
    if i > 0 {
      var next := Step(s, qs[0]).0;
      ReceiptAt(next, qs[1..], i - 1);
      ReceiptsShift(Step(s, qs[0]).1, Replies(next, qs[1..]), i - 1);
    } else {
      assert Replies(s, qs)[..0] == [];
    }
  }

  /**
   * Receipts number the results from one without gaps, the first result of the server's life is the
   * only one not called a duplicate, and every attempt is either a result or an injected failure.
   */
  lemma ReceiptsNumberResults<D, B>(s: State<D, B>, qs: seq<Request<D, B>>)
    ensures |Run(s, qs).results| == |s.results| + Receipts(Replies(s, qs))
    ensures forall i :: 0 <= i < |qs| && Replies(s, qs)[i].Receipt? ==>
      var r := Replies(s, qs)[i];
      && r.fingerprint == |s.results| + Receipts(Replies(s, qs)[..i]) + 1
      && (r.duplicate <==> r.fingerprint > 1)
  {
    ResultsAreReceipts(s, qs);
    forall i | 0 <= i < |qs| && Replies(s, qs)[i].Receipt?
      ensures Replies(s, qs)[i].fingerprint == |s.results| + Receipts(Replies(s, qs)[..i]) + 1
      ensures Replies(s, qs)[i].duplicate <==> Replies(s, qs)[i].fingerprint > 1
    {
      ReceiptAt(s, qs, i);
    }
  }

  /** A result that got as far as being tried, and whether it ran into an injected failure. */
  datatype Attempt<B> = Attempt(body: B, injected: bool)

  function Tried<D, B>(s: State<D, B>, q: Request<D, B>): (tried: seq<Attempt<B>>)
    ensures |tried| <= 1
  {
    if q.PostResult? && SessionAuthorized(s, q.token) && s.writer.None? then [Attempt(q.body, s.failNext.Some?)] else []
  }

  function AttemptsOf<D, B>(s: State<D, B>, qs: seq<Request<D, B>>): seq<Attempt<B>>
    decreases |qs|
  {
    if qs == [] then [] else Tried(s, qs[0]) + AttemptsOf(Step(s, qs[0]).0, qs[1..])
  }

  function Bodies<B>(tried: seq<Attempt<B>>): seq<B>
  {
    if tried == [] then [] else [tried[0].body] + Bodies(tried[1..])
  }

  function WithoutInjected<B>(tried: seq<Attempt<B>>): seq<Attempt<B>>
  {
    if tried == [] then []
    else (if tried[0].injected then [] else [tried[0]]) + WithoutInjected(tried[1..])
  }

  /** How often a test asked for a failure. */
  function FailuresAsked<D, B>(qs: seq<Request<D, B>>): nat
  {
    if qs == [] then 0 else (if qs[0].FailNextResult? then 1 else 0) + FailuresAsked(qs[1..])
  }

  lemma FirstTried<B>(first: seq<Attempt<B>>, rest: seq<Attempt<B>>)
    requires |first| <= 1
    ensures Bodies(first + rest) == Bodies(first) + Bodies(rest)
    ensures WithoutInjected(first + rest) == WithoutInjected(first) + WithoutInjected(rest)
    ensures |WithoutInjected(first)| <= 1
  {
    if first != [] {
      assert (first + rest)[1..] == rest && first[1..] == [];
    } else {
      assert first + rest == rest;
    }
  }

  /** From `s` to `t` exactly `tried` was tried, and at most `asked` further failures were asked for. */
  ghost predicate Accounts<D, B>(s: State<D, B>, t: State<D, B>, tried: seq<Attempt<B>>, asked: nat)
  {
    && t.resultAttempts == s.resultAttempts + Bodies(tried)
    && t.results == s.results + Bodies(WithoutInjected(tried))
    && |tried| - |WithoutInjected(tried)| + Pending(t) <= Pending(s) + asked
  }

  lemma AccountsJoin<D, B>(
    s: State<D, B>, m: State<D, B>, t: State<D, B>, first: seq<Attempt<B>>, rest: seq<Attempt<B>>, a: nat, b: nat
  )
    requires |first| <= 1 && Accounts(s, m, first, a) && Accounts(m, t, rest, b)
    ensures Accounts(s, t, first + rest, a + b)
  {
    FirstTried(first, rest);
    FirstTried(WithoutInjected(first), WithoutInjected(rest));
    Associates(s.resultAttempts, Bodies(first), Bodies(rest));
    Associates(s.results, Bodies(WithoutInjected(first)), Bodies(WithoutInjected(rest)));
  }

  lemma Associates<B>(a: seq<B>, b: seq<B>, c: seq<B>)
    ensures (a + b) + c == a + (b + c)
  {
  }

  lemma TriedOnce<D, B>(s: State<D, B>, q: Request<D, B>)
    ensures Accounts(s, Step(s, q).0, Tried(s, q), if q.FailNextResult? then 1 else 0)
  {
    var tried := Tried(s, q);
    if tried != [] {
      assert tried[1..] == [];
    }
  }

  function Pending<D, B>(s: State<D, B>): nat { if s.failNext.Some? then 1 else 0 }

  /**
   * The results of a run are its attempts without those that ran into an injected failure, in order; and each
   * failure asked for is injected at most once.
   */
  lemma {:induction false} ResultsAreAttempts<D, B>(s: State<D, B>, qs: seq<Request<D, B>>)
    ensures
      var t, tried := Run(s, qs), AttemptsOf(s, qs);
      && t.resultAttempts == s.resultAttempts + Bodies(tried)
      && t.results == s.results + Bodies(WithoutInjected(tried))
      && |tried| - |WithoutInjected(tried)| + Pending(t) <= Pending(s) + FailuresAsked(qs)
    decreases |qs|
  {
    if qs != [] {
      var t := Step(s, qs[0]).0;
      ResultsAreAttempts(t, qs[1..]);
      TriedOnce(s, qs[0]);
      AccountsJoin(s, t, Run(s, qs), Tried(s, qs[0]), AttemptsOf(t, qs[1..]),
                   if qs[0].FailNextResult? then 1 else 0, FailuresAsked(qs[1..]));
    }
  }

  /**
   * The duplicate flag is not about the match: after one result, the first result for a different
   * match, in a different session, is reported as a duplicate.
   */
  lemma DuplicateIgnoresMatch<D, B>(s: State<D, B>, first: Round<D>, second: Round<D>, a: B, b: B, id: nat, id': nat)
    requires s == Initial<D, B>(Some(first)) && first.matchId != second.matchId
    ensures
      var qs := [PostResult(SESSION_TOKEN, id, a), Assign(Some(second)), PostResult(SESSION_TOKEN, id', b)];
      Replies(s, qs)[2] == Receipt(Some(second.matchId), 2, true)
  {
    var q0: Request<D, B> := PostResult(SESSION_TOKEN, id, a);
    var q1: Request<D, B> := Assign(Some(second));
    var q2: Request<D, B> := PostResult(SESSION_TOKEN, id', b);
    var qs := [q0, q1, q2];
    var s1 := Step(s, q0).0;
    var s2 := Step(s1, q1).0;
    assert qs[1..] == [q1, q2] && [q1, q2][1..] == [q2];
    assert Replies(s2, [q2]) == [Step(s2, q2).1];
    assert Replies(s1, [q1, q2]) == [Step(s1, q1).1] + Replies(s2, [q2]);
  }

  // --- who is answered, and with what ---------------------------------------------------------------

  predicate RoomHonoured<D, B>(s: State<D, B>, token: Str) { s.roomTokenValid && token == ROOM_TOKEN }

  predicate SessionHonoured<D, B>(s: State<D, B>, token: Str) { s.sessionTokenValid && token == SESSION_TOKEN }

  /** The request comes with a token the server honours at that moment. */
  predicate Honoured<D, B>(s: State<D, B>, q: Request<D, B>)
  {
    match q
    case GetStatus(token) => RoomHonoured(s, token)
    case GetAssignment(token) => RoomHonoured(s, token)
    case OpenSession(token, _) => RoomHonoured(s, token)
    case TakeWriter(token, _, _) => SessionHonoured(s, token)
    case PutProgress(token, _, _) => SessionHonoured(s, token)
    case PostResult(token, _, _) => SessionHonoured(s, token)
    case Pair(code) => code == PAIRING_CODE
    case _ => true
  }

  /** Whoever is not honoured is answered 401, and nothing changes. */
  lemma OnlyHonouredAct<D, B>(s: State<D, B>, q: Request<D, B>)
    ensures !Honoured(s, q) ==> Step(s, q) == (s, Refused(401))
    ensures Honoured(s, q) && !q.PostResult? ==> Step(s, q).1 != Refused(401)
  {
  }

  /** The tokens are honoured from the pairing or opening that gave them until they are revoked. */
  lemma TokensFollow<D, B>(s: State<D, B>, q: Request<D, B>)
    ensures
      var t := Step(s, q).0;
      && (t.roomTokenValid <==> (q.Pair? && Honoured(s, q)) || (s.roomTokenValid && !q.RevokeRoomToken?))
      && (t.sessionTokenValid <==>
            (q.OpenSession? && Honoured(s, q) && q.matchId != []) || (s.sessionTokenValid && !q.RevokeSessionToken?))
  {
  }

  /** What the reads answer: whether a round is served, the session open for it, and its document. */
  lemma ReadsTell<D, B>(s: State<D, B>, token: Str)
    requires SessionsValid(s) && RoomHonoured(s, token)
    ensures
      var status, document := Step(s, GetStatus(token)), Step(s, GetAssignment(token));
      && status.0 == s && document.0 == s && status.1.Status?
      && (status.1.served <==> s.served.Some?)
      && (forall id: nat :: status.1.open == Some(id) <==> s.served.Some? && Holds(s, id, s.served.value.matchId))
      && document.1 == (if s.served.Some? then Document(s.served.value.document) else NoContent)
  {
    if s.served.Some? {
      FoundSession(s.sessions, s.served.value.matchId);
    }
  }

  /** What the test controls and the writer route change, and that they change nothing else. */
  lemma ControlsDo<D, B>(s: State<D, B>, q: Request<D, B>)
    ensures
      var t := Step(s, q).0;
      && t.served == (if q.Assign? then q.round else s.served)
      && t.writer ==
           (if q.GiveWriterTo? then Some(q.device)
            else if q.TakeWriter? && q.takeOver && Honoured(s, q) then None else s.writer)
      && (q.FailNextResult? ==> t.failNext == Some(q.status))
  {
  }

  /** The progress a run had recorded, read off its requests and replies. */
  function RecordedBodies<D, B>(s: State<D, B>, qs: seq<Request<D, B>>): seq<B>
    decreases |qs|
  {
    if qs == [] then []
    else
      (if qs[0].PutProgress? && Step(s, qs[0]).1.Recorded? then [qs[0].body] else [])
      + RecordedBodies(Step(s, qs[0]).0, qs[1..])
  }

  lemma ProgressStep<D, B>(s: State<D, B>, q: Request<D, B>)
    ensures Step(s, q).0.progress ==
      s.progress + if q.PutProgress? && Step(s, q).1.Recorded? then [q.body] else []
    ensures q.PutProgress? ==> (Step(s, q).1.Recorded? <==> Honoured(s, q) && s.writer.None?)
  {
  }

  /** Progress is recorded exactly while honoured and unlocked, and all of it is kept, in order. */
  lemma {:induction false} ProgressIsKept<D, B>(s: State<D, B>, qs: seq<Request<D, B>>)
    ensures Run(s, qs).progress == s.progress + RecordedBodies(s, qs)
    decreases |qs|
  {
    if qs != [] {
      ProgressStep(s, qs[0]);
      ProgressIsKept(Step(s, qs[0]).0, qs[1..]);
    }
  }
}

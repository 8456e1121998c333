// The delivery ledger of a completed game (src/app/ResultDelivery.ts).
module ResultLedger {
  import opened Text

  /** An ISO timestamp as `new Date` reads it. */
  datatype Stamp = At(time: int) | Unreadable(isEmpty: bool)

  datatype Count = Whole(n: nat) | Invalid

  datatype DeliveryState = NoServer | Pending | Sent | Rejected

  datatype LedgerOutcome = Accepted | StillPending | WasRejected | Unsupported

  datatype Delivery = Delivery(
    state: DeliveryState,
    detail: Option<Str>,
    duplicate: bool,
    reviewRequired: Option<bool>,
    warningCodes: seq<Str>,
    matchId: Option<Str>,
    fingerprint: Option<Str>,
    attempted: bool,
    retryable: bool,
    unsupported: bool)
  {
    predicate Valid() { !state.NoServer? }
  }

  datatype Ledger = Ledger(
    attemptCount: Count,
    firstAttemptedAt: Option<Stamp>,
    lastAttemptedAt: Option<Stamp>,
    acceptedAt: Option<Stamp>,
    acceptedOnAttempt: Option<nat>,
    acceptedAsDuplicate: Option<bool>,
    matchId: Option<Str>,
    fingerprint: Option<Str>,
    reviewRequired: Option<bool>,
    warningCodes: Option<seq<Str>>,
    lastFailureDetail: Option<Str>,
    retryable: Option<bool>,
    outcome: LedgerOutcome)

  /** The frozen result (what the game was, when it ended, its QBJ) and the delivery state beside it. */
  datatype Record = Record(
    game: int,
    completedAt: Option<Stamp>,
    finalQbj: Option<int>,
    serverDelivery: DeliveryState,
    serverDeliveryDetail: Option<Str>,
    ledger: Option<Ledger>)
  {
    predicate Completed() { completedAt.Some? && finalQbj.Some? }

    predicate SameResult(other: Record)
    {
      game == other.game && completedAt == other.completedAt && finalQbj == other.finalQbj
    }
  }

  // --- timestamps -----------------------------------------------------------------------------------

  function Later(best: Option<Stamp>, value: Option<Stamp>): Option<Stamp>
  {
    if value.None? || value.value.Unreadable? then best
    else if best.Some? && best.value.At? && value.value.time <= best.value.time then best
    else value
  }

  function Latest(values: seq<Option<Stamp>>): (r: Option<Stamp>)
    ensures r.Some? ==> r.value.At?
  {
    if values == [] then None else Later(Latest(values[..|values| - 1]), values[|values| - 1])
  }

  predicate Readable(v: Option<Stamp>) { v.Some? && v.value.At? }

  /** The latest of some timestamps is one of them, and no readable one is later. */
  lemma {:induction false} LatestIsLatest(values: seq<Option<Stamp>>)
    ensures Latest(values).None? <==> forall i :: 0 <= i < |values| ==> !Readable(values[i])
    ensures Latest(values).Some? ==> Latest(values) in values
    ensures forall i :: 0 <= i < |values| && Readable(values[i]) ==>
      Latest(values).Some? && values[i].value.time <= Latest(values).value.time
  {
    if values != [] {
      var n := |values| - 1;
      LatestIsLatest(values[..n]);
      forall i | 0 <= i < |values| && Readable(values[i])
        ensures Latest(values).Some? && values[i].value.time <= Latest(values).value.time
      {
        if i < n {
          assert values[..n][i] == values[i];
        }
      }
      if Latest(values).None? {
        forall i | 0 <= i < |values| ensures !Readable(values[i]) {
          if i < n {
            assert values[..n][i] == values[i];
          }
        }
      }
    }
  }

  method LatestTimestamp(values: seq<Option<Stamp>>) returns (r: Option<Stamp>)
    ensures r == Latest(values)
  {
    var latest: Option<Stamp> := None;
    for i := 0 to |values|
      invariant latest == Latest(values[..i])
    {
      assert values[..i + 1][..i] == values[..i];
      if values[i].None? || values[i].value.Unreadable? {
        continue;
      }
      if latest.Some? && values[i].value.time <= latest.value.time {
        continue;
      }
      latest := values[i];
    }
    assert values[..|values|] == values;
    return latest;
  }

  // --- one delivery ---------------------------------------------------------------------------------

  function ValidAttemptCount(previous: Option<Ledger>): nat
  {
    if previous.Some? && previous.value.attemptCount.Whole? then previous.value.attemptCount.n else 0
  }

  /** `value ? {...} : {}` on an optional string. */
  function Truthy(s: Option<Str>): Option<Str>
  {
    if s.Some? && s.value != [] then s else None
  }

  function TruthyStamp(s: Option<Stamp>): Option<Stamp>
  {
    if s.Some? && s.value.Unreadable? && s.value.isEmpty then None else s
  }

  const REJECTED_FALLBACK: Str := Lit("Tournament control did not accept this result.")

  function OutcomeOf(d: Delivery): LedgerOutcome
    requires d.Valid()
  {
    if d.unsupported then Unsupported
    else match d.state case Sent => Accepted case Pending => StillPending case _ => WasRejected
  }

  const EMPTY_LEDGER := Ledger(Whole(0), None, None, None, None, None, None, None, None, None, None, None, StillPending)

  function NextLedger(previous: Option<Ledger>, d: Delivery, at: int): Ledger
    requires d.Valid()
  {
    var p := if previous.Some? then previous.value else EMPTY_LEDGER;
    var attempts := ValidAttemptCount(previous) + (if d.attempted then 1 else 0);
    var accepted := d.state.Sent?;
    var latest := Latest([p.acceptedAt, p.lastAttemptedAt, Some(At(at))]);
    Ledger(
      Whole(attempts),
      if p.firstAttemptedAt.Some? then p.firstAttemptedAt else if d.attempted then Some(At(at)) else None,
      if d.attempted then Some(At(at)) else TruthyStamp(p.lastAttemptedAt),
      if accepted then (if latest.Some? then latest else Some(At(at))) else TruthyStamp(p.acceptedAt),
      if accepted then (if p.acceptedOnAttempt.Some? then p.acceptedOnAttempt else Some(attempts))
      else if TruthyStamp(p.acceptedAt).Some? then p.acceptedOnAttempt else None,
      if accepted then Some(d.duplicate || p.acceptedAsDuplicate == Some(true)) else p.acceptedAsDuplicate,
      if d.matchId.Some? then d.matchId else Truthy(p.matchId),
      if d.fingerprint.Some? then d.fingerprint else Truthy(p.fingerprint),
      if d.reviewRequired.Some? then d.reviewRequired else p.reviewRequired,
      if d.warningCodes != [] then Some(if |d.warningCodes| > 32 then d.warningCodes[..32] else d.warningCodes)
      else p.warningCodes,
      if accepted then None
      else if d.detail.Some? then d.detail
      else if p.lastFailureDetail.Some? then p.lastFailureDetail else Some(REJECTED_FALLBACK),
      Some(d.retryable),
      OutcomeOf(d))
  }

  predicate Ignored(seen: Record, d: Delivery)
  {
    !seen.Completed() || (seen.serverDelivery.Sent? && !d.state.Sent?)
  }

  /** The three fields a delivery writes, worked out from the record `seen` and put into `current`. */
  function Commit(seen: Record, current: Record, d: Delivery, at: int): Record
    requires d.Valid()
  {
    if Ignored(seen, d) then current
    else current.(
      serverDelivery := d.state,
      serverDeliveryDetail := if d.state.Sent? && !d.duplicate then None else d.detail,
      ledger := Some(NextLedger(seen.ledger, d, at)))
  }

  /** `recordFinalDelivery` as one atomic step. */
  function Recorded(record: Record, d: Delivery, at: int): Record
    requires d.Valid()
  {
    Commit(record, record, d, at)
  }

  /** The store a delivery is recorded in. `written` is whether the database takes the write. */
  class GameRecords {
    var records: map<Str, Record>

    constructor ()
      ensures records == map[]
    {
      records := map[];
    }

    method RecordFinalDelivery(id: Str, d: Delivery, at: int, written: bool) returns (updated: Option<Record>)
      requires d.Valid()
      modifies this
      ensures id !in old(records) ==> updated.None? && records == old(records)
      ensures id in old(records) ==>
        var before := old(records)[id];
        var after := Recorded(before, d, at);
        if written || Ignored(before, d) then updated == Some(after) && records == old(records)[id := after]
        else updated.None? && records == old(records)
      ensures updated.Some? && !Ignored(old(records)[id], d) ==>
        && updated.value.serverDelivery == d.state && updated.value.ledger.Some?
        && SaysOutcome(updated.value.ledger.value.outcome, d.state, d.unsupported)
    {
      if id !in records {
        return None;
      }
      var existing := records[id];
      if existing.completedAt.None? || existing.finalQbj.None? {
        return Some(existing);
      }
      if existing.serverDelivery.Sent? && !d.state.Sent? {
        return Some(existing);
      }
      var accepted := d.state.Sent?;
      var next := NextLedger(existing.ledger, d, at);
      if !written {
        return None;
      }
      var detail := if accepted then (if d.duplicate then d.detail else None) else d.detail;
      var after := existing.(serverDelivery := d.state, serverDeliveryDetail := detail, ledger := Some(next));
      records := records[id := after];
      return Some(after);
    }
  }

  // --- whole histories ------------------------------------------------------------------------------

  datatype Arrival = Arrival(d: Delivery, at: int)

  ghost predicate AllValid(hs: seq<Arrival>)
  {
    forall i :: 0 <= i < |hs| ==> hs[i].d.Valid()
  }

  function Apply(record: Record, hs: seq<Arrival>): Record
    requires forall i :: 0 <= i < |hs| ==> hs[i].d.Valid()
  {
    if hs == [] then record
    else
      var n := |hs| - 1;
      Recorded(Apply(record, hs[..n]), hs[n].d, hs[n].at)
  }

  /** Whether control accepted the result at some point of a history. */
  function WasAccepted(hs: seq<Arrival>): bool
  {
    hs != [] && (hs[|hs| - 1].d.state.Sent? || WasAccepted(hs[..|hs| - 1]))
  }

  /** A late refusal of something already accepted is not a delivery that counts. */
  function Counts(hs: seq<Arrival>): bool
    requires hs != []
  {
    hs[|hs| - 1].d.state.Sent? || !WasAccepted(hs[..|hs| - 1])
  }

  /** The attempted deliveries of a history that count. */
  function Attempts(hs: seq<Arrival>): nat
  {
    if hs == [] then 0
    else Attempts(hs[..|hs| - 1]) + (if hs[|hs| - 1].d.attempted && Counts(hs) then 1 else 0)
  }

  /** How many of them there had been once control first accepted. */
  function AttemptsAtAcceptance(hs: seq<Arrival>): nat
    requires WasAccepted(hs)
  {
    var before := hs[..|hs| - 1];
    if WasAccepted(before) then AttemptsAtAcceptance(before) else Attempts(hs)
  }

  /** The newest delivery that counts. There is one, because a history opens with one. */
  function LastCounting(hs: seq<Arrival>): (d: Delivery)
    requires hs != [] && forall i :: 0 <= i < |hs| ==> hs[i].d.Valid()
    ensures d.Valid()
  {
    if Counts(hs) then hs[|hs| - 1].d else LastCounting(hs[..|hs| - 1])
  }

  function AnyDuplicate(hs: seq<Arrival>): bool
  {
    hs != [] && ((hs[|hs| - 1].d.state.Sent? && hs[|hs| - 1].d.duplicate) || AnyDuplicate(hs[..|hs| - 1]))
  }

  function LastAttempt(hs: seq<Arrival>): Option<int>
  {
    if hs == [] then None
    else if hs[|hs| - 1].d.attempted && Counts(hs) then Some(hs[|hs| - 1].at)
    else LastAttempt(hs[..|hs| - 1])
  }

  function FirstAttempt(hs: seq<Arrival>): Option<int>
  {
    if hs == [] then None
    else
      var before := FirstAttempt(hs[..|hs| - 1]);
      if before.Some? then before
      else if hs[|hs| - 1].d.attempted && Counts(hs) then Some(hs[|hs| - 1].at) else None
  }

  ghost predicate Fresh(record: Record)
  {
    record.Completed() && record.ledger.None? && !record.serverDelivery.Sent?
  }

  function StampOf(t: Option<int>): Option<Stamp>
  {
    if t.Some? then Some(At(t.value)) else None
  }

  /** The times an acceptance was put down to: when it arrived, or the attempt before it if that was later. */
  function Moments(hs: seq<Arrival>): set<int>
  {
    if hs == [] then {}
    else
      var before, h := hs[..|hs| - 1], hs[|hs| - 1];
      Moments(before)
      + if h.d.state.Sent? then {h.at} + (if LastAttempt(before).Some? then {LastAttempt(before).value} else {}) else {}
  }

  ghost predicate MomentAt(hs: seq<Arrival>, i: nat, time: int)
    requires i < |hs|
  {
    hs[i].d.state.Sent? && (time == hs[i].at || LastAttempt(hs[..i]) == Some(time))
  }

  lemma {:induction false} MomentsAre(hs: seq<Arrival>, time: int)
    ensures time in Moments(hs) <==> exists i: nat :: i < |hs| && MomentAt(hs, i, time)
    decreases |hs|
  {
    if hs != [] {
      var n := |hs| - 1;
      MomentsAre(hs[..n], time);
      forall i: nat | i < n ensures MomentAt(hs[..n], i, time) <==> MomentAt(hs, i, time) {
        assert hs[..n][..i] == hs[..i];
      }
      assert MomentAt(hs, n, time) ==> exists i: nat :: i < |hs| && MomentAt(hs, i, time);
    }
  }

  /** The latest of some times, and nothing when there is none. */
  ghost predicate IsLatest(stamp: Option<Stamp>, times: set<int>)
  {
    && (stamp.None? <==> times == {})
    && (stamp.Some? ==>
          stamp.value.At? && stamp.value.time in times && forall t :: t in times ==> t <= stamp.value.time)
  }

  /** Unsupported where the delivery was; otherwise the state the record is left in. */
  predicate SaysOutcome(outcome: LedgerOutcome, state: DeliveryState, unsupported: bool)
  {
    && (outcome.Unsupported? <==> unsupported)
    && (!unsupported ==>
          && (outcome.Accepted? <==> state.Sent?)
          && (outcome.StillPending? <==> state.Pending?)
          && (outcome.WasRejected? <==> state.Rejected?))
  }

  /** What the ledger of a record says about the history that produced it. */
  ghost predicate Tells(record: Record, hs: seq<Arrival>)
    requires AllValid(hs)
  {
    && (record.serverDelivery.Sent? <==> WasAccepted(hs))
    && (hs != [] <==> record.ledger.Some?)
    && (record.ledger.Some? ==>
          var l := record.ledger.value;
          && hs != []
          && record.serverDelivery == LastCounting(hs).state
          && l.retryable == Some(LastCounting(hs).retryable)
          && SaysOutcome(l.outcome, record.serverDelivery, LastCounting(hs).unsupported)
          && (l.warningCodes.Some? ==> 0 < |l.warningCodes.value| <= 32)
          && l.attemptCount == Whole(Attempts(hs))
          && l.firstAttemptedAt == StampOf(FirstAttempt(hs))
          && l.lastAttemptedAt == StampOf(LastAttempt(hs))
          && (l.acceptedAt.Some? <==> WasAccepted(hs))
          && IsLatest(l.acceptedAt, Moments(hs))
          && (l.acceptedOnAttempt.Some? <==> WasAccepted(hs))
          && (WasAccepted(hs) ==>
                && l.acceptedOnAttempt.value == AttemptsAtAcceptance(hs) <= Attempts(hs)
                && l.acceptedAsDuplicate == Some(AnyDuplicate(hs))
                && l.lastFailureDetail.None?)
          && (!WasAccepted(hs) ==> l.acceptedAsDuplicate.None? && !AnyDuplicate(hs)))
  }

  /** What the newest delivery that counts and gives one gives. */
  function Given<T>(hs: seq<Arrival>, pick: Delivery -> Option<T>): Option<T>
  {
    if hs == [] then None
    else if Counts(hs) && pick(hs[|hs| - 1].d).Some? then pick(hs[|hs| - 1].d)
    else Given(hs[..|hs| - 1], pick)
  }

  function Codes(d: Delivery): Option<seq<Str>>
  {
    if d.warningCodes == [] then None
    else Some(if |d.warningCodes| > 32 then d.warningCodes[..32] else d.warningCodes)
  }

  /** An id given as the empty text is dropped again by the next counting delivery that gives none. */
  function KeptText(given: Option<Str>, newest: Option<Str>): Option<Str>
  {
    if given == Some([]) && newest.None? then None else given
  }

  /** The details a record carries from delivery to delivery. */
  ghost predicate Carries(record: Record, hs: seq<Arrival>)
    requires AllValid(hs)
  {
    && (record.ledger.None? ==> hs == [])
    && (record.ledger.Some? ==>
          var l := record.ledger.value;
          && hs != []
          && l.matchId == KeptText(Given(hs, (d: Delivery) => d.matchId), LastCounting(hs).matchId)
          && l.fingerprint == KeptText(Given(hs, (d: Delivery) => d.fingerprint), LastCounting(hs).fingerprint)
          && l.reviewRequired == Given(hs, (d: Delivery) => d.reviewRequired)
          && l.warningCodes == Given(hs, Codes)
          && record.serverDeliveryDetail ==
               (if LastCounting(hs).state.Sent? && !LastCounting(hs).duplicate then None else LastCounting(hs).detail)
          && (!WasAccepted(hs) ==>
                var detail := Given(hs, (d: Delivery) => d.detail);
                l.lastFailureDetail == if detail.Some? then detail else Some(REJECTED_FALLBACK)))
  }

  lemma CarriesStep(record: Record, hs: seq<Arrival>)
    requires hs != [] && AllValid(hs) && record.Completed()
    requires Tells(record, hs[..|hs| - 1]) && Carries(record, hs[..|hs| - 1])
    ensures Carries(Recorded(record, hs[|hs| - 1].d, hs[|hs| - 1].at), hs)
  {
  }

  lemma TellsStep(record: Record, hs: seq<Arrival>)
    requires hs != [] && AllValid(hs) && record.Completed() && Tells(record, hs[..|hs| - 1])
    ensures Tells(Recorded(record, hs[|hs| - 1].d, hs[|hs| - 1].at), hs)
  {
    var h := hs[|hs| - 1];
    if h.d.state.Sent? {
      SentTells(record, hs);
    } else if WasAccepted(hs[..|hs| - 1]) {
      assert Recorded(record, h.d, h.at) == record;
    } else {
      RefusedTells(record, hs);
    }
  }

  lemma SentTells(record: Record, hs: seq<Arrival>)
    requires hs != [] && AllValid(hs) && record.Completed() && Tells(record, hs[..|hs| - 1])
    requires hs[|hs| - 1].d.state.Sent?
    ensures Tells(Recorded(record, hs[|hs| - 1].d, hs[|hs| - 1].at), hs)
  {
    var before := hs[..|hs| - 1];
    var p := if record.ledger.Some? then record.ledger.value else EMPTY_LEDGER;
    LatestMoment(p.acceptedAt, LastAttempt(before), hs[|hs| - 1].at, Moments(before));
  }

  lemma RefusedTells(record: Record, hs: seq<Arrival>)
    requires hs != [] && AllValid(hs) && record.Completed() && Tells(record, hs[..|hs| - 1])
    requires !hs[|hs| - 1].d.state.Sent? && !WasAccepted(hs[..|hs| - 1])
    ensures Tells(Recorded(record, hs[|hs| - 1].d, hs[|hs| - 1].at), hs)
  {
  }

  lemma LatestMoment(acceptedAt: Option<Stamp>, attempt: Option<int>, at: int, times: set<int>)
    requires IsLatest(acceptedAt, times)
    ensures
      var all := times + {at} + (if attempt.Some? then {attempt.value} else {});
      Latest([acceptedAt, StampOf(attempt), Some(At(at))]).Some?
      && IsLatest(Latest([acceptedAt, StampOf(attempt), Some(At(at))]), all)
  {
    var three := [acceptedAt, StampOf(attempt), Some(At(at))];
    LatestIsLatest(three);
    assert Readable(three[2]) && three[1] == StampOf(attempt) && three[0] == acceptedAt;
    assert at in times + {at};
  }

  /**
   * The ledger after any history of deliveries, late and duplicate ones and a clock running backwards
   * included: it is exactly what the history says, and the frozen result is untouched.
   */
  lemma {:induction false} LedgerTellsHistory(record: Record, hs: seq<Arrival>)
    requires Fresh(record) && AllValid(hs)
    ensures Tells(Apply(record, hs), hs)
    ensures Apply(record, hs).SameResult(record)
  {
    if hs != [] {
      var n := |hs| - 1;
      LedgerTellsHistory(record, hs[..n]);
      TellsStep(Apply(record, hs[..n]), hs);
    }
  }

  /** Once a result is accepted, its last attempt is one of the times the acceptance was put down to. */
  lemma {:induction false} LastAttemptIsAMoment(hs: seq<Arrival>)
    requires WasAccepted(hs) && LastAttempt(hs).Some?
    ensures LastAttempt(hs).value in Moments(hs)
    decreases |hs|
  {
    if !Counts(hs) {
      LastAttemptIsAMoment(hs[..|hs| - 1]);
    }
  }

  /** So an acceptance is never put down to a time before the last attempt, even when the clock moves backwards. */
  lemma AcceptedAfterLastAttempt(record: Record, hs: seq<Arrival>)
    requires Fresh(record) && AllValid(hs) && Apply(record, hs).serverDelivery.Sent?
    ensures
      var l := Apply(record, hs).ledger;
      && l.Some? && l.value.acceptedAt.Some? && l.value.acceptedAt.value.At?
      && (l.value.lastAttemptedAt.Some? ==>
            && l.value.lastAttemptedAt.value.At?
            && l.value.lastAttemptedAt.value.time <= l.value.acceptedAt.value.time)
  {
    LedgerTellsHistory(record, hs);
    if LastAttempt(hs).Some? {
      LastAttemptIsAMoment(hs);
    }
  }

  /** And every detail it carries is the one the newest counting delivery to give one gave. */
  lemma {:induction false} LedgerCarriesDetails(record: Record, hs: seq<Arrival>)
    requires Fresh(record) && AllValid(hs)
    ensures Carries(Apply(record, hs), hs)
  {
    if hs != [] {
      var n := |hs| - 1;
      LedgerTellsHistory(record, hs[..n]);
      LedgerCarriesDetails(record, hs[..n]);
      CarriesStep(Apply(record, hs[..n]), hs);
    }
  }

  /** A stored time stays as it is, readable or not; only an empty one is dropped. */
  predicate Stands(before: Option<Stamp>, after: Option<Stamp>)
  {
    after == if before == Some(Unreadable(true)) then None else before
  }

  /**
   * Whatever was stored, by this build or another: a delivery that is no acceptance leaves the acceptance on file
   * as it was, and one that was not an attempt leaves the attempts. Only an attempt count that is not one starts
   * again from nothing.
   */
  lemma WhatWasStoredStands(record: Record, d: Delivery, at: int)
    requires d.Valid() && !Ignored(record, d) && record.ledger.Some?
    ensures
      var p, after := record.ledger.value, Recorded(record, d, at);
      && after.SameResult(record) && after.ledger.Some?
      && var l := after.ledger.value;
         && (p.firstAttemptedAt.Some? ==> l.firstAttemptedAt == p.firstAttemptedAt)
         && (!d.attempted ==>
               && Stands(p.lastAttemptedAt, l.lastAttemptedAt) && l.firstAttemptedAt == p.firstAttemptedAt
               && l.attemptCount == if p.attemptCount.Whole? then p.attemptCount else Whole(0))
         && (!d.state.Sent? ==>
               && Stands(p.acceptedAt, l.acceptedAt) && l.acceptedAsDuplicate == p.acceptedAsDuplicate
               && l.acceptedOnAttempt == if l.acceptedAt.Some? then p.acceptedOnAttempt else None)
  {
  }

  /** Accepted is for good: nothing later changes that, which attempt it was, or makes it earlier. */
  lemma {:induction false} AcceptanceIsFinal(record: Record, hs: seq<Arrival>, more: seq<Arrival>)
    requires Fresh(record) && AllValid(hs) && AllValid(more)
    requires Apply(record, hs).serverDelivery.Sent?
    ensures
      var a, b := Apply(record, hs), Apply(record, hs + more);
      && b.serverDelivery.Sent? && a.ledger.Some? && b.ledger.Some?
      && b.ledger.value.acceptedOnAttempt == a.ledger.value.acceptedOnAttempt
      && a.ledger.value.acceptedAt.Some? && a.ledger.value.acceptedAt.value.At?
      && b.ledger.value.acceptedAt.Some? && b.ledger.value.acceptedAt.value.At?
      && a.ledger.value.acceptedAt.value.time <= b.ledger.value.acceptedAt.value.time
      && (a.ledger.value.acceptedAsDuplicate == Some(true) ==> b.ledger.value.acceptedAsDuplicate == Some(true))
  {
    LedgerTellsHistory(record, hs);
    if more == [] {
      assert hs + more == hs;
    } else {
      var n := |more| - 1;
      var before, all := hs + more[..n], hs + more;
      assert all[..|all| - 1] == before && all[|all| - 1] == more[n];
      AcceptanceIsFinal(record, hs, more[..n]);
      LedgerTellsHistory(record, before);
      LedgerTellsHistory(record, all);
      AcceptanceStays(Apply(record, before), before, more[n]);
    }
  }

  lemma AcceptanceStays(record: Record, hs: seq<Arrival>, h: Arrival)
    requires AllValid(hs) && h.d.Valid() && record.Completed() && Tells(record, hs) && WasAccepted(hs)
    ensures
      var after := Recorded(record, h.d, h.at);
      && after.serverDelivery.Sent? && after.ledger.Some?
      && after.ledger.value.acceptedOnAttempt == record.ledger.value.acceptedOnAttempt
      && after.ledger.value.acceptedAt.Some? && after.ledger.value.acceptedAt.value.At?
      && record.ledger.value.acceptedAt.value.time <= after.ledger.value.acceptedAt.value.time
      && (record.ledger.value.acceptedAsDuplicate == Some(true) ==>
            after.ledger.value.acceptedAsDuplicate == Some(true))
  {
    var p := record.ledger.value;
    var three := [p.acceptedAt, p.lastAttemptedAt, Some(At(h.at))];
    LatestIsLatest(three);
    assert three[0] == p.acceptedAt && Readable(three[0]);
  }
}

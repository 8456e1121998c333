// The connection timeline (src/app/ConnectionTimeline.ts): a log that drops a connection state which has
// not changed, collapses a repeat of its newest line into a count, and evicts from the front when full.
module Timeline {
  import opened Text
  import opened Redaction

  datatype Kind =
    | Connected | Degraded | Offline
    | ProgressSent | ProgressRefused | SessionReopened | SessionReopenFailed | RoomRefused | RoomRepaired
    | WriterConflict | WriterTaken | FinalSent | FinalDuplicate | FinalPending | FinalRefused | Reassigned
    | TournamentSwitched | RosterSynced | ControlRequested | ControlRequestFailed | ControlRequestRefused
    | ControlRequestCleared

  datatype Line = Line(number: nat, at: int, lastAt: int, count: nat, kind: Kind, detail: Option<Str>)

  const LIMIT := 240

  /** The kinds that describe the connection itself. */
  predicate IsState(k: Kind) { k == Connected || k == Degraded || k == Offline }

  /** What has become of every call: the lines no longer shown, the lines shown, and the calls dropped. */
  datatype Log = Log(gone: seq<Line>, kept: seq<Line>, dropped: nat)
  {
    function All(): seq<Line> { gone + kept }
  }

  const FRESH := Log([], [], 0)

  /** Where the newest connection state stands, or -1. */
  function LastStateAt(lines: seq<Line>): (i: int)
    ensures -1 <= i < |lines|
    ensures i >= 0 ==> IsState(lines[i].kind)
    ensures forall j :: i < j < |lines| ==> !IsState(lines[j].kind)
  {
    if lines == [] then -1
    else if IsState(lines[|lines| - 1].kind) then |lines| - 1
    else LastStateAt(lines[..|lines| - 1])
  }

  function LastState(lines: seq<Line>): Option<Kind>
  {
    var i := LastStateAt(lines);
    if i < 0 then None else Some(lines[i].kind)
  }

  function Safe(earlier: Str -> Str, detail: Option<Str>): Option<Str>
  {
    if detail.None? || detail.value == [] then None else Some(Redact(earlier, detail.value))
  }

  /** A line repeats when its kind and detail are those of the newest line. */
  predicate Repeats(lines: seq<Line>, kind: Kind, safe: Option<Str>)
  {
    lines != [] && lines[|lines| - 1].kind == kind && lines[|lines| - 1].detail == safe
  }

  function Bump(lines: seq<Line>, now: int): seq<Line>
    requires lines != []
  {
    var last := lines[|lines| - 1];
    lines[..|lines| - 1] + [last.(count := last.count + 1, lastAt := now)]
  }

  /** Evict from the front until the lines fit. */
  function Fit(log: Log): Log
  {
    var over := |log.kept| - LIMIT;
    if over <= 0 then log else log.(gone := log.gone + log.kept[..over], kept := log.kept[over..])
  }

  function Append(log: Log, kind: Kind, safe: Option<Str>, now: int): Log
  {
    var shown := if safe.Some? && safe.value != [] then safe else None;
    Fit(log.(kept := log.kept + [Line(|log.All()| + 1, now, now, 1, kind, shown)]))
  }

  function Note(log: Log, kind: Kind, safe: Option<Str>, now: int): Log
  {
    if IsState(kind) && LastState(log.kept) == Some(kind) then log.(dropped := log.dropped + 1)
    else if Repeats(log.kept, kind, safe) then log.(kept := Bump(log.kept, now))
    else Append(log, kind, safe, now)
  }

  function Cleared(log: Log): Log { log.(gone := log.gone + log.kept, kept := []) }

  // --- the invariant --------------------------------------------------------------------------------

  function Sum(lines: seq<Line>): nat
  {
    if lines == [] then 0 else Sum(lines[..|lines| - 1]) + lines[|lines| - 1].count
  }

  predicate SameText(a: Line, b: Line) { a.kind == b.kind && a.detail == b.detail }

  /** Every line is numbered by its place among all lines ever written. */
  ghost predicate Numbered(lines: seq<Line>)
  {
    forall i :: 0 <= i < |lines| ==> lines[i].number == i + 1
  }

  ghost predicate NoNeighbours(lines: seq<Line>)
  {
    forall i :: 0 < i < |lines| ==> !SameText(lines[i - 1], lines[i])
  }

  ghost predicate QuietBetween(lines: seq<Line>, i: int, j: int)
    requires 0 <= i <= j <= |lines|
  {
    forall m :: i < m < j ==> !IsState(lines[m].kind)
  }

  /** Two connection states with no other between them differ. */
  ghost predicate StatesChange(lines: seq<Line>)
  {
    forall i, j | 0 <= i < j < |lines| && IsState(lines[i].kind) && IsState(lines[j].kind) && QuietBetween(lines, i, j)
      :: lines[i].kind != lines[j].kind
  }

  predicate GoodLine(l: Line)
  {
    && l.count >= 1
    && (l.count == 1 ==> l.lastAt == l.at)
    && (l.count > 1 ==> !IsState(l.kind))
    && (l.detail.Some? ==> l.detail.value != [] && |l.detail.value| <= DETAIL_LIMIT + 1 && !Credential(l.detail.value))
  }

  ghost predicate AllGood(lines: seq<Line>)
  {
    forall i :: 0 <= i < |lines| ==> GoodLine(lines[i])
  }

  ghost predicate Inv(log: Log)
  {
    && |log.kept| <= LIMIT
    && Numbered(log.All())
    && NoNeighbours(log.kept)
    && StatesChange(log.kept)
    && AllGood(log.All())
  }

  lemma DropFrontKeeps(lines: seq<Line>, n: nat)
    requires n <= |lines| && NoNeighbours(lines) && StatesChange(lines)
    ensures NoNeighbours(lines[n..]) && StatesChange(lines[n..])
  {
    var rest := lines[n..];
    forall i, j | 0 <= i < j < |rest| && IsState(rest[i].kind) && IsState(rest[j].kind) && QuietBetween(rest, i, j)
      ensures rest[i].kind != rest[j].kind
    {
      forall m | n + i < m < n + j ensures !IsState(lines[m].kind) {
        assert lines[m] == rest[m - n];
      }
      assert QuietBetween(lines, n + i, n + j);
    }
  }

  lemma AppendChanges(lines: seq<Line>, l: Line)
    requires StatesChange(lines) && (IsState(l.kind) ==> LastState(lines) != Some(l.kind))
    ensures StatesChange(lines + [l])
  {
    var more := lines + [l];
    forall i, j | 0 <= i < j < |more| && IsState(more[i].kind) && IsState(more[j].kind) && QuietBetween(more, i, j)
      ensures more[i].kind != more[j].kind
    {
      if j < |lines| {
        forall m | i < m < j ensures !IsState(lines[m].kind) {
          assert lines[m] == more[m];
        }
        assert QuietBetween(lines, i, j);
      } else {
        var s := LastStateAt(lines);
        assert i <= s && more[i] == lines[i];
        assert s <= i by {
          assert 0 <= s < |lines| && IsState(more[s].kind);
        }
      }
    }
  }

  lemma BumpKeepsTexts(lines: seq<Line>, now: int)
    requires lines != [] && NoNeighbours(lines) && StatesChange(lines)
    ensures NoNeighbours(Bump(lines, now)) && StatesChange(Bump(lines, now))
    ensures Sum(Bump(lines, now)) == Sum(lines) + 1
  {
    var more := Bump(lines, now);
    assert forall i :: 0 <= i < |lines| ==> SameText(lines[i], more[i]);
    forall i, j | 0 <= i < j < |more| && IsState(more[i].kind) && IsState(more[j].kind) && QuietBetween(more, i, j)
      ensures more[i].kind != more[j].kind
    {
      forall m | i < m < j ensures !IsState(lines[m].kind) {
        assert SameText(lines[m], more[m]);
      }
      assert QuietBetween(lines, i, j);
    }
    assert more[..|more| - 1] == lines[..|lines| - 1];
  }

  lemma {:induction false} SumJoins(a: seq<Line>, b: seq<Line>)
    ensures Sum(a + b) == Sum(a) + Sum(b)
    decreases |b|
  {
    if b == [] {
      assert a + b == a;
    } else {
      assert (a + b)[..|a + b| - 1] == a + b[..|b| - 1];
      SumJoins(a, b[..|b| - 1]);
    }
  }

  lemma FitKeepsAll(log: Log)
    ensures Fit(log).All() == log.All() && |Fit(log).kept| <= LIMIT && Fit(log).dropped == log.dropped
    ensures NoNeighbours(log.kept) && StatesChange(log.kept) ==>
      NoNeighbours(Fit(log).kept) && StatesChange(Fit(log).kept)
  {
    var over := |log.kept| - LIMIT;
    if over > 0 {
      assert log.kept == log.kept[..over] + log.kept[over..];
      assert Fit(log).All() == log.All();
      if NoNeighbours(log.kept) && StatesChange(log.kept) {
        DropFrontKeeps(log.kept, over);
      }
    }
  }

  /** What a safe detail is: never empty, short, and never shaped like a credential. */
  predicate SafeDetail(safe: Option<Str>)
  {
    safe.Some? ==> safe.value != [] && |safe.value| <= DETAIL_LIMIT + 1 && !Credential(safe.value)
  }

  lemma AppendAll(log: Log, kind: Kind, safe: Option<Str>, now: int)
    requires SafeDetail(safe)
    ensures Append(log, kind, safe, now).All() == log.All() + [Line(|log.All()| + 1, now, now, 1, kind, safe)]
    ensures Sum(Append(log, kind, safe, now).All()) == Sum(log.All()) + 1
  {
    var l := Line(|log.All()| + 1, now, now, 1, kind, safe);
    var wide := log.(kept := log.kept + [l]);
    FitKeepsAll(wide);
    assert wide.All() == log.All() + [l];
    assert (log.All() + [l])[..|log.All()|] == log.All();
  }

  lemma AppendNoNeighbours(lines: seq<Line>, l: Line)
    requires NoNeighbours(lines) && (lines != [] ==> !SameText(lines[|lines| - 1], l))
    ensures NoNeighbours(lines + [l])
  {
  }

  lemma AppendKept(log: Log, kind: Kind, safe: Option<Str>, now: int)
    requires NoNeighbours(log.kept) && StatesChange(log.kept) && SafeDetail(safe) && !Repeats(log.kept, kind, safe)
    requires IsState(kind) ==> LastState(log.kept) != Some(kind)
    ensures NoNeighbours(Append(log, kind, safe, now).kept) && StatesChange(Append(log, kind, safe, now).kept)
    ensures |Append(log, kind, safe, now).kept| <= LIMIT
  {
    var l := Line(|log.All()| + 1, now, now, 1, kind, safe);
    var wide := log.(kept := log.kept + [l]);
    assert Append(log, kind, safe, now) == Fit(wide);
    AppendChanges(log.kept, l);
    AppendNoNeighbours(log.kept, l);
    FitKeepsAll(wide);
  }

  lemma AppendKeeps(log: Log, kind: Kind, safe: Option<Str>, now: int)
    requires Inv(log) && SafeDetail(safe) && !Repeats(log.kept, kind, safe)
    requires IsState(kind) ==> LastState(log.kept) != Some(kind)
    ensures Inv(Append(log, kind, safe, now))
  {
    var l := Line(|log.All()| + 1, now, now, 1, kind, safe);
    AppendAll(log, kind, safe, now);
    AppendKept(log, kind, safe, now);
    OneMoreLine(log.All(), l);
  }

  lemma OneMoreLine(lines: seq<Line>, l: Line)
    requires Numbered(lines) && AllGood(lines) && l.number == |lines| + 1 && GoodLine(l)
    ensures Numbered(lines + [l]) && AllGood(lines + [l])
  {
  }

  lemma BumpAll(log: Log, now: int)
    requires log.kept != [] && Numbered(log.All()) && AllGood(log.All())
    requires !IsState(log.kept[|log.kept| - 1].kind)
    ensures
      var after := log.(kept := Bump(log.kept, now));
      Numbered(after.All()) && AllGood(after.All())
  {
    var n := |log.All()| - 1;
    var last := log.All()[n];
    assert log.(kept := Bump(log.kept, now)).All() == log.All()[..n] + [last.(count := last.count + 1, lastAt := now)];
  }

  lemma BumpKeeps(log: Log, kind: Kind, safe: Option<Str>, now: int)
    requires Inv(log) && Repeats(log.kept, kind, safe)
    requires IsState(kind) ==> LastState(log.kept) != Some(kind)
    ensures Inv(log.(kept := Bump(log.kept, now)))
    ensures Sum(log.(kept := Bump(log.kept, now)).All()) == Sum(log.All()) + 1
  {
    RepeatIsNoState(log.kept, kind, safe);
    BumpKeepsTexts(log.kept, now);
    BumpAll(log, now);
    SumJoins(log.gone, log.kept);
    SumJoins(log.gone, Bump(log.kept, now));
  }

  lemma RepeatIsNoState(lines: seq<Line>, kind: Kind, safe: Option<Str>)
    requires Repeats(lines, kind, safe)
    requires IsState(kind) ==> LastState(lines) != Some(kind)
    ensures !IsState(kind)
  {
    assert IsState(kind) ==> LastStateAt(lines) == |lines| - 1;
  }

  /** One call: the invariant is kept and the call is dropped or counted in exactly one line. */
  lemma NoteKeeps(log: Log, kind: Kind, safe: Option<Str>, now: int)
    requires Inv(log) && SafeDetail(safe)
    ensures Inv(Note(log, kind, safe, now))
    ensures
      var after := Note(log, kind, safe, now);
      after.dropped + Sum(after.All()) == log.dropped + Sum(log.All()) + 1
  {
    if IsState(kind) && LastState(log.kept) == Some(kind) {
    } else if Repeats(log.kept, kind, safe) {
      BumpKeeps(log, kind, safe, now);
    } else {
      AppendKeeps(log, kind, safe, now);
      AppendAll(log, kind, safe, now);
    }
  }

  /** The three ways the buffer can change, in the terms of `record`. */
  predicate Recorded(before: seq<Line>, size: nat, after: seq<Line>, kind: Kind, safe: Option<Str>, now: int)
  {
    if IsState(kind) && LastState(before) == Some(kind) then after == before
    else if Repeats(before, kind, safe) then
      var last := before[|before| - 1];
      after == before[|before| - 1 := last.(count := last.count + 1, lastAt := now)]
    else
      after == Evict(before + [Line(size + 1, now, now, 1, kind, safe)])
  }

  function Evict(lines: seq<Line>): seq<Line>
  {
    if |lines| > LIMIT then lines[|lines| - LIMIT..] else lines
  }

  /** Whether a call writes a line of its own. */
  predicate Writes(lines: seq<Line>, kind: Kind, safe: Option<Str>)
  {
    !(IsState(kind) && LastState(lines) == Some(kind)) && !Repeats(lines, kind, safe)
  }

  lemma NoteShape(log: Log, kind: Kind, safe: Option<Str>, now: int)
    requires SafeDetail(safe)
    ensures Recorded(log.kept, |log.All()|, Note(log, kind, safe, now).kept, kind, safe, now)
    ensures |Note(log, kind, safe, now).All()| == |log.All()| + if Writes(log.kept, kind, safe) then 1 else 0
  {
    if Writes(log.kept, kind, safe) {
      AppendAll(log, kind, safe, now);
      AppendShape(log, kind, safe, now);
    }
  }

  lemma AppendShape(log: Log, kind: Kind, safe: Option<Str>, now: int)
    requires SafeDetail(safe)
    ensures Append(log, kind, safe, now).kept == Evict(log.kept + [Line(|log.All()| + 1, now, now, 1, kind, safe)])
  {
    FitEvicts(log.(kept := log.kept + [Line(|log.All()| + 1, now, now, 1, kind, safe)]));
  }

  lemma FitEvicts(log: Log)
    ensures Fit(log).kept == Evict(log.kept)
  {
  }

  /** What `record` does to the buffer and the counter is what it does to the log. */
  lemma Follow(log: Log, buffer: seq<Line>, sequence: nat, kind: Kind, safe: Option<Str>, now: int)
    requires Inv(log) && SafeDetail(safe)
    requires Recorded(log.kept, |log.All()|, buffer, kind, safe, now)
    requires sequence == |log.All()| + if Writes(log.kept, kind, safe) then 1 else 0
    ensures
      var after := Note(log, kind, safe, now);
      Inv(after) && after.kept == buffer && sequence == |after.All()|
  {
    NoteKeeps(log, kind, safe, now);
    NoteShape(log, kind, safe, now);
  }

  lemma SafeIsSafe(earlier: Str -> Str, detail: Option<Str>)
    requires LeavesText(earlier)
    ensures SafeDetail(Safe(earlier, detail))
  {
    if detail.Some? && detail.value != [] {
      RedactedHasNoLongRun(earlier, detail.value);
      RedactedIsNeverACredential(earlier, detail.value, 0);
      RedactLeavesText(earlier, detail.value);
    }
  }

  // --- over whole histories -------------------------------------------------------------------------

  datatype Op = Called(kind: Kind, detail: Option<Str>, now: int) | Emptied

  function Apply(earlier: Str -> Str, ops: seq<Op>): Log
  {
    if ops == [] then FRESH
    else
      var before := Apply(earlier, ops[..|ops| - 1]);
      match ops[|ops| - 1]
      case Called(kind, detail, now) => Note(before, kind, Safe(earlier, detail), now)
      case Emptied => Cleared(before)
  }

  function Calls(ops: seq<Op>): nat
  {
    if ops == [] then 0 else Calls(ops[..|ops| - 1]) + if ops[|ops| - 1].Called? then 1 else 0
  }

  /** The connection state the last call about it gave, since the log was last cleared. */
  function LastNoted(ops: seq<Op>): Option<Kind>
  {
    if ops == [] || ops[|ops| - 1].Emptied? then None
    else if IsState(ops[|ops| - 1].kind) then Some(ops[|ops| - 1].kind)
    else LastNoted(ops[..|ops| - 1])
  }

  /**
   * After any calls and clearings: the invariant, and every call is dropped or counted in exactly one line
   * that is shown, evicted or cleared.
   */
  lemma {:induction false} HistoryKeeps(earlier: Str -> Str, ops: seq<Op>)
    requires LeavesText(earlier)
    ensures Inv(Apply(earlier, ops))
    ensures Apply(earlier, ops).dropped + Sum(Apply(earlier, ops).All()) == Calls(ops)
    decreases |ops|
  {
    if ops != [] {
      var before, op := Apply(earlier, ops[..|ops| - 1]), ops[|ops| - 1];
      HistoryKeeps(earlier, ops[..|ops| - 1]);
      if op.Called? {
        SafeIsSafe(earlier, op.detail);
        NoteKeeps(before, op.kind, Safe(earlier, op.detail), op.now);
      } else {
        assert Cleared(before).All() == before.All();
      }
    }
  }

  /** What the log shows as the connection state, against the last state noted. */
  ghost predicate Shows(kept: seq<Line>, noted: Option<Kind>)
  {
    LastState(kept) == noted || (LastState(kept).None? && |kept| == LIMIT)
  }

  lemma LastStateOfAppend(lines: seq<Line>, l: Line)
    ensures LastState(lines + [l]) == if IsState(l.kind) then Some(l.kind) else LastState(lines)
  {
    assert (lines + [l])[..|lines|] == lines;
  }

  lemma {:induction false} LastStateOfSuffix(lines: seq<Line>, n: nat)
    requires n <= |lines|
    ensures LastState(lines[n..]) == LastState(lines) || LastState(lines[n..]).None?
    ensures n == 0 ==> LastState(lines[n..]) == LastState(lines)
  {
    var rest, at := lines[n..], LastStateAt(lines);
    if at >= n {
      assert rest[at - n] == lines[at];
      var found := LastStateAt(rest);
      assert found >= at - n;
      assert rest[found] == lines[n + found];
    } else {
      assert forall j :: 0 <= j < |rest| ==> rest[j] == lines[n + j];
    }
  }

  lemma WrittenShows(lines: seq<Line>, l: Line, noted: Option<Kind>)
    requires |lines| <= LIMIT && Shows(lines, noted)
    ensures
      var more := lines + [l];
      Shows(if |more| > LIMIT then more[|more| - LIMIT..] else more, if IsState(l.kind) then Some(l.kind) else noted)
  {
    var more := lines + [l];
    LastStateOfAppend(lines, l);
    if |more| > LIMIT {
      assert more[1..] == lines[1..] + [l];
      LastStateOfSuffix(lines, 1);
      LastStateOfAppend(lines[1..], l);
    }
  }

  lemma BumpShows(lines: seq<Line>, now: int)
    requires lines != [] && !IsState(lines[|lines| - 1].kind)
    ensures LastState(Bump(lines, now)) == LastState(lines)
  {
    var n := |lines| - 1;
    LastStateOfAppend(lines[..n], lines[n]);
    LastStateOfAppend(lines[..n], Bump(lines, now)[n]);
    assert lines == lines[..n] + [lines[n]];
  }

  lemma NoteShows(
    before: seq<Line>, size: nat, after: seq<Line>, kind: Kind, safe: Option<Str>, now: int, noted: Option<Kind>
  )
    requires Recorded(before, size, after, kind, safe, now) && |before| <= LIMIT && Shows(before, noted)
    ensures Shows(after, if IsState(kind) then Some(kind) else noted)
  {
    if IsState(kind) && LastState(before) == Some(kind) {
    } else if Repeats(before, kind, safe) {
      RepeatIsNoState(before, kind, safe);
      BumpShows(before, now);
      assert after == Bump(before, now);
    } else {
      WrittenShows(before, Line(size + 1, now, now, 1, kind, safe), noted);
    }
  }

  /**
   * The state the log shows is the last one noted, or there is none left to show: that can only be when
   * the log is full and has evicted it.
   */
  lemma {:induction false} ShowsTheLastState(earlier: Str -> Str, ops: seq<Op>)
    requires LeavesText(earlier)
    ensures Shows(Apply(earlier, ops).kept, LastNoted(ops))
    decreases |ops|
  {
    if ops != [] {
      var before, op := Apply(earlier, ops[..|ops| - 1]), ops[|ops| - 1];
      ShowsTheLastState(earlier, ops[..|ops| - 1]);
      if op.Called? {
        HistoryKeeps(earlier, ops[..|ops| - 1]);
        SafeIsSafe(earlier, op.detail);
        var safe, after := Safe(earlier, op.detail), Apply(earlier, ops);
        NoteShape(before, op.kind, safe, op.now);
        NoteShows(before.kept, |before.All()|, after.kept, op.kind, safe, op.now, LastNoted(ops[..|ops| - 1]));
      }
    }
  }

  /** A connection that has not changed is dropped exactly while a line about it is still shown. */
  lemma UnchangedIsDroppedExactlyWhen(earlier: Str -> Str, ops: seq<Op>, kind: Kind, detail: Option<Str>, now: int)
    requires LeavesText(earlier) && LastNoted(ops) == Some(kind) && IsState(kind)
    ensures
      var before, after := Apply(earlier, ops), Apply(earlier, ops + [Called(kind, detail, now)]);
      && (LastState(before.kept).Some? <==> after == before.(dropped := before.dropped + 1))
      && (LastState(before.kept).None? <==> |after.All()| == |before.All()| + 1 && after.dropped == before.dropped)
  {
    ShowsTheLastState(earlier, ops);
    HistoryKeeps(earlier, ops);
    SafeIsSafe(earlier, detail);
    var before := Apply(earlier, ops);
    assert (ops + [Called(kind, detail, now)])[..|ops|] == ops;
    NoteShape(before, kind, Safe(earlier, detail), now);
    assert Repeats(before.kept, kind, Safe(earlier, detail)) ==> LastStateAt(before.kept) == |before.kept| - 1;
  }

  // A device that stays connected through more activity than the log holds.

  function Beat(n: nat): Kind { if n % 2 == 0 then ProgressSent else RosterSynced }

  function Busy(n: nat): seq<Op>
  {
    if n == 0 then [Called(Connected, None, 0)] else Busy(n - 1) + [Called(Beat(n), None, 0)]
  }

  /** After n beats: the newest lines are the beats, in order, and as many lines are kept as can be. */
  predicate Beating(kept: seq<Line>, n: nat)
  {
    && |kept| == (if n < LIMIT then n + 1 else LIMIT)
    && forall i :: 0 <= i < |kept| && |kept| - i <= n ==> kept[i].kind == Beat(n + 1 + i - |kept|)
  }

  lemma BeatStep(before: seq<Line>, size: nat, after: seq<Line>, n: nat)
    requires Beating(before, n) && Recorded(before, size, after, Beat(n + 1), None, 0)
    requires n == 0 ==> before[0].kind == Connected
    ensures Beating(after, n + 1)
  {
    assert before[|before| - 1].kind != Beat(n + 1);
    var l := Line(size + 1, 0, 0, 1, Beat(n + 1), None);
    if n + 1 < LIMIT {
      assert after == before + [l];
    } else {
      assert after == (before + [l])[1..];
    }
  }

  lemma BusyStarts(earlier: Str -> Str)
    ensures Apply(earlier, Busy(0)).kept == [Line(1, 0, 0, 1, Connected, None)]
  {
    assert Busy(0)[..0] == [];
  }

  lemma BusyUnfolds(earlier: Str -> Str, n: nat)
    requires n > 0
    ensures
      var before := Apply(earlier, Busy(n - 1));
      Recorded(before.kept, |before.All()|, Apply(earlier, Busy(n)).kept, Beat(n), None, 0)
  {
    var before := Apply(earlier, Busy(n - 1));
    assert Busy(n)[..|Busy(n)| - 1] == Busy(n - 1);
    assert Apply(earlier, Busy(n)) == Note(before, Beat(n), None, 0);
    NoteShape(before, Beat(n), None, 0);
  }

  lemma {:induction false} StillConnected(n: nat)
    ensures LastNoted(Busy(n)) == Some(Connected)
  {
    if n > 0 {
      StillConnected(n - 1);
      assert Busy(n)[..|Busy(n)| - 1] == Busy(n - 1);
    }
  }

  lemma BusyStep(earlier: Str -> Str, n: nat)
    requires n > 0 && Beating(Apply(earlier, Busy(n - 1)).kept, n - 1)
    requires Apply(earlier, Busy(0)).kept == [Line(1, 0, 0, 1, Connected, None)]
    ensures Beating(Apply(earlier, Busy(n)).kept, n)
  {
    BusyUnfolds(earlier, n);
    var before, after := Apply(earlier, Busy(n - 1)), Apply(earlier, Busy(n));
    var kept, size, more := before.kept, |before.All()|, after.kept;
    BeatStep(kept, size, more, n - 1);
  }

  lemma {:induction false} BusyFills(earlier: Str -> Str, n: nat)
    ensures Beating(Apply(earlier, Busy(n)).kept, n)
  {
    BusyStarts(earlier);
    if n > 0 {
      BusyFills(earlier, n - 1);
      BusyStep(earlier, n);
    }
  }

  /** So one state can fill two lines: once 240 others have come its own is gone, and the next poll writes it again. */
  lemma UnchangedCanBeWrittenTwice(earlier: Str -> Str, n: nat)
    requires n >= LIMIT
    ensures LastNoted(Busy(n)) == Some(Connected)
    ensures LastState(Apply(earlier, Busy(n)).kept).None?
  {
    StillConnected(n);
    BusyFills(earlier, n);
    BeatsShowNoState(Apply(earlier, Busy(n)).kept, n);
  }

  lemma BeatsShowNoState(kept: seq<Line>, n: nat)
    requires n >= LIMIT && Beating(kept, n)
    ensures LastState(kept).None?
  {
    forall i | 0 <= i < |kept| ensures !IsState(kept[i].kind) {
      assert kept[i].kind == Beat(n + 1 + i - |kept|);
    }
  }

  // --- what the lines tell --------------------------------------------------------------------------

  function Times(kind: Kind, detail: Option<Str>, n: nat): seq<(Kind, Option<Str>)> { seq(n, i => (kind, detail)) }

  /** What some lines stand for, in order and once for each time it was counted. */
  function Told(lines: seq<Line>): seq<(Kind, Option<Str>)>
  {
    if lines == [] then []
    else
      var last := lines[|lines| - 1];
      Told(lines[..|lines| - 1]) + Times(last.kind, last.detail, last.count)
  }

  /** The calls of a history that a line was due to: all but those about the state last shown. */
  function Due(earlier: Str -> Str, ops: seq<Op>): seq<(Kind, Option<Str>)>
  {
    if ops == [] then []
    else
      var n := |ops| - 1;
      Due(earlier, ops[..n])
      + match ops[n]
        case Called(kind, detail, _) =>
          if IsState(kind) && LastState(Apply(earlier, ops[..n]).kept) == Some(kind) then []
          else [(kind, if detail.Some? && |detail.value| > 0 then Some(Redact(earlier, detail.value)) else None)]
        case Emptied => []
  }

  lemma ToldOneMore(lines: seq<Line>, l: Line)
    ensures Told(lines + [l]) == Told(lines) + Times(l.kind, l.detail, l.count)
  {
    assert (lines + [l])[..|lines|] == lines;
  }

  lemma OnceMore(before: seq<(Kind, Option<Str>)>, kind: Kind, detail: Option<Str>, n: nat)
    ensures before + Times(kind, detail, n + 1) == (before + Times(kind, detail, n)) + [(kind, detail)]
    ensures before + Times(kind, detail, 1) == before + [(kind, detail)]
  {
  }

  lemma BumpedAll(log: Log, now: int)
    requires log.kept != []
    ensures
      var n := |log.All()| - 1;
      var last := log.All()[n];
      && log.All() == log.All()[..n] + [last] && last == log.kept[|log.kept| - 1]
      && log.(kept := Bump(log.kept, now)).All() == log.All()[..n] + [last.(count := last.count + 1, lastAt := now)]
  {
  }

  lemma NoteTells(log: Log, kind: Kind, safe: Option<Str>, now: int)
    requires SafeDetail(safe)
    ensures Told(Note(log, kind, safe, now).All()) == Told(log.All()) +
      if IsState(kind) && LastState(log.kept) == Some(kind) then [] else [(kind, safe)]
  {
    if IsState(kind) && LastState(log.kept) == Some(kind) {
    } else if Repeats(log.kept, kind, safe) {
      BumpTells(log, kind, safe, now);
    } else {
      AppendAll(log, kind, safe, now);
      ToldOneMore(log.All(), Line(|log.All()| + 1, now, now, 1, kind, safe));
      OnceMore(Told(log.All()), kind, safe, 0);
    }
  }

  lemma BumpTells(log: Log, kind: Kind, safe: Option<Str>, now: int)
    requires Repeats(log.kept, kind, safe)
    ensures Told(log.(kept := Bump(log.kept, now)).All()) == Told(log.All()) + [(kind, safe)]
  {
    BumpedAll(log, now);
    var n := |log.All()| - 1;
    var last := log.All()[n];
    ToldOneMore(log.All()[..n], last);
    ToldOneMore(log.All()[..n], last.(count := last.count + 1, lastAt := now));
    OnceMore(Told(log.All()[..n]), kind, safe, last.count);
  }

  /** The lines ever written tell every call a line was due to, in order, with its kind and its safe detail. */
  lemma {:induction false} LinesTellTheCalls(earlier: Str -> Str, ops: seq<Op>)
    requires LeavesText(earlier)
    ensures Told(Apply(earlier, ops).All()) == Due(earlier, ops)
    decreases |ops|
  {
    if ops != [] {
      var before, op := Apply(earlier, ops[..|ops| - 1]), ops[|ops| - 1];
      LinesTellTheCalls(earlier, ops[..|ops| - 1]);
      if op.Called? {
        SafeIsSafe(earlier, op.detail);
        NoteTells(before, op.kind, Safe(earlier, op.detail), op.now);
      } else {
        assert Cleared(before).All() == before.All();
      }
    }
  }

  /** A call loses a line only when 240 are shown, and then the oldest one. */
  lemma OldestGoesWhenFull(log: Log, kind: Kind, safe: Option<Str>, now: int)
    requires Inv(log)
    ensures
      var after := Note(log, kind, safe, now);
      after.gone == log.gone
      || (|log.kept| == 240 && |after.kept| == 240 && after.gone == log.gone + [log.kept[0]])
  {
    if !(IsState(kind) && LastState(log.kept) == Some(kind)) && !Repeats(log.kept, kind, safe) {
      AppendGone(log, kind, safe, now);
    }
  }

  lemma AppendGone(log: Log, kind: Kind, safe: Option<Str>, now: int)
    requires |log.kept| <= LIMIT
    ensures
      var after := Append(log, kind, safe, now);
      if |log.kept| < 240 then after.gone == log.gone
      else |after.kept| == 240 && after.gone == log.gone + [log.kept[0]]
  {
  }

  // --- the class ------------------------------------------------------------------------------------

  class ConnectionTimeline {
    var buffer: seq<Line>
    var sequence: nat
    const earlier: Str -> Str
    ghost var log: Log

    ghost predicate Valid()
      reads this
    {
      LeavesText(earlier) && log.kept == buffer && sequence == |log.All()| && Inv(log)
    }

    constructor (earlier: Str -> Str)
      requires LeavesText(earlier)
      ensures Valid() && log == FRESH && this.earlier == earlier
    {
      buffer, sequence, log := [], 0, FRESH;
      this.earlier := earlier;
    }

    method FindLastState() returns (kind: Option<Kind>)
      ensures kind == LastState(buffer)
    {
      for i := |buffer| downto 0
        invariant LastState(buffer[..i]) == LastState(buffer)
      {
        assert buffer[..i + 1][..i] == buffer[..i];
        if IsState(buffer[i].kind) {
          return Some(buffer[i].kind);
        }
      }
      return None;
    }

    method Record(kind: Kind, detail: Option<Str>, now: int)
      requires Valid()
      modifies this
      ensures Valid() && log == Note(old(log), kind, Safe(earlier, detail), now)
    {
      var safe := Safe(earlier, detail);
      SafeIsSafe(earlier, detail);
      RecordSafe(kind, safe, now);
      Follow(log, buffer, sequence, kind, safe, now);
      log := Note(log, kind, safe, now);
    }

    /** The rest of `record`, once the detail is safe. */
    method RecordSafe(kind: Kind, safe: Option<Str>, now: int)
      requires SafeDetail(safe)
      modifies `buffer, `sequence
      ensures Recorded(old(buffer), old(sequence), buffer, kind, safe, now)
      ensures sequence == old(sequence) + if Writes(old(buffer), kind, safe) then 1 else 0
    {
      if IsState(kind) {
        var state := FindLastState();
        if state == Some(kind) {
          return;
        }
      }
      if buffer != [] {
        var last := buffer[|buffer| - 1];
        if last.kind == kind && last.detail == safe {
          buffer := buffer[|buffer| - 1 := last.(count := last.count + 1, lastAt := now)];
          return;
        }
      }
      WriteLine(kind, safe, now);
    }

    method WriteLine(kind: Kind, safe: Option<Str>, now: int)
      requires SafeDetail(safe)
      modifies `buffer, `sequence
      ensures sequence == old(sequence) + 1
      ensures buffer == Evict(old(buffer) + [Line(old(sequence) + 1, now, now, 1, kind, safe)])
    {
      sequence := sequence + 1;
      buffer := buffer + [Line(sequence, now, now, 1, kind, if safe.Some? && safe.value != [] then safe else None)];
      if |buffer| > LIMIT {
        buffer := buffer[|buffer| - LIMIT..];
      }
    }

    method Entries() returns (lines: seq<Line>)
      requires Valid()
      ensures lines == log.kept
    {
      lines := buffer;
    }

    method Clear()
      requires Valid()
      modifies this
      ensures Valid() && log == Cleared(old(log))
    {
      log := Cleared(log);
      assert log.All() == old(log).All();
      buffer := [];
    }
  }
}

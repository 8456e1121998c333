// The error log (src/app/ErrorLog.ts): the newest fifty lines of the run-length encoding of every error
// recorded since the log was cleared.
module ErrorLog {
  import opened Text
  import opened Redaction

  datatype Source = Uncaught | UnhandledRejection | Render | RejectedOperation

  /** What makes two errors the same: who reported them, the redacted message and the redacted place. */
  datatype Problem = Problem(source: Source, message: Str, place: Option<Str>)

  datatype Entry = Entry(number: nat, at: int, count: nat, problem: Problem)

  datatype Call = Call(problem: Problem, at: int)

  const LOG_LIMIT := 50
  const MESSAGE_LIMIT := 300

  /** One call added to a run-length encoding whose first entry is numbered one above `start`. */
  function Add(start: nat, entries: seq<Entry>, c: Call): seq<Entry>
  {
    var n := |entries| - 1;
    if n >= 0 && entries[n].problem == c.problem then
      entries[..n] + [entries[n].(count := entries[n].count + 1, at := c.at)]
    else
      entries + [Entry(start + |entries| + 1, c.at, 1, c.problem)]
  }

  function Encode(start: nat, calls: seq<Call>): seq<Entry>
  {
    if calls == [] then [] else Add(start, Encode(start, calls[..|calls| - 1]), calls[|calls| - 1])
  }

  /** `kept` is what fits of everything: entries have gone only if fifty are kept. */
  ghost predicate Fits(gone: seq<Entry>, kept: seq<Entry>)
  {
    |kept| <= 50 && (gone != [] ==> |kept| == 50)
  }

  /** The newest fifty entries, all of them while there are no more. */
  ghost predicate IsNewest(kept: seq<Entry>, entries: seq<Entry>)
  {
    exists gone :: entries == gone + kept && Fits(gone, kept)
  }

  function Repeat(p: Problem, n: nat): seq<Problem> { seq(n, i => p) }

  /** The problems an encoding stands for, in order and one for each occurrence. */
  function Decode(entries: seq<Entry>): seq<Problem>
  {
    if entries == [] then []
    else Decode(entries[..|entries| - 1]) + Repeat(entries[|entries| - 1].problem, entries[|entries| - 1].count)
  }

  function Problems(calls: seq<Call>): seq<Problem> { seq(|calls|, i requires 0 <= i < |calls| => calls[i].problem) }

  /** Numbered in order from `start`, each counting something, no two neighbours the same problem. */
  ghost predicate Encoding(start: nat, entries: seq<Entry>)
  {
    && (forall i :: 0 <= i < |entries| ==> entries[i].number == start + i + 1 && entries[i].count >= 1)
    && (forall i :: 0 < i < |entries| ==> entries[i - 1].problem != entries[i].problem)
  }

  lemma {:induction false} DecodeJoins(a: seq<Entry>, b: seq<Entry>)
    ensures Decode(a + b) == Decode(a) + Decode(b)
    decreases |b|
  {
    if b == [] {
      assert a + b == a;
    } else {
      var n := |b| - 1;
      DecodeJoins(a, b[..n]);
      assert (a + b)[..|a + b| - 1] == a + b[..n];
      assert Decode(a + b) == (Decode(a) + Decode(b[..n])) + Repeat(b[n].problem, b[n].count);
    }
  }

  lemma AddDecodes(start: nat, entries: seq<Entry>, c: Call)
    requires Encoding(start, entries)
    ensures Encoding(start, Add(start, entries, c))
    ensures Decode(Add(start, entries, c)) == Decode(entries) + [c.problem]
    ensures Add(start, entries, c) != [] && Add(start, entries, c)[|Add(start, entries, c)| - 1].at == c.at
  {
    AddEncodes(start, entries, c);
    AddedDecodes(start, entries, c);
  }

  lemma AddEncodes(start: nat, entries: seq<Entry>, c: Call)
    requires Encoding(start, entries)
    ensures Encoding(start, Add(start, entries, c))
    ensures Add(start, entries, c) != [] && Add(start, entries, c)[|Add(start, entries, c)| - 1].at == c.at
  {
    if Writes(entries, c.problem) {
      OneMoreEncodes(start, entries, Entry(start + |entries| + 1, c.at, 1, c.problem));
    } else {
      CountingEncodes(start, entries, c.at);
    }
    AddShape(start, entries, c);
  }

  lemma OneMoreEncodes(start: nat, entries: seq<Entry>, e: Entry)
    requires Encoding(start, entries) && Writes(entries, e.problem)
    requires e.number == start + |entries| + 1 && e.count >= 1
    ensures Encoding(start, entries + [e])
  {
  }

  lemma CountingEncodes(start: nat, entries: seq<Entry>, at: int)
    requires Encoding(start, entries) && entries != []
    ensures Encoding(start, Counting(entries, at))
  {
    var after := Counting(entries, at);
    assert forall i :: 0 <= i < |entries| ==> after[i].problem == entries[i].problem;
  }

  lemma AddedDecodes(start: nat, entries: seq<Entry>, c: Call)
    ensures Decode(Add(start, entries, c)) == Decode(entries) + [c.problem]
  {
    if Writes(entries, c.problem) {
      DecodeOneMore(entries, Entry(start + |entries| + 1, c.at, 1, c.problem));
      assert Repeat(c.problem, 1) == [c.problem];
    } else {
      var front, last := entries[..|entries| - 1], entries[|entries| - 1];
      assert entries == front + [last];
      DecodeOneMore(front, last);
      DecodeOneMore(front, last.(count := last.count + 1, at := c.at));
      RepeatOnceMore(Decode(front), c.problem, last.count);
    }
  }

  lemma DecodeOneMore(front: seq<Entry>, last: Entry)
    ensures Decode(front + [last]) == Decode(front) + Repeat(last.problem, last.count)
  {
    assert (front + [last])[..|front|] == front;
  }

  lemma RepeatOnceMore(before: seq<Problem>, p: Problem, n: nat)
    ensures before + Repeat(p, n + 1) == (before + Repeat(p, n)) + [p]
  {
  }

  /**
   * The encoding loses nothing: it stands for exactly the problems recorded, in order; its newest entry
   * carries the time of the newest call; and no encoding without repeated neighbours is shorter, because
   * there is only one (`EncodingIsUnique`).
   */
  lemma {:induction false} EncodeDecodes(start: nat, calls: seq<Call>)
    ensures Encoding(start, Encode(start, calls))
    ensures Decode(Encode(start, calls)) == Problems(calls)
    ensures calls != [] ==> Encode(start, calls) != []
    ensures calls != [] ==> Encode(start, calls)[|Encode(start, calls)| - 1].at == calls[|calls| - 1].at
    decreases |calls|
  {
    if calls != [] {
      var n := |calls| - 1;
      EncodeDecodes(start, calls[..n]);
      AddDecodes(start, Encode(start, calls[..n]), calls[n]);
      ProblemsOneMore(calls);
    }
  }

  lemma ProblemsOneMore(calls: seq<Call>)
    requires calls != []
    ensures Problems(calls) == Problems(calls[..|calls| - 1]) + [calls[|calls| - 1].problem]
  {
  }

  /** What an entry says apart from its time. */
  function Counted(entries: seq<Entry>): seq<(nat, nat, Problem)>
  {
    seq(|entries|, i requires 0 <= i < |entries| => (entries[i].number, entries[i].count, entries[i].problem))
  }

  lemma DecodeLast(entries: seq<Entry>, p: Problem, n: nat)
    requires entries != [] && entries[|entries| - 1].problem == p && entries[|entries| - 1].count == n
    ensures
      var d := Decode(entries);
      && n <= |d| && d[..|d| - n] == Decode(entries[..|entries| - 1])
      && forall j :: |d| - n <= j < |d| ==> d[j] == p
  {
  }

  /** In an encoding, the run decoded last cannot be extended to the left. */
  lemma LastRunIsMaximal(start: nat, entries: seq<Entry>)
    requires Encoding(start, entries) && |entries| > 1
    ensures
      var d, last := Decode(entries), entries[|entries| - 1];
      |d| > last.count && d[|d| - last.count - 1] != last.problem
  {
    var n := |entries| - 1;
    DecodeLast(entries, entries[n].problem, entries[n].count);
    DecodeLast(entries[..n], entries[n - 1].problem, entries[n - 1].count);
  }

  lemma SameLastRun(start: nat, a: seq<Entry>, b: seq<Entry>)
    requires Encoding(start, a) && Encoding(start, b) && a != [] && b != [] && Decode(a) == Decode(b)
    ensures a[|a| - 1].problem == b[|b| - 1].problem && a[|a| - 1].count <= b[|b| - 1].count
  {
    var x, y := a[|a| - 1], b[|b| - 1];
    DecodeLast(a, x.problem, x.count);
    DecodeLast(b, y.problem, y.count);
    var d := Decode(a);
    assert d[|d| - 1] == x.problem == y.problem;
    if |b| > 1 {
      LastRunIsMaximal(start, b);
    }
    assert b[..|b| - 1] == [] ==> Decode(b[..|b| - 1]) == [];
  }

  lemma {:induction false} EncodingIsUnique(start: nat, a: seq<Entry>, b: seq<Entry>)
    requires Encoding(start, a) && Encoding(start, b) && Decode(a) == Decode(b)
    ensures Counted(a) == Counted(b)
    decreases |a|
  {
    if a == [] || b == [] {
      EmptyDecode(start, a);
      EmptyDecode(start, b);
    } else {
      var m, n := |a| - 1, |b| - 1;
      SameLastRun(start, a, b);
      SameLastRun(start, b, a);
      DecodeLast(a, a[m].problem, a[m].count);
      DecodeLast(b, b[n].problem, b[n].count);
      EncodingIsUnique(start, a[..m], b[..n]);
      assert |Counted(a[..m])| == m && |Counted(b[..n])| == n;
      forall i | 0 <= i < m ensures Counted(a)[i] == Counted(b)[i] {
        assert Counted(a[..m])[i] == Counted(b[..n])[i];
      }
    }
  }

  lemma EmptyDecode(start: nat, entries: seq<Entry>)
    requires Encoding(start, entries)
    ensures Decode(entries) == [] <==> entries == []
  {
  }

  ghost predicate IsSuffix(a: seq<Problem>, b: seq<Problem>) { exists front :: b == front + a }

  lemma EncodedProblems(start: nat, calls: seq<Call>)
    ensures Decode(Encode(start, calls)) == Problems(calls)
  {
    EncodeDecodes(start, calls);
  }

  /** What is still shown stands for the newest problems recorded, a whole number of runs of them. */
  lemma NewestDecodes(start: nat, calls: seq<Call>, kept: seq<Entry>)
    requires IsNewest(kept, Encode(start, calls))
    ensures IsSuffix(Decode(kept), Problems(calls))
    ensures |Encode(start, calls)| <= LOG_LIMIT ==> Decode(kept) == Problems(calls)
  {
    var gone :| Encode(start, calls) == gone + kept && Fits(gone, kept);
    EncodedProblems(start, calls);
    DecodeJoins(gone, kept);
    assert Problems(calls) == Decode(gone) + Decode(kept);
    assert gone == [] ==> gone + kept == kept;
  }

  // --- the class ------------------------------------------------------------------------------------

  function Cut(s: Str): Str { if |s| > MESSAGE_LIMIT then s[..MESSAGE_LIMIT] else s }

  function Described(earlier: Str -> Str, source: Source, thrown: Str, place: Option<Str>): Problem
  {
    Problem(source, Redact(earlier, thrown),
            if place.None? || place.value == [] then None else Some(Redact(earlier, place.value)))
  }

  /** The log's own cut of a redacted message never removes anything. */
  lemma CutNeverBites(earlier: Str -> Str, thrown: Str)
    ensures Cut(Redact(earlier, thrown)) == Redact(earlier, thrown)
  {
    RedactedHasNoLongRun(earlier, thrown);
  }

  lemma DescribedAs(earlier: Str -> Str, source: Source, thrown: Str, place: Option<Str>, problem: Problem)
    requires LeavesText(earlier) && problem.source == source && problem.message == Cut(Redact(earlier, thrown))
    requires problem.place == if place.None? || place.value == [] then None else Some(Redact(earlier, place.value))
    ensures problem == Described(earlier, source, thrown, place)
    ensures problem.place.Some? ==> problem.place.value != []
  {
    CutNeverBites(earlier, thrown);
    if problem.place.Some? {
      RedactLeavesText(earlier, place.value);
    }
  }

  /** The two ways the buffer can change, in the terms of `record`. */
  ghost predicate Recorded(before: seq<Entry>, sequence: nat, evicted: seq<Entry>, after: seq<Entry>, c: Call)
  {
    if Writes(before, c.problem)
    then before + [Entry(sequence + 1, c.at, 1, c.problem)] == evicted + after && Fits(evicted, after)
    else evicted == [] && after == Counting(before, c.at)
  }

  predicate Writes(entries: seq<Entry>, p: Problem)
  {
    entries == [] || entries[|entries| - 1].problem != p
  }

  /** The newest entry counts one more. */
  function Counting(entries: seq<Entry>, at: int): seq<Entry>
    requires entries != []
  {
    var n := |entries| - 1;
    entries[n := entries[n].(count := entries[n].count + 1, at := at)]
  }

  lemma JoinsInTwo(a: seq<Entry>, b: seq<Entry>, c: seq<Entry>)
    ensures (a + b) + c == a + (b + c)
  {
  }

  /** Evicting what no longer fits and then adding is adding and then evicting. */
  lemma EvictThenWrite(gone: seq<Entry>, kept: seq<Entry>, e: Entry, evicted: seq<Entry>, after: seq<Entry>)
    requires Fits(gone, kept) && kept + [e] == evicted + after && Fits(evicted, after)
    ensures (gone + kept) + [e] == (gone + evicted) + after && Fits(gone + evicted, after)
  {
    JoinsInTwo(gone, kept, [e]);
    JoinsInTwo(gone, evicted, after);
    assert |kept + [e]| == |evicted + after|;
  }

  lemma EvictThenCount(gone: seq<Entry>, kept: seq<Entry>, at: int)
    requires kept != []
    ensures Counting(gone + kept, at) == gone + Counting(kept, at)
  {
  }

  lemma SameLast(gone: seq<Entry>, kept: seq<Entry>, p: Problem)
    requires Fits(gone, kept)
    ensures Writes(kept, p) <==> Writes(gone + kept, p)
  {
  }

  lemma AddShape(start: nat, entries: seq<Entry>, c: Call)
    ensures Add(start, entries, c)
      == if Writes(entries, c.problem) then entries + [Entry(start + |entries| + 1, c.at, 1, c.problem)]
         else Counting(entries, c.at)
  {
  }

  lemma EncodeOneMore(start: nat, calls: seq<Call>, c: Call)
    ensures Encode(start, calls + [c]) == Add(start, Encode(start, calls), c)
  {
    assert (calls + [c])[..|calls|] == calls;
  }

  /** What is kept, and the counter, after the calls made since the log was cleared. */
  ghost predicate Tracks(start: nat, calls: seq<Call>, gone: seq<Entry>, kept: seq<Entry>, sequence: nat)
  {
    && Encode(start, calls) == gone + kept && Fits(gone, kept)
    && sequence == start + |gone + kept|
  }

  lemma Follow(
    start: nat, calls: seq<Call>, c: Call, gone: seq<Entry>, kept: seq<Entry>, count: nat, evicted: seq<Entry>,
    after: seq<Entry>, sequence: nat
  )
    requires Tracks(start, calls, gone, kept, count) && Recorded(kept, count, evicted, after, c)
    requires sequence == count + if Writes(kept, c.problem) then 1 else 0
    ensures Tracks(start, calls + [c], gone + evicted, after, sequence)
  {
    EncodeOneMore(start, calls, c);
    AddShape(start, gone + kept, c);
    SameLast(gone, kept, c.problem);
    if Writes(kept, c.problem) {
      EvictThenWrite(gone, kept, Entry(count + 1, c.at, 1, c.problem), evicted, after);
    } else {
      EvictThenCount(gone, kept, c.at);
    }
  }

  class ErrorLog {
    var buffer: seq<Entry>
    var sequence: nat
    const earlier: Str -> Str
    /** Every call since the log was cleared, what was evicted since, and the counter at that time. */
    ghost var calls: seq<Call>
    ghost var gone: seq<Entry>
    ghost var start: nat

    ghost predicate Valid()
      reads this
    {
      LeavesText(earlier) && Tracks(start, calls, gone, buffer, sequence)
    }

    constructor (earlier: Str -> Str)
      requires LeavesText(earlier)
      ensures Valid() && calls == [] && this.earlier == earlier
    {
      buffer, sequence, calls, gone, start := [], 0, [], [], 0;
      this.earlier := earlier;
    }

    /** `thrown` is the thrown value as a sentence, which `describeThrown` makes of it. */
    method Record(source: Source, thrown: Str, place: Option<Str>, now: int)
      requires Valid()
      modifies this
      ensures Valid() && start == old(start)
      ensures calls == old(calls) + [Call(Described(earlier, source, thrown, place), now)]
    {
      var problem := Describe(source, thrown, place);
      ghost var evicted := RecordProblem(problem, now);
      Follow(start, calls, Call(problem, now), gone, old(buffer), old(sequence), evicted, buffer, sequence);
      calls, gone := calls + [Call(problem, now)], gone + evicted;
    }

    /** The redacted message, cut, and the redacted place. */
    method Describe(source: Source, thrown: Str, place: Option<Str>) returns (problem: Problem)
      requires LeavesText(earlier)
      ensures problem == Described(earlier, source, thrown, place)
      ensures problem.place.Some? ==> problem.place.value != []
    {
      var location := if place.None? || place.value == [] then None else Some(Redact(earlier, place.value));
      problem := Problem(source, Cut(Redact(earlier, thrown)), location);
      DescribedAs(earlier, source, thrown, place, problem);
    }

    /** The rest of `record`, once the message and the place are safe. */
    method RecordProblem(problem: Problem, now: int) returns (ghost evicted: seq<Entry>)
      requires problem.place.Some? ==> problem.place.value != []
      requires |buffer| <= LOG_LIMIT
      modifies `buffer, `sequence
      ensures Recorded(old(buffer), old(sequence), evicted, buffer, Call(problem, now))
      ensures sequence == old(sequence) + if Writes(old(buffer), problem) then 1 else 0
    {
      evicted := [];
      if buffer != [] {
        var last := buffer[|buffer| - 1];
        if last.problem.source == problem.source && last.problem.message == problem.message
           && last.problem.place == problem.place {
          buffer := buffer[|buffer| - 1 := last.(count := last.count + 1, at := now)];
          return;
        }
      }
      sequence := sequence + 1;
      var location := if problem.place.Some? && problem.place.value != [] then problem.place else None;
      buffer := buffer + [Entry(sequence, now, 1, problem.(place := location))];
      if |buffer| > LOG_LIMIT {
        evicted := buffer[..|buffer| - LOG_LIMIT];
        buffer := buffer[|buffer| - LOG_LIMIT..];
      }
    }

    method Entries() returns (entries: seq<Entry>)
      requires Valid()
      ensures IsNewest(entries, Encode(start, calls))
    {
      assert gone + buffer == Encode(start, calls);
      entries := buffer;
    }

    method Clear()
      requires Valid()
      modifies this
      ensures Valid() && calls == [] && start == old(sequence)
    {
      buffer := [];
      calls, gone, start := [], [], sequence;
    }
  }
}

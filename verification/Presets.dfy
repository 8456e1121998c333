// Recent game setups (src/app/ManualGameDraft.ts): a stored list of at most eight, most recent first, one
// for each distinct setup, rewritten every time a setup is remembered.
module Presets {
  import opened Text

  /** `setup` is the JSON text of the teams, rules and options, which is how two setups are compared. */
  datatype Preset = Preset(id: Str, name: Str, savedAt: Str, setup: Str)

  /** One element of the stored array: something that does not read as a preset, or a preset. */
  datatype Item = Unreadable | Saved(preset: Preset)

  /** The stored text: nothing there, text that is not a JSON array, or an array. */
  datatype Stored = Absent | Broken | List(items: seq<Item>)

  const KEPT := 8

  function First(list: seq<Preset>): seq<Preset> { if |list| > KEPT then list[..KEPT] else list }

  /** `flatMap`: the presets among the items. */
  function Readable(items: seq<Item>): seq<Preset>
  {
    if items == [] then []
    else (if items[0].Saved? then [items[0].preset] else []) + Readable(items[1..])
  }

  function Read(stored: Stored): seq<Preset>
  {
    if stored.List? then First(Readable(stored.items)) else []
  }

  /** `filter`: the presets with another setup. */
  function Others(list: seq<Preset>, setup: Str): seq<Preset>
  {
    if list == [] then []
    else (if list[0].setup != setup then [list[0]] else []) + Others(list[1..], setup)
  }

  function Next(list: seq<Preset>, p: Preset): seq<Preset> { First([p] + Others(list, p.setup)) }

  function Items(list: seq<Preset>): seq<Item> { seq(|list|, i requires 0 <= i < |list| => Saved(list[i])) }

  lemma {:induction false} ItemsReadBack(list: seq<Preset>)
    ensures Readable(Items(list)) == list
  {
    if list != [] {
      ItemsReadBack(list[1..]);
      assert Items(list)[1..] == Items(list[1..]);
    }
  }

  // --- the unbounded history ------------------------------------------------------------------------

  /** Every setup ever remembered, moved to the front each time. */
  function History(remembered: seq<Preset>): seq<Preset>
  {
    if remembered == [] then []
    else
      var p := remembered[|remembered| - 1];
      [p] + Others(History(remembered[..|remembered| - 1]), p.setup)
  }

  predicate Has(list: seq<Preset>, setup: Str)
  {
    exists i :: 0 <= i < |list| && list[i].setup == setup
  }

  /** The reference: of every setup the last time it was remembered, newest first. */
  function LastTimes(remembered: seq<Preset>): seq<Preset>
  {
    if remembered == [] then []
    else LastTimes(remembered[1..]) + if Has(remembered[1..], remembered[0].setup) then [] else [remembered[0]]
  }

  ghost predicate Distinct(list: seq<Preset>)
  {
    forall i, j :: 0 <= i < j < |list| ==> list[i].setup != list[j].setup
  }

  lemma {:induction false} OthersJoin(a: seq<Preset>, b: seq<Preset>, setup: Str)
    ensures Others(a + b, setup) == Others(a, setup) + Others(b, setup)
    decreases |a|
  {
    if a == [] {
      assert a + b == b;
    } else {
      OthersJoin(a[1..], b, setup);
      OthersOfMore(a[0], a[1..], setup);
      OthersOfMore(a[0], a[1..] + b, setup);
      assert a == [a[0]] + a[1..];
      assert a + b == [a[0]] + (a[1..] + b);
    }
  }

  lemma OthersOfMore(p: Preset, rest: seq<Preset>, setup: Str)
    ensures Others([p] + rest, setup) == (if p.setup == setup then [] else [p]) + Others(rest, setup)
  {
    assert ([p] + rest)[1..] == rest;
  }

  lemma HasJoin(a: seq<Preset>, p: Preset, setup: Str)
    ensures Has(a + [p], setup) <==> Has(a, setup) || p.setup == setup
  {
    if Has(a, setup) {
      var i :| 0 <= i < |a| && a[i].setup == setup;
      assert (a + [p])[i].setup == setup;
    }
    assert (a + [p])[|a|] == p;
  }

  /** Remembering `p` after `first`, from what remembering it after the rest gives. */
  lemma StepPastFirst(last: seq<Preset>, tail: seq<Preset>, p: Preset)
    requires |tail| <= 1
    ensures
      ([p] + Others(last, p.setup)) + (if tail == [] || tail[0].setup == p.setup then [] else tail)
      == [p] + Others(last + tail, p.setup)
  {
    OthersJoin(last, tail, p.setup);
    if tail != [] {
      assert tail == [tail[0]] && tail[1..] == [];
    }
    assert Others(tail, p.setup) == if tail == [] || tail[0].setup == p.setup then [] else tail;
  }

  lemma {:induction false} LastTimesStep(remembered: seq<Preset>, p: Preset)
    ensures LastTimes(remembered + [p]) == [p] + Others(LastTimes(remembered), p.setup)
    decreases |remembered|
  {
    if remembered == [] {
      assert (remembered + [p])[1..] == [];
    } else {
      var first, rest := remembered[0], remembered[1..];
      LastTimesStep(rest, p);
      assert (remembered + [p])[1..] == rest + [p];
      HasJoin(rest, p, first.setup);
      StepPastFirst(LastTimes(rest), if Has(rest, first.setup) then [] else [first], p);
    }
  }

  /** Moving to the front keeps, of every setup, the last time it was remembered, newest first. */
  lemma {:induction false} HistoryIsLastTimes(remembered: seq<Preset>)
    ensures History(remembered) == LastTimes(remembered)
    decreases |remembered|
  {
    if remembered != [] {
      var n := |remembered| - 1;
      HistoryIsLastTimes(remembered[..n]);
      LastTimesStep(remembered[..n], remembered[n]);
      assert remembered == remembered[..n] + [remembered[n]];
    }
  }

  lemma {:induction false} OthersAre(list: seq<Preset>, setup: Str)
    ensures forall p :: p in Others(list, setup) <==> p in list && p.setup != setup
  {
    if list != [] {
      OthersAre(list[1..], setup);
    }
  }

  lemma {:induction false} OthersDistinct(list: seq<Preset>, setup: Str)
    requires Distinct(list)
    ensures Distinct(Others(list, setup)) && !Has(Others(list, setup), setup)
  {
    if list != [] {
      OthersDistinct(list[1..], setup);
      OthersAre(list[1..], setup);
      var rest := Others(list[1..], setup);
      forall j | 0 <= j < |rest| ensures rest[j].setup != list[0].setup {
        assert rest[j] in rest;
        assert rest[j] in list[1..];
      }
    }
  }

  lemma {:induction false} HistoryDistinct(remembered: seq<Preset>)
    ensures Distinct(History(remembered))
    decreases |remembered|
  {
    if remembered != [] {
      var n := |remembered| - 1;
      HistoryDistinct(remembered[..n]);
      OthersDistinct(History(remembered[..n]), remembered[n].setup);
    }
  }

  // --- the bounded list refines it ------------------------------------------------------------------

  /** Without duplicates, leaving one setup out shortens any front part by at most one. */
  lemma {:induction false} OthersOfFront(list: seq<Preset>, n: nat, setup: Str)
    requires Distinct(list) && n <= |list|
    ensures
      var front, whole := Others(list[..n], setup), Others(list, setup);
      && |front| <= |whole| && front == whole[..|front|]
      && |front| >= n - 1 && (|front| == n - 1 ==> Has(list[..n], setup))
    decreases n
  {
    if n > 0 {
      var rest := list[1..];
      OthersOfFront(rest, n - 1, setup);
      assert list[..n][1..] == rest[..n - 1];
      if list[0].setup == setup {
        assert list[..n][0].setup == setup;
        var front := rest[..n - 1];
        forall i | 0 <= i < |front| ensures front[i].setup != setup {
          assert front[i] == list[i + 1];
        }
      } else if Has(rest[..n - 1], setup) {
        var i :| 0 <= i < n - 1 && rest[..n - 1][i].setup == setup;
        assert list[..n][i + 1].setup == setup;
      }
    }
  }

  /** Cutting the list before a setup is moved to its front changes nothing of what is kept afterwards. */
  lemma CutBeforeOrAfter(list: seq<Preset>, p: Preset)
    requires Distinct(list)
    ensures Next(First(list), p) == First([p] + Others(list, p.setup))
  {
    if |list| > KEPT {
      OthersOfFront(list, KEPT, p.setup);
      var front, whole := Others(list[..KEPT], p.setup), Others(list, p.setup);
      assert ([p] + whole)[..KEPT] == [p] + whole[..KEPT - 1];
      assert KEPT - 1 <= |front| ==> ([p] + front)[..KEPT] == [p] + front[..KEPT - 1];
    }
  }

  /** One call: the setup, and whether storage took the write. */
  datatype Call = Call(preset: Preset, written: bool)

  /** The setups whose writes storage took. */
  function Written(calls: seq<Call>): seq<Preset>
  {
    if calls == [] then []
    else Written(calls[..|calls| - 1]) + if calls[|calls| - 1].written then [calls[|calls| - 1].preset] else []
  }

  function Remembered(stored: Stored, c: Call): Stored
  {
    if c.written then List(Items(Next(Read(stored), c.preset))) else stored
  }

  function Run(calls: seq<Call>): Stored
  {
    if calls == [] then Absent else Remembered(Run(calls[..|calls| - 1]), calls[|calls| - 1])
  }

  lemma ReadsBackWhole(list: seq<Preset>)
    requires |list| <= KEPT
    ensures Read(List(Items(list))) == list
  {
    ItemsReadBack(list);
  }

  /**
   * From an empty store, whatever was remembered and whichever writes storage refused, what is read is the
   * first eight of the full history of the writes it took.
   */
  lemma {:induction false} ShelfRefinesHistory(calls: seq<Call>)
    ensures Read(Run(calls)) == First(History(Written(calls)))
    ensures Read(Run(calls)) == First(LastTimes(Written(calls))) <= LastTimes(Written(calls))
    ensures |Read(Run(calls))| == 8 || (|Read(Run(calls))| < 8 && Read(Run(calls)) == LastTimes(Written(calls)))
    decreases |calls|
  {
    HistoryIsLastTimes(Written(calls));
    if calls != [] {
      var n := |calls| - 1;
      var p, before := calls[n].preset, Written(calls[..n]);
      ShelfRefinesHistory(calls[..n]);
      if !calls[n].written {
        assert Written(calls) == before;
      } else {
        assert Written(calls)[..|before|] == before;
        HistoryDistinct(before);
        CutBeforeOrAfter(History(before), p);
        ReadsBackWhole(Next(Read(Run(calls[..n])), p));
      }
    }
  }

  // --- the store ------------------------------------------------------------------------------------

  class PresetShelf {
    var stored: Stored

    constructor ()
      ensures stored == Absent
    {
      stored := Absent;
    }

    /** `takes` is whether storage takes the write; the caller is told the new list either way. */
    method Remember(preset: Preset, takes: bool) returns (next: seq<Preset>)
      modifies this
      ensures next == Next(Read(old(stored)), preset)
      ensures stored == Remembered(old(stored), Call(preset, takes))
      ensures takes ==> Read(stored) == next
      ensures |next| <= KEPT && next[0] == preset
    {
      next := First([preset] + Others(Read(stored), preset.setup));
      if takes {
        stored := List(Items(next));
      }
      ReadsBackWhole(next);
    }
  }
}

// The structural half of the leak scan run before a diagnostics file is written (`findLeaks` in
// src/app/Diagnostics.ts): forbidden field names and credential-shaped strings, anywhere in a tree.
module LeakScan {
  import opened Text
  import opened Redaction

  /** A value of the bundle. Numbers, booleans, null and undefined are all `Scalar` here. */
  datatype Json = Words(s: Str) | Scalar | Items(items: seq<Json>) | Fields(fields: seq<Field>)

  datatype Field = Field(key: Str, value: Json)

  datatype Leak = LooksLikeCredential(path: Str) | ForbiddenField(path: Str)

  const ROOT: Str := Lit("diagnostics")
  const BROWSER: Str := Lit("browser")
  const USER_AGENT_KEY: Str := Lit("userAgent")
  const DOT: Unit := 46
  const OPEN: Unit := 91
  const CLOSE: Unit := 93
  /** `diagnostics.browser.userAgent`. */
  const USER_AGENT: Str := ROOT + ([DOT] + (BROWSER + ([DOT] + USER_AGENT_KEY)))

  predicate OccursAt(s: Str, w: Str, i: nat)
  {
    i + |w| <= |s| && s[i..i + |w|] == w
  }

  predicate Contains(s: Str, w: Str)
  {
    exists i: nat :: i <= |s| && OccursAt(s, w, i)
  }

  const FORBIDDEN_WORDS: seq<Str> := [
    Lit("token"), Lit("secret"), Lit("password"), Lit("pairingcode"), Lit("pairing_code"), Lit("pairing-code"),
    Lit("authorization"), Lit("credential"), Lit("deviceid"), Lit("roomid"), Lit("sessionid")]

  /** `forbiddenFields.test(key)`. */
  predicate Forbidden(key: Str)
  {
    exists k :: 0 <= k < |FORBIDDEN_WORDS| && Contains(Lower(key), FORBIDDEN_WORDS[k])
  }

  function FieldPath(path: Str, key: Str): Str { path + [DOT] + key }

  function ItemPath(path: Str, i: nat): Str { path + [OPEN] + Decimal(i) + [CLOSE] }

  function LeaksIn(v: Json, path: Str): seq<Leak>
    decreases v, 0
  {
    match v
    case Words(s) => if path != USER_AGENT && Credential(s) then [LooksLikeCredential(path)] else []
    case Scalar => []
    case Items(items) => LeaksInItems(items, 0, path)
    case Fields(fields) => LeaksInFields(fields, path)
  }

  function LeaksInItems(items: seq<Json>, first: nat, path: Str): seq<Leak>
    decreases items, 1
  {
    if items == [] then []
    else LeaksIn(items[0], ItemPath(path, first)) + LeaksInItems(items[1..], first + 1, path)
  }

  function LeaksInField(f: Field, path: Str): seq<Leak>
    decreases f, 1
  {
    if Forbidden(f.key) then [ForbiddenField(FieldPath(path, f.key))] else LeaksIn(f.value, FieldPath(path, f.key))
  }

  function LeaksInFields(fields: seq<Field>, path: Str): seq<Leak>
    decreases fields, 1
  {
    if fields == [] then [] else LeaksInField(fields[0], path) + LeaksInFields(fields[1..], path)
  }

  lemma ItemsFrom(items: seq<Json>, i: nat, path: Str, before: seq<Leak>)
    requires i < |items|
    ensures before + LeaksInItems(items[i..], i, path)
      == (before + LeaksIn(items[i], ItemPath(path, i))) + LeaksInItems(items[i + 1..], i + 1, path)
  {
    assert items[i..][1..] == items[i + 1..];
  }

  lemma FieldsFrom(fields: seq<Field>, i: nat, path: Str, before: seq<Leak>)
    requires i < |fields|
    ensures before + LeaksInFields(fields[i..], path)
      == (before + LeaksInField(fields[i], path)) + LeaksInFields(fields[i + 1..], path)
  {
    assert fields[i..][1..] == fields[i + 1..];
  }

  /** One run of the scan: the shared list and the closure that visits a value and adds to it. */
  class Scan {
    var leaks: seq<Leak>

    constructor ()
      ensures leaks == []
    {
      leaks := [];
    }

    method Visit(v: Json, path: Str)
      modifies this
      ensures leaks == old(leaks) + LeaksIn(v, path)
      decreases v
    {
      match v {
        case Words(s) =>
          if path != USER_AGENT && Credential(s) {
            leaks := leaks + [LooksLikeCredential(path)];
          }
        case Scalar =>
        case Items(items) =>
          for i := 0 to |items|
            invariant leaks + LeaksInItems(items[i..], i, path) == old(leaks) + LeaksInItems(items, 0, path)
          {
            ItemsFrom(items, i, path, leaks);
            Visit(items[i], ItemPath(path, i));
          }
        case Fields(fields) =>
          for i := 0 to |fields|
            invariant leaks + LeaksInFields(fields[i..], path) == old(leaks) + LeaksInFields(fields, path)
          {
            FieldsFrom(fields, i, path, leaks);
            var nested := FieldPath(path, fields[i].key);
            if Forbidden(fields[i].key) {
              leaks := leaks + [ForbiddenField(nested)];
              continue;
            }
            Visit(fields[i].value, nested);
          }
      }
    }
  }

  // --- what an empty report means -------------------------------------------------------------------

  /** A place in a tree: which item or which field, at each level. */
  datatype Move = Item(i: nat) | Named(i: nat)

  predicate CanMove(v: Json, m: Move)
  {
    match m
    case Item(i) => v.Items? && i < |v.items|
    case Named(i) => v.Fields? && i < |v.fields|
  }

  function Child(v: Json, m: Move): (c: Json)
    requires CanMove(v, m)
    ensures c < v
  {
    match m
    case Item(i) => v.items[i]
    case Named(i) => v.fields[i].value
  }

  function Segment(v: Json, m: Move): Str
    requires CanMove(v, m)
  {
    match m
    case Item(i) => [OPEN] + Decimal(i) + [CLOSE]
    case Named(i) => [DOT] + v.fields[i].key
  }

  predicate IsPlace(v: Json, place: seq<Move>)
  {
    place == [] || (CanMove(v, place[0]) && IsPlace(Child(v, place[0]), place[1..]))
  }

  function ValueAt(v: Json, place: seq<Move>): Json
    requires IsPlace(v, place)
  {
    if place == [] then v else ValueAt(Child(v, place[0]), place[1..])
  }

  /** The path string the scan gives a place. */
  function PathOf(v: Json, place: seq<Move>, path: Str): Str
    requires IsPlace(v, place)
  {
    if place == [] then path else PathOf(Child(v, place[0]), place[1..], path + Segment(v, place[0]))
  }

  /** Some field on the way to a place has a name that must never be exported. */
  predicate UnderForbidden(v: Json, place: seq<Move>)
    requires IsPlace(v, place)
  {
    place != [] &&
      ((place[0].Named? && Forbidden(v.fields[place[0].i].key)) || UnderForbidden(Child(v, place[0]), place[1..]))
  }

  ghost predicate CleanPlace(v: Json, place: seq<Move>, path: Str)
    requires IsPlace(v, place)
  {
    && !UnderForbidden(v, place)
    && (ValueAt(v, place).Words? && Credential(ValueAt(v, place).s) ==> PathOf(v, place, path) == USER_AGENT)
  }

  /** No place in the tree is under a forbidden name or holds a credential, the exempt path apart. */
  ghost predicate Clean(v: Json, path: Str)
  {
    forall place :: IsPlace(v, place) ==> CleanPlace(v, place, path)
  }

  predicate ItemQuiet(items: seq<Json>, first: nat, path: Str, i: nat)
    requires i < |items|
  {
    LeaksIn(items[i], ItemPath(path, first + i)) == []
  }

  ghost predicate AllQuiet(items: seq<Json>, first: nat, path: Str)
  {
    forall i: nat {:trigger ItemQuiet(items, first, path, i)} :: i < |items| ==> ItemQuiet(items, first, path, i)
  }

  lemma QuietSplits(items: seq<Json>, first: nat, path: Str)
    requires items != []
    ensures AllQuiet(items, first, path) <==> ItemQuiet(items, first, path, 0) && AllQuiet(items[1..], first + 1, path)
  {
    if AllQuiet(items, first, path) {
      QuietAfterFirst(items, first, path);
    }
    if ItemQuiet(items, first, path, 0) && AllQuiet(items[1..], first + 1, path) {
      QuietFromFirst(items, first, path);
    }
  }

  lemma QuietAfterFirst(items: seq<Json>, first: nat, path: Str)
    requires items != [] && AllQuiet(items, first, path)
    ensures AllQuiet(items[1..], first + 1, path)
  {
    var rest, second := items[1..], first + 1;
    forall i: nat | i < |rest| ensures ItemQuiet(rest, second, path, i) {
      SameItem(items, first, path, i);
    }
  }

  lemma QuietFromFirst(items: seq<Json>, first: nat, path: Str)
    requires items != [] && ItemQuiet(items, first, path, 0) && AllQuiet(items[1..], first + 1, path)
    ensures AllQuiet(items, first, path)
  {
    forall i: nat | i < |items| ensures ItemQuiet(items, first, path, i) {
      if i > 0 {
        SameItem(items, first, path, i - 1);
      }
    }
  }

  lemma SameItem(items: seq<Json>, first: nat, path: Str, i: nat)
    requires i + 1 < |items|
    ensures ItemQuiet(items[1..], first + 1, path, i) == ItemQuiet(items, first, path, i + 1)
  {
    assert (first + 1) + i == first + (i + 1);
  }

  lemma {:induction false} ItemsReportNothing(items: seq<Json>, first: nat, path: Str)
    ensures LeaksInItems(items, first, path) == [] <==> AllQuiet(items, first, path)
    decreases |items|
  {
    if items != [] {
      ItemsReportNothing(items[1..], first + 1, path);
      QuietSplits(items, first, path);
      assert LeaksInItems(items, first, path)
          == LeaksIn(items[0], ItemPath(path, first)) + LeaksInItems(items[1..], first + 1, path);
    }
  }

  lemma {:induction false} FieldsReportNothing(fields: seq<Field>, path: Str)
    ensures LeaksInFields(fields, path) == [] <==>
      forall i :: 0 <= i < |fields| ==> LeaksInField(fields[i], path) == []
    decreases |fields|
  {
    if fields != [] {
      FieldsReportNothing(fields[1..], path);
      assert forall i :: 1 <= i < |fields| ==> fields[i] == fields[1..][i - 1];
      assert forall i :: 0 <= i < |fields| - 1 ==> fields[1..][i] == fields[i + 1];
    }
  }

  ghost predicate Allowed(v: Json, m: Move)
    requires CanMove(v, m)
  {
    m.Named? ==> !Forbidden(v.fields[m.i].key)
  }

  /** A value's own part of the report, and that its children are all allowed and report nothing. */
  ghost predicate ReportsNothing(v: Json, path: Str)
  {
    && (v.Words? && Credential(v.s) ==> path == USER_AGENT)
    && forall m :: CanMove(v, m) ==> Allowed(v, m) && LeaksIn(Child(v, m), path + Segment(v, m)) == []
  }

  lemma ItemSegment(v: Json, path: Str, i: nat)
    requires v.Items? && i < |v.items|
    ensures CanMove(v, Item(i)) && Child(v, Item(i)) == v.items[i] && Allowed(v, Item(i))
    ensures ItemPath(path, 0 + i) == path + Segment(v, Item(i))
  {
  }

  lemma ItemsUnfold(v: Json, path: Str)
    requires v.Items?
    ensures LeaksIn(v, path) == [] <==> ReportsNothing(v, path)
  {
    ItemsReportNothing(v.items, 0, path);
    if AllQuiet(v.items, 0, path) {
      forall m | CanMove(v, m) ensures Allowed(v, m) && LeaksIn(Child(v, m), path + Segment(v, m)) == [] {
        ItemSegment(v, path, m.i);
        assert ItemQuiet(v.items, 0, path, m.i);
      }
    } else {
      var i: nat :| i < |v.items| && !ItemQuiet(v.items, 0, path, i);
      ItemSegment(v, path, i);
    }
  }

  lemma FieldSegment(v: Json, path: Str, i: nat)
    requires v.Fields? && i < |v.fields|
    ensures CanMove(v, Named(i)) && FieldPath(path, v.fields[i].key) == path + Segment(v, Named(i))
    ensures LeaksInField(v.fields[i], path) == [] <==>
      Allowed(v, Named(i)) && LeaksIn(Child(v, Named(i)), path + Segment(v, Named(i))) == []
  {
  }

  lemma FieldsUnfold(v: Json, path: Str)
    requires v.Fields?
    ensures LeaksIn(v, path) == [] <==> ReportsNothing(v, path)
  {
    FieldsReportNothing(v.fields, path);
    if LeaksIn(v, path) == [] {
      forall m | CanMove(v, m) ensures Allowed(v, m) && LeaksIn(Child(v, m), path + Segment(v, m)) == [] {
        FieldSegment(v, path, m.i);
      }
    } else {
      var i :| 0 <= i < |v.fields| && LeaksInField(v.fields[i], path) != [];
      FieldSegment(v, path, i);
    }
  }

  lemma EmptyReportUnfolds(v: Json, path: Str)
    ensures LeaksIn(v, path) == [] <==> ReportsNothing(v, path)
  {
    if v.Items? {
      ItemsUnfold(v, path);
    } else if v.Fields? {
      FieldsUnfold(v, path);
    }
  }

  lemma CleanGoesDown(v: Json, path: Str, m: Move)
    requires Clean(v, path) && CanMove(v, m)
    ensures Allowed(v, m) && Clean(Child(v, m), path + Segment(v, m))
  {
    var c := Child(v, m);
    assert [m][1..] == [];
    assert IsPlace(v, [m]);
    assert CleanPlace(v, [m], path);
    forall place | IsPlace(c, place) ensures CleanPlace(c, place, path + Segment(v, m)) {
      var longer := [m] + place;
      assert longer[1..] == place;
      assert IsPlace(v, longer);
      assert CleanPlace(v, longer, path);
    }
  }

  lemma CleanComesUp(v: Json, path: Str)
    requires v.Words? && Credential(v.s) ==> path == USER_AGENT
    requires forall m :: CanMove(v, m) ==> Allowed(v, m) && Clean(Child(v, m), path + Segment(v, m))
    ensures Clean(v, path)
  {
    forall place | IsPlace(v, place) ensures CleanPlace(v, place, path) {
      if place != [] {
        assert CanMove(v, place[0]);
        assert CleanPlace(Child(v, place[0]), place[1..], path + Segment(v, place[0]));
      }
    }
  }

  /**
   * The scan reports nothing exactly when no place in the tree, however deep, is under a forbidden field
   * name and no credential-shaped string stands anywhere but at the exempt path.
   */
  lemma {:induction false} EmptyReportMeansClean(v: Json, path: Str)
    ensures LeaksIn(v, path) == [] <==> Clean(v, path)
    decreases v
  {
    EmptyReportUnfolds(v, path);
    forall m | CanMove(v, m)
      ensures LeaksIn(Child(v, m), path + Segment(v, m)) == [] <==> Clean(Child(v, m), path + Segment(v, m))
    {
      EmptyReportMeansClean(Child(v, m), path + Segment(v, m));
    }
    if Clean(v, path) {
      assert IsPlace(v, []);
      assert CleanPlace(v, [], path);
      forall m | CanMove(v, m) ensures Allowed(v, m) && LeaksIn(Child(v, m), path + Segment(v, m)) == [] {
        CleanGoesDown(v, path, m);
      }
    }
    if ReportsNothing(v, path) {
      CleanComesUp(v, path);
    }
  }

  // --- which places the exemption covers ------------------------------------------------------------

  /** What a path string uses to separate its parts. */
  predicate IsMark(u: Unit) { u == DOT || u == OPEN }

  predicate Unmarked(s: Str) { forall i :: 0 <= i < |s| ==> !IsMark(s[i]) }

  predicate AtMark(s: Str) { s == [] || IsMark(s[0]) }

  function Segments(v: Json, place: seq<Move>): Str
    requires IsPlace(v, place)
  {
    if place == [] then [] else Segment(v, place[0]) + Segments(Child(v, place[0]), place[1..])
  }

  lemma {:induction false} PathIsSegments(v: Json, place: seq<Move>, path: Str)
    requires IsPlace(v, place)
    ensures PathOf(v, place, path) == path + Segments(v, place)
    decreases |place|
  {
    if place != [] {
      PathIsSegments(Child(v, place[0]), place[1..], path + Segment(v, place[0]));
    }
  }

  lemma SegmentsStartAtMark(v: Json, place: seq<Move>)
    requires IsPlace(v, place)
    ensures AtMark(Segments(v, place)) && (Segments(v, place) == [] <==> place == [])
  {
  }

  predicate IsField(v: Json, m: Move, key: Str)
  {
    CanMove(v, m) && m.Named? && v.fields[m.i].key == key
  }

  lemma SegmentStart(v: Json, m: Move, tail: Str)
    requires CanMove(v, m)
    ensures (Segment(v, m) + tail)[0] == if m.Named? then DOT else OPEN
    ensures m.Named? ==> (Segment(v, m) + tail)[1..] == v.fields[m.i].key + tail
  {
  }

  /** Segments that begin with a dot: the first move is a field, whose name the text after the dot begins with. */
  lemma FirstName(v: Json, place: seq<Move>, text: Str)
    requires IsPlace(v, place) && Segments(v, place) == [DOT] + text
    ensures place != [] && place[0].Named?
    ensures
      var tail := Segments(Child(v, place[0]), place[1..]);
      AtMark(tail) && (tail == [] <==> |place| == 1) && text == v.fields[place[0].i].key + tail
  {
    assert ([DOT] + text)[0] == DOT && ([DOT] + text)[1..] == text;
    SegmentStart(v, place[0], Segments(Child(v, place[0]), place[1..]));
    SegmentsStartAtMark(Child(v, place[0]), place[1..]);
  }

  lemma OneMark(first: Str, rest: Str, i: nat)
    requires Unmarked(first) && Unmarked(rest) && i < |first + ([DOT] + rest)|
    ensures IsMark((first + ([DOT] + rest))[i]) <==> i == |first|
  {
    var text := first + ([DOT] + rest);
    assert i < |first| ==> text[i] == first[i];
    assert i > |first| ==> text[i] == rest[i - |first| - 1];
  }

  /** A text with one separator, cut in two where the second part begins with one, is cut there or not at all. */
  lemma CutAtMark(name: Str, tail: Str, first: Str, rest: Str)
    requires Unmarked(first) && Unmarked(rest) && AtMark(tail) && name + tail == first + ([DOT] + rest)
    ensures tail == [] || (name == first && tail == [DOT] + rest)
  {
    var text := first + ([DOT] + rest);
    if tail != [] {
      assert tail[0] == text[|name|];
      OneMark(first, rest, |name|);
      assert name == text[..|name|] && tail == text[|name|..];
    }
  }

  const SPELLED: Str := Lit("browser.userAgent")

  /** The one place the exemption is meant for. */
  predicate IsUserAgent(v: Json, place: seq<Move>)
  {
    && |place| == 2 && IsField(v, place[0], BROWSER)
    && IsField(Child(v, place[0]), place[1], USER_AGENT_KEY)
  }

  lemma LitJoins(a: string, b: string)
    ensures Lit(a + b) == Lit(a) + Lit(b)
  {
  }

  lemma DotJoins(s: string)
    ensures Lit("." + s) == [DOT] + Lit(s)
  {
    LitJoins(".", s);
    assert Lit(".") == [DOT];
  }

  lemma SpelledPath()
    ensures SPELLED == BROWSER + ([DOT] + USER_AGENT_KEY)
  {
    DotJoins("userAgent");
    LitJoins("browser", "." + "userAgent");
    assert "browser" + ("." + "userAgent") == "browser.userAgent";
  }

  lemma KeysUnmarked()
    ensures Unmarked(BROWSER) && Unmarked(USER_AGENT_KEY)
  {
  }

  lemma UserAgentPath(v: Json, place: seq<Move>)
    requires IsPlace(v, place)
    ensures PathOf(v, place, ROOT) == USER_AGENT <==> Segments(v, place) == [DOT] + (BROWSER + ([DOT] + USER_AGENT_KEY))
  {
    PathIsSegments(v, place, ROOT);
    var segments, spelled := Segments(v, place), [DOT] + (BROWSER + ([DOT] + USER_AGENT_KEY));
    assert (ROOT + segments)[|ROOT|..] == segments;
    assert (ROOT + spelled)[|ROOT|..] == spelled;
  }

  lemma TailIsMarked(name: Str, tail: Str)
    ensures tail != [] && AtMark(tail) ==> !Unmarked(name + tail)
  {
    if tail != [] && AtMark(tail) {
      assert (name + tail)[|name|] == tail[0];
    }
  }

  lemma SecondName(v: Json, place: seq<Move>)
    requires IsPlace(v, place) && Segments(v, place) == [DOT] + USER_AGENT_KEY
    ensures |place| == 1 && IsField(v, place[0], USER_AGENT_KEY)
  {
    KeysUnmarked();
    FirstName(v, place, USER_AGENT_KEY);
    var name, tail := v.fields[place[0].i].key, Segments(Child(v, place[0]), place[1..]);
    TailIsMarked(name, tail);
    assert name + [] == name;
  }

  lemma OnlyExemptPlaces(v: Json, place: seq<Move>)
    requires IsPlace(v, place) && Segments(v, place) == [DOT] + SPELLED
    ensures IsUserAgent(v, place) || (|place| == 1 && IsField(v, place[0], SPELLED))
  {
    SpelledPath();
    KeysUnmarked();
    FirstName(v, place, SPELLED);
    var name, tail := v.fields[place[0].i].key, Segments(Child(v, place[0]), place[1..]);
    CutAtMark(name, tail, BROWSER, USER_AGENT_KEY);
    if tail != [] {
      SecondName(Child(v, place[0]), place[1..]);
    } else {
      assert name + [] == name;
    }
  }

  /** The exempt path is the path of the user agent and of a field spelled with the separator, no other. */
  lemma ExemptPlaces(v: Json, place: seq<Move>)
    requires IsPlace(v, place)
    ensures PathOf(v, place, ROOT) == USER_AGENT <==>
      IsUserAgent(v, place) || (|place| == 1 && IsField(v, place[0], SPELLED))
  {
    UserAgentPath(v, place);
    SpelledPath();
    if Segments(v, place) == [DOT] + SPELLED {
      OnlyExemptPlaces(v, place);
    }
    if IsUserAgent(v, place) {
      assert Segments(Child(v, place[0]), place[1..]) == [DOT] + USER_AGENT_KEY + [];
      assert Segments(v, place) == [DOT] + BROWSER + ([DOT] + USER_AGENT_KEY);
    }
    if |place| == 1 && IsField(v, place[0], SPELLED) {
      assert Segments(v, place) == [DOT] + SPELLED + [];
    }
  }

  // --- what the report is for -----------------------------------------------------------------------

  ghost predicate SafePlace(v: Json, place: seq<Move>)
    requires IsPlace(v, place)
  {
    && !UnderForbidden(v, place)
    && (ValueAt(v, place).Words? && Credential(ValueAt(v, place).s) ==> IsUserAgent(v, place))
  }

  /** No place is under a forbidden name, and no credential stands anywhere but at the user agent. */
  ghost predicate Safe(v: Json)
  {
    forall place :: IsPlace(v, place) ==> SafePlace(v, place)
  }

  predicate HidesCredential(f: Field)
  {
    f.key == SPELLED && f.value.Words? && Credential(f.value.s)
  }

  /** A top-level field spelled like the exempt path holds a credential. */
  ghost predicate Escapes(v: Json)
  {
    v.Fields? && exists i :: 0 <= i < |v.fields| && HidesCredential(v.fields[i])
  }

  lemma SpelledPlaceIsClean(v: Json, i: nat)
    requires v.Fields? && i < |v.fields| && HidesCredential(v.fields[i])
    ensures IsPlace(v, [Named(i)]) && ValueAt(v, [Named(i)]) == v.fields[i].value
    ensures !SafePlace(v, [Named(i)])
  {
    assert CanMove(v, Named(i)) && [Named(i)][1..] == [];
  }

  /** A bundle is safe exactly when the scan reports nothing and no credential hides in a field so spelled. */
  lemma SafeExactlyWhen(v: Json)
    ensures Safe(v) <==> LeaksIn(v, ROOT) == [] && !Escapes(v)
  {
    EmptyReportMeansClean(v, ROOT);
    if Safe(v) {
      forall place | IsPlace(v, place) ensures CleanPlace(v, place, ROOT) {
        assert SafePlace(v, place);
        ExemptPlaces(v, place);
      }
      if Escapes(v) {
        var i :| 0 <= i < |v.fields| && HidesCredential(v.fields[i]);
        SpelledPlaceIsClean(v, i);
      }
    }
    if Clean(v, ROOT) && !Escapes(v) {
      forall place: seq<Move> | IsPlace(v, place) ensures SafePlace(v, place) {
        assert CleanPlace(v, place, ROOT);
        ExemptPlaces(v, place);
        if |place| == 1 && IsField(v, place[0], SPELLED) {
          assert !HidesCredential(v.fields[place[0].i]);
          assert ValueAt(v, place) == v.fields[place[0].i].value;
        }
      }
    }
  }

  lemma MissingUnit(s: Str, w: Str, j: nat)
    requires j < |w| && w[j] !in s
    ensures !Contains(s, w)
  {
    forall i: nat | i <= |s| ensures !OccursAt(s, w, i) {
      if i + |w| <= |s| {
        assert s[i..i + |w|][j] == s[i + j];
      }
    }
  }

  lemma BrowserKeyAllowed()
    ensures !Forbidden(SPELLED)
  {
    var s := Lower(SPELLED);
    var text := "browser.userAgent";
    forall i | 0 <= i < |s| ensures s[i] !in {107, 99, 112, 104, 100, 109, 105} {
      assert s[i] == LowerUnit(text[i] as int);
    }
    forall k | 0 <= k < |FORBIDDEN_WORDS| ensures !Contains(s, FORBIDDEN_WORDS[k]) {
      MissingUnit(s, FORBIDDEN_WORDS[k], [2, 2, 0, 0, 0, 0, 3, 0, 0, 3, 4][k]);
    }
  }

  /** Such bundles exist: this one is reported clean. */
  lemma SpelledPathEscapes(s: Str)
    requires Credential(s)
    ensures
      var bundle := Fields([Field(SPELLED, Words(s))]);
      LeaksIn(bundle, ROOT) == [] && Escapes(bundle) && !Safe(bundle)
  {
    var bundle := Fields([Field(SPELLED, Words(s))]);
    SpelledPath();
    assert FieldPath(ROOT, SPELLED) == USER_AGENT;
    BrowserKeyAllowed();
    assert LeaksIn(Words(s), USER_AGENT) == [];
    assert LeaksInField(bundle.fields[0], ROOT) == [];
    assert bundle.fields[1..] == [];
    assert LeaksInFields(bundle.fields, ROOT)
        == LeaksInField(bundle.fields[0], ROOT) + LeaksInFields(bundle.fields[1..], ROOT);
    assert HidesCredential(bundle.fields[0]);
    SafeExactlyWhen(bundle);
  }

  // --- what a report says ---------------------------------------------------------------------------

  /** The field a place ends at is the first on the way whose name must not be exported. */
  predicate FirstForbidden(v: Json, place: seq<Move>)
    requires IsPlace(v, place)
  {
    place != [] &&
      var named := place[0].Named? && Forbidden(v.fields[place[0].i].key);
      if |place| == 1 then named else !named && FirstForbidden(Child(v, place[0]), place[1..])
  }

  /** What is wrong at a place, as the report puts it. */
  ghost predicate WrongAt(v: Json, place: seq<Move>, path: Str, leak: Leak)
    requires IsPlace(v, place)
  {
    && leak.path == PathOf(v, place, path)
    && match leak
       case LooksLikeCredential(_) =>
         && !UnderForbidden(v, place) && ValueAt(v, place).Words? && Credential(ValueAt(v, place).s)
         && leak.path != USER_AGENT
       case ForbiddenField(_) => FirstForbidden(v, place)
  }

  ghost predicate Wrong(v: Json, path: Str, leak: Leak)
  {
    exists place :: IsPlace(v, place) && WrongAt(v, place, path, leak)
  }

  /** What one move of the scan reports. */
  predicate MoveReports(v: Json, m: Move, path: Str, leak: Leak)
  {
    CanMove(v, m) &&
      if m.Named? && Forbidden(v.fields[m.i].key) then leak == ForbiddenField(path + Segment(v, m))
      else leak in LeaksIn(Child(v, m), path + Segment(v, m))
  }

  lemma {:induction false} ItemsReport(items: seq<Json>, first: nat, path: Str, leak: Leak)
    ensures leak in LeaksInItems(items, first, path) <==>
      exists i: nat :: i < |items| && ItemReports(items, first, path, i, leak)
    decreases |items|
  {
    if items != [] {
      var rest, second := items[1..], first + 1;
      ItemsReport(rest, second, path, leak);
      assert ItemReports(items, first, path, 0, leak) <==> leak in LeaksIn(items[0], ItemPath(path, first));
      if i: nat :| i < |rest| && ItemReports(rest, second, path, i, leak) {
        ItemShift(items, first, path, i + 1, leak);
      }
      if i: nat :| 0 < i < |items| && ItemReports(items, first, path, i, leak) {
        ItemShift(items, first, path, i, leak);
      }
    }
  }

  lemma ItemShift(items: seq<Json>, first: nat, path: Str, i: nat, leak: Leak)
    requires 0 < i < |items|
    ensures ItemReports(items[1..], first + 1, path, i - 1, leak) <==> ItemReports(items, first, path, i, leak)
  {
  }

  predicate ItemReports(items: seq<Json>, first: nat, path: Str, i: nat, leak: Leak)
    requires i < |items|
  {
    leak in LeaksIn(items[i], ItemPath(path, first + i))
  }

  lemma {:induction false} FieldsReport(fields: seq<Field>, path: Str, leak: Leak)
    ensures leak in LeaksInFields(fields, path) <==>
      exists i :: 0 <= i < |fields| && leak in LeaksInField(fields[i], path)
    decreases |fields|
  {
    if fields != [] {
      FieldsReport(fields[1..], path, leak);
      assert forall i :: 0 <= i < |fields| - 1 ==> fields[1..][i] == fields[i + 1];
      assert fields == [fields[0]] + fields[1..];
    }
  }

  /** A value reports itself and what its moves report. */
  lemma ReportUnfolds(v: Json, path: Str, leak: Leak)
    ensures leak in LeaksIn(v, path) <==>
      || (v.Words? && path != USER_AGENT && Credential(v.s) && leak == LooksLikeCredential(path))
      || exists m :: MoveReports(v, m, path, leak)
  {
    if v.Items? {
      ItemsReport(v.items, 0, path, leak);
      forall i: nat | i < |v.items|
        ensures ItemReports(v.items, 0, path, i, leak) <==> MoveReports(v, Item(i), path, leak)
      {
        ItemSegment(v, path, i);
      }
      if m :| MoveReports(v, m, path, leak) {
        assert ItemReports(v.items, 0, path, m.i, leak);
      }
    } else if v.Fields? {
      FieldsReport(v.fields, path, leak);
      forall i: nat | i < |v.fields|
        ensures leak in LeaksInField(v.fields[i], path) <==> MoveReports(v, Named(i), path, leak)
      {
        assert FieldPath(path, v.fields[i].key) == path + Segment(v, Named(i));
      }
      if m :| MoveReports(v, m, path, leak) {
        assert leak in LeaksInField(v.fields[m.i], path);
      }
    }
  }

  /** What is wrong at a place beyond a move is what is wrong there, seen from the move on. */
  lemma WrongStep(v: Json, place: seq<Move>, path: Str, leak: Leak)
    requires IsPlace(v, place) && place != []
    ensures
      var m := place[0];
      if m.Named? && Forbidden(v.fields[m.i].key)
      then WrongAt(v, place, path, leak) <==> |place| == 1 && leak == ForbiddenField(path + Segment(v, m))
      else WrongAt(v, place, path, leak) <==> WrongAt(Child(v, m), place[1..], path + Segment(v, m), leak)
  {
    PlaceUnfolds(v, place, path);
    if |place| == 1 {
      assert PathOf(Child(v, place[0]), [], path + Segment(v, place[0])) == path + Segment(v, place[0]);
    }
  }

  lemma PlaceUnfolds(v: Json, place: seq<Move>, path: Str)
    requires IsPlace(v, place) && place != []
    ensures
      var m, c, rest := place[0], Child(v, place[0]), place[1..];
      var named := m.Named? && Forbidden(v.fields[m.i].key);
      && PathOf(v, place, path) == PathOf(c, rest, path + Segment(v, m))
      && ValueAt(v, place) == ValueAt(c, rest)
      && (UnderForbidden(v, place) <==> named || UnderForbidden(c, rest))
      && (FirstForbidden(v, place) <==> if |place| == 1 then named else !named && FirstForbidden(c, rest))
      && (|place| == 1 ==> rest == [] && !FirstForbidden(c, rest))
  {
  }

  lemma WrongBelow(v: Json, m: Move, path: Str, leak: Leak)
    requires CanMove(v, m) && !(m.Named? && Forbidden(v.fields[m.i].key))
    requires Wrong(Child(v, m), path + Segment(v, m), leak)
    ensures Wrong(v, path, leak)
  {
    var place :| IsPlace(Child(v, m), place) && WrongAt(Child(v, m), place, path + Segment(v, m), leak);
    var longer := [m] + place;
    assert longer[0] == m && longer[1..] == place;
    WrongStep(v, longer, path, leak);
  }

  lemma ForbiddenIsWrong(v: Json, m: Move, path: Str)
    requires CanMove(v, m) && m.Named? && Forbidden(v.fields[m.i].key)
    ensures Wrong(v, path, ForbiddenField(path + Segment(v, m)))
  {
    assert [m][1..] == [];
    assert IsPlace(v, [m]) && WrongAt(v, [m], path, ForbiddenField(path + Segment(v, m)));
  }

  /**
   * The report says exactly what is wrong: each credential outside the exempt path and not below a forbidden field,
   * and each forbidden field not below another, by the path of its place.
   */
  lemma {:induction false} ReportsExactly(v: Json, path: Str, leak: Leak)
    ensures leak in LeaksIn(v, path) <==> Wrong(v, path, leak)
    decreases v
  {
    ReportUnfolds(v, path, leak);
    forall m | CanMove(v, m)
      ensures leak in LeaksIn(Child(v, m), path + Segment(v, m)) <==> Wrong(Child(v, m), path + Segment(v, m), leak)
    {
      ReportsExactly(Child(v, m), path + Segment(v, m), leak);
    }
    if m :| MoveReports(v, m, path, leak) {
      if m.Named? && Forbidden(v.fields[m.i].key) {
        ForbiddenIsWrong(v, m, path);
      } else {
        WrongBelow(v, m, path, leak);
      }
    }
    if v.Words? && path != USER_AGENT && Credential(v.s) && leak == LooksLikeCredential(path) {
      assert IsPlace(v, []) && WrongAt(v, [], path, leak);
    }
    if Wrong(v, path, leak) {
      var place :| IsPlace(v, place) && WrongAt(v, place, path, leak);
      WrongIsReported(v, place, path, leak);
    }
  }

  lemma WrongIsReported(v: Json, place: seq<Move>, path: Str, leak: Leak)
    requires IsPlace(v, place) && WrongAt(v, place, path, leak)
    requires forall m :: CanMove(v, m) && Wrong(Child(v, m), path + Segment(v, m), leak) ==>
      leak in LeaksIn(Child(v, m), path + Segment(v, m))
    ensures
      || (v.Words? && path != USER_AGENT && Credential(v.s) && leak == LooksLikeCredential(path))
      || exists m :: MoveReports(v, m, path, leak)
  {
    if place != [] {
      WrongStep(v, place, path, leak);
      assert MoveReports(v, place[0], path, leak);
    }
  }
}

// The identity an emergency procedure override is filed under (src/app/ConnectedRoom.tsx).
//
// The source files an approval under the JSON text of a four-element array and later compares texts.
// What makes that sound is that JSON printing can be undone, which is proved here by writing the
// reader for the two grammar productions involved (strings and numbers, sections 7 and 6 of RFC 8259).
module ProcedureKey {
  import opened Text

  const QUOTE: Unit := 34
  const BACKSLASH: Unit := 92
  const COMMA: Unit := 44

  function UnicodeEscape(u: Unit): (t: Str)
    ensures |t| == 6
  {
    [BACKSLASH, 117, LowerHex(u / 4096), LowerHex(u / 256 % 16), LowerHex(u / 16 % 16), LowerHex(u % 16)]
  }

  /** The letter of a two-character escape, for the units that have one. */
  function ShortEscape(u: Unit): Option<Unit>
  {
    match u
    case 8 => Some(98)
    case 9 => Some(116)
    case 10 => Some(110)
    case 12 => Some(102)
    case 13 => Some(114)
    case 34 => Some(34)
    case 92 => Some(92)
    case _ => None
  }

  function EscapeUnit(u: Unit): Str
  {
    match ShortEscape(u)
    case Some(letter) => [BACKSLASH, letter]
    case None => if u < 0x20 || IsHigh(u) || IsLow(u) then UnicodeEscape(u) else [u]
  }

  /** `JSON.stringify` of the inside of a string: a surrogate pair is kept, a lone surrogate escaped. */
  function Escape(s: Str): Str
  {
    if s == [] then []
    else if |s| > 1 && IsHigh(s[0]) && IsLow(s[1]) then [s[0], s[1]] + Escape(s[2..])
    else EscapeUnit(s[0]) + Escape(s[1..])
  }

  function ShortMeaning(letter: Unit): Option<Unit>
  {
    match letter
    case 98 => Some(8)
    case 116 => Some(9)
    case 110 => Some(10)
    case 102 => Some(12)
    case 114 => Some(13)
    case 34 => Some(34)
    case 92 => Some(92)
    case 47 => Some(47)
    case _ => None
  }

  /** One character of a JSON string, and how many units of text it took. */
  function ReadUnit(t: Str): Option<(Unit, nat)>
  {
    if t == [] || t[0] == QUOTE || t[0] < 0x20 then None
    else if t[0] != BACKSLASH then Some((t[0], 1))
    else if |t| >= 6 && t[1] == 117 then
      match (HexValue(t[2]), HexValue(t[3]), HexValue(t[4]), HexValue(t[5]))
      case (Some(a), Some(b), Some(c), Some(d)) =>
        if a < 16 && b < 16 && c < 16 && d < 16 then Some((4096 * a + 256 * b + 16 * c + d, 6)) else None
      case _ => None
    else if |t| >= 2 then
      match ShortMeaning(t[1])
      case Some(u) => Some((u, 2))
      case None => None
    else None
  }

  /** The string whose closing quote ends it, and everything after that quote. */
  function ReadString(t: Str): Option<(Str, Str)>
    decreases |t|
  {
    if t != [] && t[0] == QUOTE then Some(([], t[1..]))
    else
      match ReadUnit(t)
      case None => None
      case Some((u, n)) =>
        if n == 0 || n > |t| then None else
        match ReadString(t[n..])
        case None => None
        case Some((s, rest)) => Some(([u] + s, rest))
  }

  lemma FourDigits(u: Unit)
    ensures u / 4096 < 16
    ensures u == 4096 * (u / 4096) + 256 * (u / 256 % 16) + 16 * (u / 16 % 16) + u % 16
  {
    LastDigit(u, 16);
    LastDigit(u, 256);
  }

  lemma LastDigit(u: nat, k: nat)
    requires k == 16 || k == 256
    ensures u / k == 16 * (u / (16 * k)) + u / k % 16
  {
    var q := u / k;
    assert q == 16 * (q / 16) + q % 16;
    assert u / (16 * k) == q / 16;
  }

  lemma ReadsHex(a: nat, b: nat, c: nat, d: nat, rest: Str)
    requires a < 16 && b < 16 && c < 16 && d < 16
    ensures ReadUnit([BACKSLASH, 117, LowerHex(a), LowerHex(b), LowerHex(c), LowerHex(d)] + rest)
      == Some((4096 * a + 256 * b + 16 * c + d, 6))
  {
    HexRoundTrip(a);
    HexRoundTrip(b);
    HexRoundTrip(c);
    HexRoundTrip(d);
    var t := [BACKSLASH, 117, LowerHex(a), LowerHex(b), LowerHex(c), LowerHex(d)] + rest;
    assert t[0] == BACKSLASH && t[1] == 117 && t[2] == LowerHex(a) && t[3] == LowerHex(b);
    assert t[4] == LowerHex(c) && t[5] == LowerHex(d);
  }

  lemma ReadsShort(u: Unit, rest: Str)
    requires ShortEscape(u).Some?
    ensures ReadUnit([BACKSLASH, ShortEscape(u).value] + rest) == Some((u, 2))
  {
    var t := [BACKSLASH, ShortEscape(u).value] + rest;
    assert t[0] == BACKSLASH && t[1] == ShortEscape(u).value;
  }

  lemma ReadsEscapedUnit(u: Unit, rest: Str)
    ensures ReadUnit(EscapeUnit(u) + rest) == Some((u, |EscapeUnit(u)|))
  {
    if ShortEscape(u).Some? {
      ReadsShort(u, rest);
    } else if u < 0x20 || IsHigh(u) || IsLow(u) {
      FourDigits(u);
      ReadsHex(u / 4096, u / 256 % 16, u / 16 % 16, u % 16, rest);
    } else {
      assert ([u] + rest)[0] == u;
    }
  }

  lemma ReadStringStep(u: Unit, escaped: Str, s: Str, tail: Str, rest: Str)
    requires escaped != [] && escaped[0] != QUOTE
    requires ReadUnit(escaped + tail) == Some((u, |escaped|))
    requires ReadString(tail) == Some((s, rest))
    ensures ReadString(escaped + tail) == Some(([u] + s, rest))
  {
    assert (escaped + tail)[|escaped|..] == tail;
  }

  lemma EscapeUnitStart(u: Unit)
    ensures EscapeUnit(u) != [] && EscapeUnit(u)[0] != QUOTE
  {
  }

  lemma ReadsPair(s: Str, tail: Str, rest: Str)
    requires |s| > 1 && IsHigh(s[0]) && IsLow(s[1])
    requires ReadString(tail) == Some((s[2..], rest))
    ensures ReadString([s[0], s[1]] + tail) == Some((s, rest))
  {
    ReadStringStep(s[1], [s[1]], s[2..], tail, rest);
    assert [s[1]] + s[2..] == s[1..];
    ReadStringStep(s[0], [s[0]], s[1..], [s[1]] + tail, rest);
    assert [s[0]] + s[1..] == s;
    assert [s[0], s[1]] + tail == [s[0]] + ([s[1]] + tail);
  }

  lemma ReadsSingle(s: Str, tail: Str, rest: Str)
    requires |s| > 0
    requires ReadString(tail) == Some((s[1..], rest))
    ensures ReadString(EscapeUnit(s[0]) + tail) == Some((s, rest))
  {
    EscapeUnitStart(s[0]);
    ReadsEscapedUnit(s[0], tail);
    ReadStringStep(s[0], EscapeUnit(s[0]), s[1..], tail, rest);
    assert [s[0]] + s[1..] == s;
  }

  lemma Associative(a: Str, b: Str, c: Str)
    ensures a + b + c == a + (b + c)
  {
  }

  lemma ReadsClosing(rest: Str)
    ensures ReadString([] + ([QUOTE] + rest)) == Some(([], rest))
  {
    var close := [QUOTE] + rest;
    assert [] + close == close;
    assert close[1..] == rest;
  }

  /** Reading back a quoted string gives the string, whatever code units it holds. */
  lemma {:induction false} ReadsQuoted(s: Str, rest: Str)
    ensures ReadString(Escape(s) + ([QUOTE] + rest)) == Some((s, rest))
    decreases |s|
  {
    var close := [QUOTE] + rest;
    if s == [] {
      ReadsClosing(rest);
    } else if |s| > 1 && IsHigh(s[0]) && IsLow(s[1]) {
      ReadsQuoted(s[2..], rest);
      ReadsPair(s, Escape(s[2..]) + close, rest);
      Associative([s[0], s[1]], Escape(s[2..]), close);
    } else {
      ReadsQuoted(s[1..], rest);
      ReadsSingle(s, Escape(s[1..]) + close, rest);
      Associative(EscapeUnit(s[0]), Escape(s[1..]), close);
    }
  }

  /** A number field. JSON prints every non-finite number as `null`. */
  datatype Number = Finite(n: int) | NonFinite

  const NULL_TEXT: Str := [110, 117, 108, 108]

  function NumberText(x: Number): Str
  {
    match x
    case Finite(n) => Decimal(n)
    case NonFinite => NULL_TEXT
  }

  /** The fields of an assignment that decide whether an approval is about it. */
  datatype Evidence = Evidence(
    scheduledMatchId: Option<Str>,
    roundRevision: Option<Number>,
    assignmentRevision: Option<Number>,
    unsupportedProcedureVersion: Option<Number>)
  {
    predicate Keyed()
    {
      && scheduledMatchId.Some? && scheduledMatchId.value != []
      && roundRevision.Some?
      && assignmentRevision.Some?
    }

    predicate AllFinite()
    {
      && (roundRevision.Some? ==> roundRevision.value.Finite?)
      && (assignmentRevision.Some? ==> assignmentRevision.value.Finite?)
      && (unsupportedProcedureVersion.Some? ==> unsupportedProcedureVersion.value.Finite?)
    }
  }

  function VersionText(v: Option<Number>): Str
  {
    if v.Some? then NumberText(v.value) else NULL_TEXT
  }

  function AfterId(e: Evidence): Str
    requires e.Keyed()
  {
    [COMMA] + (NumberText(e.roundRevision.value)
    + [COMMA] + (NumberText(e.assignmentRevision.value)
    + [COMMA] + (VersionText(e.unsupportedProcedureVersion) + [93])))
  }

  /** `procedureAssignmentKey`. */
  function Key(e: Evidence): Option<Str>
  {
    if e.Keyed() then Some([91, QUOTE] + (Escape(e.scheduledMatchId.value) + ([QUOTE] + AfterId(e))))
    else None
  }

  /** `hasApprovedProcedure`. */
  predicate HasApproved(approvedKey: Option<Str>, e: Evidence)
  {
    Key(e).Some? && approvedKey == Key(e)
  }

  lemma {:induction false} CommaSplits(x1: Str, y1: Str, x2: Str, y2: Str)
    requires COMMA !in x1 && COMMA !in x2
    requires x1 + [COMMA] + y1 == x2 + [COMMA] + y2
    ensures x1 == x2 && y1 == y2
  {
    var a, b := x1 + [COMMA] + y1, x2 + [COMMA] + y2;
    assert a[|x1|] == COMMA && b[|x2|] == COMMA;
    assert forall i :: 0 <= i < |x1| ==> a[i] == x1[i];
    assert forall i :: 0 <= i < |x2| ==> b[i] == x2[i];
    assert x1 == a[..|x1|] && x2 == b[..|x2|];
    assert y1 == a[|x1| + 1..] && y2 == b[|x2| + 1..];
  }

  /** What the printed form of a number still says about it. */
  function Printed(x: Number): Option<int>
  {
    if x.Finite? then Some(x.n) else None
  }

  lemma NumberTextInjective(x: Number, y: Number)
    requires NumberText(x) == NumberText(y)
    ensures Printed(x) == Printed(y)
  {
    assert NULL_TEXT[0] == 110;
    assert x.Finite? ==> NumberText(x)[0] != 110;
    assert y.Finite? ==> NumberText(y)[0] != 110;
    if x.Finite? {
      DecimalInjective(x.n, y.n);
    }
  }

  function PrintedVersion(v: Option<Number>): Option<int>
  {
    if v.Some? then Printed(v.value) else None
  }

  predicate SameEvidence(e: Evidence, f: Evidence)
    requires e.Keyed() && f.Keyed()
  {
    && e.scheduledMatchId == f.scheduledMatchId
    && Printed(e.roundRevision.value) == Printed(f.roundRevision.value)
    && Printed(e.assignmentRevision.value) == Printed(f.assignmentRevision.value)
    && PrintedVersion(e.unsupportedProcedureVersion) == PrintedVersion(f.unsupportedProcedureVersion)
  }

  lemma AfterIdInjective(e: Evidence, f: Evidence)
    requires e.Keyed() && f.Keyed() && AfterId(e) == AfterId(f)
    ensures Printed(e.roundRevision.value) == Printed(f.roundRevision.value)
    ensures Printed(e.assignmentRevision.value) == Printed(f.assignmentRevision.value)
    ensures PrintedVersion(e.unsupportedProcedureVersion) == PrintedVersion(f.unsupportedProcedureVersion)
  {
    var r1, r2 := NumberText(e.roundRevision.value), NumberText(f.roundRevision.value);
    var a1, a2 := NumberText(e.assignmentRevision.value), NumberText(f.assignmentRevision.value);
    var v1, v2 := VersionText(e.unsupportedProcedureVersion), VersionText(f.unsupportedProcedureVersion);
    var q1 := a1 + [COMMA] + (v1 + [93]);
    var q2 := a2 + [COMMA] + (v2 + [93]);
    assert AfterId(e)[1..] == r1 + [COMMA] + q1;
    assert AfterId(f)[1..] == r2 + [COMMA] + q2;
    CommaSplits(r1, q1, r2, q2);
    CommaSplits(a1, v1 + [93], a2, v2 + [93]);
    assert v1 == (v1 + [93])[..|v1|] && v2 == (v2 + [93])[..|v2|];
    NumberTextInjective(e.roundRevision.value, f.roundRevision.value);
    NumberTextInjective(e.assignmentRevision.value, f.assignmentRevision.value);
    var n1 := if e.unsupportedProcedureVersion.Some? then e.unsupportedProcedureVersion.value else NonFinite;
    var n2 := if f.unsupportedProcedureVersion.Some? then f.unsupportedProcedureVersion.value else NonFinite;
    NumberTextInjective(n1, n2);
  }

  /** Two keyed assignments share a key exactly when they agree on all four fields as JSON prints them. */
  lemma KeyDecidesEvidence(e: Evidence, f: Evidence)
    requires e.Keyed() && f.Keyed()
    ensures Key(e) == Key(f) <==> SameEvidence(e, f)
  {
    if Key(e) == Key(f) {
      var k1, k2 := Key(e).value, Key(f).value;
      assert k1[2..] == Escape(e.scheduledMatchId.value) + ([QUOTE] + AfterId(e));
      assert k2[2..] == Escape(f.scheduledMatchId.value) + ([QUOTE] + AfterId(f));
      ReadsQuoted(e.scheduledMatchId.value, AfterId(e));
      ReadsQuoted(f.scheduledMatchId.value, AfterId(f));
      AfterIdInjective(e, f);
    }
  }

  /** With finite numbers, an approved key is about one match, one pair of revisions and one version. */
  lemma ApprovalIsExact(approved: Evidence, current: Evidence)
    requires approved.AllFinite() && current.AllFinite()
    ensures HasApproved(Key(approved), current) <==> approved.Keyed() && approved == current
  {
    if approved.Keyed() && current.Keyed() {
      KeyDecidesEvidence(approved, current);
    }
  }

  /** What a document says about how the room conducts the game; `Unusable` is no version, or none that is finite. */
  datatype Stated = Nothing | NotAnObject | Unusable | Version(n: int)

  /** This build reads versions one to three. */
  predicate Unreadable(s: Stated) { !s.Nothing? && !(s.Version? && 1 <= s.n <= 3) }

  /** What is kept of a version this build does not know (src/qbj/QbtcpExtension.ts). */
  function StoredVersion(s: Stated): Option<Number>
  {
    if !Unreadable(s) then None else Some(Finite(if s.Version? then s.n else 0))
  }

  function AboutVersion(id: Str, round: int, revision: int, s: Stated): Evidence
  {
    Evidence(Some(id), Some(Finite(round)), Some(Finite(revision)), StoredVersion(s))
  }

  predicate StatesNone(s: Stated) { !s.Version? || s.n == 0 }

  /**
   * Of two procedures that cannot be read, the approval of one covers the other exactly when both state the
   * same version or neither states any, where a malformed block, a missing or infinite version and version
   * zero all state none.
   */
  lemma ApprovalCoversExactlyWhen(id: Str, round: int, revision: int, approved: Stated, current: Stated)
    requires id != [] && Unreadable(approved) && Unreadable(current)
    ensures HasApproved(Key(AboutVersion(id, round, revision, approved)), AboutVersion(id, round, revision, current))
      <==> approved == current || (StatesNone(approved) && StatesNone(current))
  {
    ApprovalIsExact(AboutVersion(id, round, revision, approved), AboutVersion(id, round, revision, current));
  }
}

// The last two steps of `redact` (src/app/ConnectionTimeline.ts) and the credential test of the leak
// scan (src/app/Diagnostics.ts), read as the regular expressions they are.
//
// The three label-driven replacements that `redact` makes first are a function `earlier` about which
// nothing is assumed: what is proved holds whatever they did to the text.
module Redaction {
  import opened Text

  const DETAIL_LIMIT := 200
  const LONG_RUN := 20
  const ELLIPSIS: Unit := 0x2026

  predicate IsWord(u: Unit) { IsAlnum(u) || u == 95 }

  predicate IsTokenish(u: Unit) { IsWord(u) || u == 45 }

  /** `\b` at position i. */
  predicate Boundary(s: Str, i: nat)
    requires i <= |s|
  {
    (i > 0 && IsWord(s[i - 1])) != (i < |s| && IsWord(s[i]))
  }

  /** The end of the run of token-ish units that starts at i, where the greedy match first tries to end. */
  function RunEnd(s: Str, i: nat): (e: nat)
    requires i <= |s|
    ensures i <= e <= |s|
    ensures forall j :: i <= j < e ==> IsTokenish(s[j])
    ensures e < |s| ==> !IsTokenish(s[e])
    decreases |s| - i
  {
    if i < |s| && IsTokenish(s[i]) then RunEnd(s, i + 1) else i
  }

  /** Backtracking: the last boundary from e down to lo. */
  function LastBoundary(s: Str, lo: nat, e: nat): (r: Option<nat>)
    requires e <= |s|
    ensures r.Some? ==> lo <= r.value <= e && Boundary(s, r.value)
    ensures r.Some? ==> forall j :: r.value < j <= e ==> !Boundary(s, j)
    ensures r.None? ==> forall j :: lo <= j <= e ==> !Boundary(s, j)
  {
    if e < lo then None
    else if Boundary(s, e) then Some(e)
    else if e == 0 then None
    else LastBoundary(s, lo, e - 1)
  }

  /** Where the match of `\b[A-Za-z0-9_-]{20,}\b` that starts at i ends, if one starts there. */
  function MatchEnd(s: Str, i: nat): (r: Option<nat>)
    requires i <= |s|
    ensures r.Some? ==> i + LONG_RUN <= r.value <= |s|
  {
    if Boundary(s, i) then LastBoundary(s, i + LONG_RUN, RunEnd(s, i)) else None
  }

  const REDACTED: Str := [91, 114, 101, 100, 97, 99, 116, 101, 100, 93]

  /** The global replacement, from position i on. */
  function Sweep(s: Str, i: nat): Str
    requires i <= |s|
    decreases |s| - i
  {
    if i == |s| then []
    else if MatchEnd(s, i).Some? then REDACTED + Sweep(s, MatchEnd(s, i).value)
    else [s[i]] + Sweep(s, i + 1)
  }

  function Truncate(s: Str): Str
  {
    if |s| > DETAIL_LIMIT then s[..DETAIL_LIMIT] + [ELLIPSIS] else s
  }

  function Redact(earlier: Str -> Str, text: Str): Str { Truncate(Sweep(earlier(text), 0)) }

  /** The earlier passes of `redact` replace what they match by text that is not empty. */
  ghost predicate LeavesText(earlier: Str -> Str)
  {
    forall t :: t != [] ==> earlier(t) != []
  }

  lemma RedactLeavesText(earlier: Str -> Str, text: Str)
    requires LeavesText(earlier) && text != []
    ensures Redact(earlier, text) != []
  {
    assert Sweep(earlier(text), 0) != [];
  }

  // --- what is struck out and what is kept ----------------------------------------------------------

  predicate TokenUnit(u: Unit) { IsLetter(u) || IsDigit(u) || u == 95 || u == 45 }

  /** The text changes at i between a letter, digit or underscore and anything else, its ends included. */
  predicate WordStarts(s: Str, i: nat)
    requires i <= |s|
  {
    (i > 0 && TokenUnit(s[i - 1]) && s[i - 1] != 45) != (i < |s| && TokenUnit(s[i]) && s[i] != 45)
  }

  /** Twenty or more token units from i to j, between two word boundaries. */
  predicate LongToken(s: Str, i: nat, j: nat)
  {
    i + 20 <= j <= |s| && (forall k :: i <= k < j ==> TokenUnit(s[k])) && WordStarts(s, i) && WordStarts(s, j)
  }

  datatype Part = Kept(u: Unit) | Struck(text: Str)

  /**
   * The text from i on, part by part: a long token is struck out where the first one starts and as far as one
   * goes, and every other unit is kept.
   */
  ghost predicate Splits(s: Str, i: nat, parts: seq<Part>)
    decreases |parts|
  {
    if parts == [] then i == |s|
    else
      match parts[0]
      case Kept(u) => i < |s| && u == s[i] && (forall j: nat :: !LongToken(s, i, j)) && Splits(s, i + 1, parts[1..])
      case Struck(t) =>
        && LongToken(s, i, i + |t|) && t == s[i..i + |t|] && (forall j: nat :: LongToken(s, i, j) ==> j <= i + |t|)
        && Splits(s, i + |t|, parts[1..])
  }

  function Printed(parts: seq<Part>): Str
  {
    if parts == [] then []
    else (match parts[0] case Kept(u) => [u] case Struck(_) => Lit("[redacted]")) + Printed(parts[1..])
  }

  function Shortened(s: Str): Str { if |s| <= 200 then s else s[..200] + [0x2026] }

  lemma MarkIsSpelled()
    ensures REDACTED == Lit("[redacted]")
  {
  }

  lemma MatchIsLongToken(s: Str, i: nat)
    requires i <= |s|
    ensures MatchEnd(s, i).Some? ==> LongToken(s, i, MatchEnd(s, i).value)
    ensures forall j: nat :: LongToken(s, i, j) ==> MatchEnd(s, i).Some? && j <= MatchEnd(s, i).value
  {
    assert forall k: nat :: k <= |s| ==> (WordStarts(s, k) <==> Boundary(s, k));
    assert forall u: Unit :: TokenUnit(u) <==> IsTokenish(u);
    forall j: nat | LongToken(s, i, j) ensures j <= RunEnd(s, i) && Boundary(s, j) {
      assert RunEnd(s, i) < |s| ==> !TokenUnit(s[RunEnd(s, i)]);
    }
  }

  lemma PartsJoin(first: Part, rest: seq<Part>)
    ensures ([first] + rest)[0] == first && ([first] + rest)[1..] == rest
  {
  }

  lemma {:induction false} SweepSplits(s: Str, i: nat) returns (parts: seq<Part>)
    requires i <= |s|
    ensures Splits(s, i, parts) && Sweep(s, i) == Printed(parts)
    decreases |s| - i
  {
    parts := [];
    if i < |s| {
      MatchIsLongToken(s, i);
      MarkIsSpelled();
      var end := MatchEnd(s, i);
      var rest := SweepSplits(s, if end.Some? then end.value else i + 1);
      var first := if end.Some? then Struck(s[i..end.value]) else Kept(s[i]);
      PartsJoin(first, rest);
      parts := [first] + rest;
    }
  }

  /**
   * Redacting strikes out exactly the long tokens of the text, leaves everything else in its order, and cuts what
   * that gives to two hundred units and an ellipsis only where it is longer.
   */
  lemma RedactStrikesOut(earlier: Str -> Str, text: Str)
    ensures exists parts :: Splits(earlier(text), 0, parts) && Redact(earlier, text) == Shortened(Printed(parts))
  {
    var parts := SweepSplits(earlier(text), 0);
  }

  /** There are never two ways to do that. */
  lemma {:induction false} SplitsOneWay(s: Str, i: nat, a: seq<Part>, b: seq<Part>)
    requires Splits(s, i, a) && Splits(s, i, b)
    ensures a == b
    decreases |a|
  {
    if a != [] && b != [] {
      match (a[0], b[0]) {
        case (Kept(_), Kept(_)) => SplitsOneWay(s, i + 1, a[1..], b[1..]);
        case (Struck(t), Struck(u)) =>
          assert |t| == |u|;
          SplitsOneWay(s, i + |t|, a[1..], b[1..]);
        case _ => assert false;
      }
      assert a == [a[0]] + a[1..] && b == [b[0]] + b[1..];
    }
  }

  /** No twenty token units in a row. */
  ghost predicate NoLongToken(s: Str)
  {
    forall i: nat, j: nat :: !LongToken(s, i, j)
  }

  lemma {:induction false} NothingStruck(s: Str, i: nat, parts: seq<Part>)
    requires NoLongToken(s) && i <= |s| && Splits(s, i, parts)
    ensures Printed(parts) == s[i..]
    decreases |parts|
  {
    if parts != [] {
      match parts[0] {
        case Kept(u) =>
          NothingStruck(s, i + 1, parts[1..]);
          assert s[i..] == [s[i]] + s[i + 1..];
        case Struck(_) => assert false;
      }
    }
  }

  /** A text without a long token is kept as it is, apart from the cut. */
  lemma PlainTextIsKept(earlier: Str -> Str, text: Str)
    requires NoLongToken(earlier(text))
    ensures Redact(earlier, text) == Shortened(earlier(text))
  {
    var s := earlier(text);
    var parts := SweepSplits(s, 0);
    NothingStruck(s, 0, parts);
    assert s[0..] == s;
  }

  // --- no long run survives -------------------------------------------------------------------------

  /** Something other than a letter, digit or underscore among the n units from i. */
  ghost predicate Broken(t: Str, i: nat, n: nat)
    requires i + n <= |t|
  {
    exists j :: i <= j < i + n && !IsWord(t[j])
  }

  /** No n consecutive letters, digits or underscores. */
  ghost predicate NoRun(t: Str, n: nat)
  {
    forall i: nat :: i + n <= |t| ==> Broken(t, i, n)
  }

  /** How many word units t starts with. */
  function Lead(t: Str): (k: nat)
    ensures k <= |t|
    ensures forall j :: 0 <= j < k ==> IsWord(t[j])
    ensures k < |t| ==> !IsWord(t[k])
  {
    if t != [] && IsWord(t[0]) then 1 + Lead(t[1..]) else 0
  }

  /** The end of the word starting at or around i. */
  function WordEnd(s: Str, i: nat): (e: nat)
    requires i <= |s|
    ensures i <= e <= |s|
    ensures forall j :: i <= j < e ==> IsWord(s[j])
    ensures e < |s| ==> !IsWord(s[e])
    decreases |s| - i
  {
    if i < |s| && IsWord(s[i]) then WordEnd(s, i + 1) else i
  }

  lemma ConsKeepsNoRun(c: Unit, t: Str)
    requires NoRun(t, LONG_RUN)
    requires IsWord(c) ==> 1 + Lead(t) < LONG_RUN
    ensures NoRun([c] + t, LONG_RUN)
    ensures Lead([c] + t) == if IsWord(c) then 1 + Lead(t) else 0
  {
    var u := [c] + t;
    assert u[1..] == t;
    forall i: nat | i + LONG_RUN <= |u| ensures Broken(u, i, LONG_RUN) {
      if i > 0 {
        assert Broken(t, i - 1, LONG_RUN);
        var j :| i - 1 <= j < i - 1 + LONG_RUN && !IsWord(t[j]);
        assert u[j + 1] == t[j];
      } else if IsWord(c) {
        assert u[1 + Lead(t)] == t[Lead(t)];
      } else {
        assert !IsWord(u[0]);
      }
    }
  }

  /** Prefixing the units r of a replacement, one at a time from the back. */
  lemma {:induction false} MarkKeepsNoRun(r: Str, t: Str)
    requires |r| <= 10 && NoRun(t, LONG_RUN)
    requires r != [] ==> !IsWord(r[|r| - 1])
    ensures NoRun(r + t, LONG_RUN)
    ensures Lead(r + t) <= if r == [] then Lead(t) else |r|
  {
    if r == [] {
      assert r + t == t;
    } else {
      if |r| == 1 {
        assert r[1..] + t == t;
      } else {
        MarkKeepsNoRun(r[1..], t);
      }
      ConsKeepsNoRun(r[0], r[1..] + t);
      assert r + t == [r[0]] + (r[1..] + t);
    }
  }

  lemma MarkLeavesNoRun(t: Str)
    requires NoRun(t, LONG_RUN)
    ensures NoRun(REDACTED + t, LONG_RUN) && Lead(REDACTED + t) == 0
  {
    MarkKeepsNoRun(REDACTED, t);
    assert (REDACTED + t)[0] == 91;
  }

  /** A word that starts at a boundary where nothing matched is short. */
  lemma UnmatchedWordIsShort(s: Str, b: nat)
    requires b < |s| && IsWord(s[b]) && Boundary(s, b) && MatchEnd(s, b).None?
    ensures WordEnd(s, b) < b + LONG_RUN
  {
    var w, e := WordEnd(s, b), RunEnd(s, b);
    assert w <= e;
    assert Boundary(s, w);
  }

  /** A match ends at the end of a word: what follows it does not go on. */
  lemma MatchEndsAWord(s: Str, i: nat)
    requires i <= |s| && MatchEnd(s, i).Some?
    ensures
      var e := MatchEnd(s, i).value;
      e == |s| || !IsWord(s[e])
  {
    var e := MatchEnd(s, i).value;
    if e < |s| && IsWord(s[e]) {
      var w := WordEnd(s, e);
      assert w <= RunEnd(s, i);
      assert Boundary(s, w);
    }
  }

  /** At i the scan has copied s[b..i], a word so far, and found no match where that word began. */
  ghost predicate Scanned(s: Str, b: nat, i: nat)
  {
    && b <= i <= |s|
    && (forall j :: b <= j < i ==> IsWord(s[j]))
    && (if b < i then Boundary(s, b) && MatchEnd(s, b).None?
        else i == |s| || !IsWord(s[i]) || i == 0 || !IsWord(s[i - 1]))
  }

  lemma CopiedIsShort(s: Str, b: nat, i: nat)
    requires Scanned(s, b, i)
    ensures i - b < LONG_RUN
  {
    if b < i {
      UnmatchedWordIsShort(s, b);
    }
  }

  lemma {:induction false} SweepLeavesNoRun(s: Str, b: nat, i: nat)
    requires Scanned(s, b, i)
    ensures NoRun(Sweep(s, i), LONG_RUN) && (i - b) + Lead(Sweep(s, i)) < LONG_RUN
    decreases |s| - i
  {
    CopiedIsShort(s, b, i);
    if i == |s| {
    } else if MatchEnd(s, i).Some? {
      var e := MatchEnd(s, i).value;
      MatchEndsAWord(s, i);
      SweepLeavesNoRun(s, e, e);
      MarkLeavesNoRun(Sweep(s, e));
    } else {
      var b' := if !IsWord(s[i]) then i + 1 else b;
      SweepLeavesNoRun(s, b', i + 1);
      ConsKeepsNoRun(s[i], Sweep(s, i + 1));
    }
  }

  lemma TruncateKeepsNoRun(t: Str)
    requires NoRun(t, LONG_RUN)
    ensures NoRun(Truncate(t), LONG_RUN) && |Truncate(t)| <= DETAIL_LIMIT + 1
  {
    var u := Truncate(t);
    if |t| > DETAIL_LIMIT {
      forall i: nat | i + LONG_RUN <= |u| ensures Broken(u, i, LONG_RUN) {
        if i + LONG_RUN <= DETAIL_LIMIT {
          assert Broken(t, i, LONG_RUN);
          var j :| i <= j < i + LONG_RUN && !IsWord(t[j]);
          assert u[j] == t[j];
        } else {
          assert u[DETAIL_LIMIT] == ELLIPSIS;
        }
      }
    }
  }

  /** Whatever the text and whatever the earlier passes did, a redacted text has no long run of word units. */
  lemma RedactedHasNoLongRun(earlier: Str -> Str, text: Str)
    ensures NoRun(Redact(earlier, text), LONG_RUN)
    ensures |Redact(earlier, text)| <= DETAIL_LIMIT + 1
  {
    SweepLeavesNoRun(earlier(text), 0, 0);
    TruncateKeepsNoRun(Sweep(earlier(text), 0));
  }

  // --- the credential test --------------------------------------------------------------------------

  const CREDENTIAL_RUN := 24

  function AlnumEnd(s: Str, i: nat): (e: nat)
    requires i <= |s|
    ensures i <= e <= |s|
    ensures forall j :: i <= j < e ==> IsAlnum(s[j])
    ensures e < |s| ==> !IsAlnum(s[e])
    decreases |s| - i
  {
    if i < |s| && IsAlnum(s[i]) then AlnumEnd(s, i + 1) else i
  }

  /** A digit and a letter between two positions. */
  predicate Mixed(s: Str, i: nat, e: nat)
    requires e <= |s|
  {
    (exists j :: i <= j < e && IsDigit(s[j])) && (exists j :: i <= j < e && IsLetter(s[j]))
  }

  /** `unlabelledCredential` matching at i: a long run from i on, with a digit and a letter in it. */
  predicate CredentialAt(s: Str, i: nat)
    requires i <= |s|
  {
    var e := AlnumEnd(s, i);
    && i + CREDENTIAL_RUN <= e
    && Mixed(s, i, e)
  }

  predicate Credential(s: Str)
  {
    exists i :: 0 <= i < |s| && CredentialAt(s, i)
  }

  /** Equivalently, some whole run of letters and digits is that long and has both. */
  ghost predicate WholeRun(s: Str, a: nat, b: nat)
  {
    && a < b <= |s| && (forall j :: a <= j < b ==> IsAlnum(s[j]))
    && (a > 0 ==> !IsAlnum(s[a - 1])) && (b < |s| ==> !IsAlnum(s[b]))
  }

  function RunStart(s: Str, i: nat): (a: nat)
    requires i <= |s|
    ensures a <= i && (forall j :: a <= j < i ==> IsAlnum(s[j])) && (a > 0 ==> !IsAlnum(s[a - 1]))
  {
    if i > 0 && IsAlnum(s[i - 1]) then RunStart(s, i - 1) else i
  }

  lemma CredentialIsAWholeRun(s: Str)
    ensures Credential(s) <==>
      exists a: nat, b: nat :: WholeRun(s, a, b) && b - a >= 24 && Mixed(s, a, b)
  {
    if Credential(s) {
      var i :| 0 <= i < |s| && CredentialAt(s, i);
      assert WholeRun(s, RunStart(s, i), AlnumEnd(s, i));
    }
    if a: nat, b: nat :| WholeRun(s, a, b) && b - a >= 24 && Mixed(s, a, b) {
      assert AlnumEnd(s, a) == b;
      assert CredentialAt(s, a);
    }
  }

  lemma RunsEndAlike(s: Str, i: nat, t: Str, j: nat, e: nat)
    requires i <= e <= |s| && j + (e - i) <= |t| && (forall k :: i <= k < e ==> IsAlnum(s[k]) && t[j + (k - i)] == s[k])
    requires (e < |s| ==> !IsAlnum(s[e])) && (j + (e - i) < |t| ==> !IsAlnum(t[j + (e - i)]))
    ensures CredentialAt(s, i) <==> CredentialAt(t, j)
  {
    var d := j + (e - i);
    assert AlnumEnd(s, i) == e;
    assert forall k :: j <= k < d ==> t[k] == s[i + (k - j)];
    assert AlnumEnd(t, j) == d;
    MixedMoves(s, i, t, j, e - i);
    MixedMoves(t, j, s, i, e - i);
  }

  lemma MixedMoves(s: Str, i: nat, t: Str, j: nat, n: nat)
    requires i + n <= |s| && j + n <= |t| && forall k :: i <= k < i + n ==> t[j + (k - i)] == s[k]
    ensures Mixed(s, i, i + n) ==> Mixed(t, j, j + n)
  {
    if Mixed(s, i, i + n) {
      var digit :| i <= digit < i + n && IsDigit(s[digit]);
      var letter :| i <= letter < i + n && IsLetter(s[letter]);
      assert IsDigit(t[j + (digit - i)]) && IsLetter(t[j + (letter - i)]);
    }
  }

  lemma NoneInFront(a: Str, u: Unit, b: Str, i: nat)
    requires !IsAlnum(u) && i < |a| && !CredentialAt(a, i)
    ensures !CredentialAt(a + ([u] + b), i)
  {
    var s := a + ([u] + b);
    assert s[|a|] == u && forall k :: 0 <= k < |a| ==> s[k] == a[k];
    var e := AlnumEnd(s, i);
    assert e <= |a|;
    RunsEndAlike(s, i, a, i, e);
  }

  lemma NoneBehind(a: Str, u: Unit, b: Str, i: nat)
    requires |a| < i < |a| + 1 + |b| && !CredentialAt(b, i - |a| - 1)
    ensures !CredentialAt(a + ([u] + b), i)
  {
    var s, n := a + ([u] + b), |a| + 1;
    assert forall k :: n <= k < |s| ==> s[k] == b[k - n];
    RunsEndAlike(s, i, b, i - n, AlnumEnd(s, i));
  }

  /** Texts joined by anything but a letter or digit hold a credential only if one of them does. */
  lemma JoinedIsNoCredential(a: Str, u: Unit, b: Str)
    requires !IsAlnum(u) && !Credential(a) && !Credential(b)
    ensures !Credential(a + ([u] + b))
  {
    var s := a + ([u] + b);
    forall i: nat | i < |s| ensures !CredentialAt(s, i) {
      if i < |a| {
        NoneInFront(a, u, b, i);
      } else if i > |a| {
        NoneBehind(a, u, b, i);
      } else {
        assert s[i] == u;
      }
    }
  }

  /** So the leak scan never objects to a redacted text, and no later cut of one can change that. */
  lemma RedactedIsNeverACredential(earlier: Str -> Str, text: Str, cut: nat)
    ensures !Credential(Redact(earlier, text))
    ensures cut <= |Redact(earlier, text)| ==> !Credential(Redact(earlier, text)[..cut])
  {
    RedactedHasNoLongRun(earlier, text);
    NoRunNoCredential(Redact(earlier, text));
    if cut <= |Redact(earlier, text)| {
      NoRunPrefix(Redact(earlier, text), cut);
      NoRunNoCredential(Redact(earlier, text)[..cut]);
    }
  }

  lemma NoRunPrefix(t: Str, cut: nat)
    requires NoRun(t, LONG_RUN) && cut <= |t|
    ensures NoRun(t[..cut], LONG_RUN)
  {
    forall i: nat | i + LONG_RUN <= cut ensures Broken(t[..cut], i, LONG_RUN) {
      assert Broken(t, i, LONG_RUN);
      var j :| i <= j < i + LONG_RUN && !IsWord(t[j]);
      assert t[..cut][j] == t[j];
    }
  }

  lemma NoRunNoCredential(t: Str)
    requires NoRun(t, LONG_RUN)
    ensures !Credential(t)
  {
    forall i | 0 <= i < |t| ensures !CredentialAt(t, i) {
      if i + LONG_RUN <= |t| {
        assert Broken(t, i, LONG_RUN);
      }
    }
  }
}

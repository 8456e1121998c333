// Percent decoding as `decodeURIComponent` does it, over UTF-16 code units: the escapes are octets of UTF-8
// (section 3 of RFC 3629), and what they spell is put back as code units.
module PercentCoding {
  import opened Text

  const PERCENT: Unit := 37
  const PLUS: Unit := 43
  const SPACE: Unit := 32

  type Octet = b: int | 0 <= b < 0x100

  /** The octet escaped at position i, if an escape stands there. */
  function OctetAt(s: Str, i: nat): (b: Option<Octet>)
    ensures b.Some? ==> i + 3 <= |s|
  {
    if i + 3 <= |s| && s[i] == PERCENT && HexValue(s[i + 1]).Some? && HexValue(s[i + 2]).Some?
    then Some(HexValue(s[i + 1]).value * 16 + HexValue(s[i + 2]).value) else None
  }

  /** The six bits of a continuation octet escaped at position i. */
  function TailAt(s: Str, i: nat): (b: Option<nat>)
    ensures b.Some? ==> i + 3 <= |s| && b.value < 64
  {
    var o := OctetAt(s, i);
    if o.Some? && 0x80 <= o.value < 0xC0 then Some(o.value - 0x80) else None
  }

  /** A Unicode scalar value. */
  type Scalar = c: int | 0 <= c < 0xD800 || 0xE000 <= c < 0x110000

  function Units(c: Scalar): (u: Str)
    ensures 1 <= |u| <= 2
  {
    if c < 0x10000 then [c] else [0xD800 + (c - 0x10000) / 0x400, 0xDC00 + (c - 0x10000) % 0x400]
  }

  function UnitsOf(cs: seq<Scalar>): Str
  {
    if cs == [] then [] else Units(cs[0]) + UnitsOf(cs[1..])
  }

  function Paired(high: int, low: int): Scalar
    requires 0xD800 <= high < 0xDC00 && 0xDC00 <= low < 0xE000
  {
    0x10000 + (high - 0xD800) * 0x400 + (low - 0xDC00)
  }

  lemma PairedIsPaired(high: Unit, low: Unit)
    requires IsHigh(high) && IsLow(low)
    ensures Units(Paired(high, low)) == [high, low]
  {
  }

  lemma UnitsOfMore(c: Scalar, rest: seq<Scalar>)
    ensures UnitsOf([c] + rest) == Units(c) + UnitsOf(rest)
  {
    assert ([c] + rest)[1..] == rest;
  }

  lemma SplitTwo(s: Str)
    requires |s| > 1
    ensures s == [s[0], s[1]] + s[2..]
  {
  }

  /** The scalar values of a string; None when it is not well-formed UTF-16. */
  function Scalars(s: Str): (r: Option<seq<Scalar>>)
    ensures r.Some? ==> UnitsOf(r.value) == s
  {
    if s == [] then Some([])
    else if IsHigh(s[0]) && |s| > 1 && IsLow(s[1]) then
      var rest := Scalars(s[2..]);
      PairedIsPaired(s[0], s[1]);
      SplitTwo(s);
      if rest.Some? then
        UnitsOfMore(Paired(s[0], s[1]), rest.value);
        Some([Paired(s[0], s[1])] + rest.value)
      else None
    else if IsHigh(s[0]) || IsLow(s[0]) then None
    else
      var rest := Scalars(s[1..]);
      if rest.Some? then
        UnitsOfMore(s[0] as Scalar, rest.value);
        Some([s[0] as Scalar] + rest.value)
      else None
  }

  /** An escaped character: its scalar value and how many octets spell it. */
  datatype Spelled = Spelled(scalar: Scalar, octets: nat)

  /** Shortest form only, no surrogates, nothing above U+10FFFF. */
  function ReadEscaped(s: Str): (r: Option<Spelled>)
    ensures r.Some? ==> 1 <= r.value.octets && 3 * r.value.octets <= |s|
  {
    var lead := OctetAt(s, 0);
    if lead.None? then None
    else if lead.value < 0x80 then Some(Spelled(lead.value, 1))
    else if 0xC0 <= lead.value < 0xE0 then
      var b := TailAt(s, 3);
      if b.None? then None
      else
        var c := (lead.value - 0xC0) * 64 + b.value;
        if c >= 0x80 then Some(Spelled(c, 2)) else None
    else if 0xE0 <= lead.value < 0xF0 then
      var b, d := TailAt(s, 3), TailAt(s, 6);
      if b.None? || d.None? then None
      else
        var c := (lead.value - 0xE0) * 4096 + b.value * 64 + d.value;
        if c >= 0x800 && !(0xD800 <= c < 0xE000) then Some(Spelled(c, 3)) else None
    else if 0xF0 <= lead.value < 0xF8 then
      var b, d, e := TailAt(s, 3), TailAt(s, 6), TailAt(s, 9);
      if b.None? || d.None? || e.None? then None
      else
        var c := (lead.value - 0xF0) * 262144 + b.value * 4096 + d.value * 64 + e.value;
        if 0x10000 <= c < 0x110000 then Some(Spelled(c, 4)) else None
    else None
  }

  /** `decodeURIComponent`; None is the error it throws. */
  function Decode(s: Str): Option<Str>
    decreases |s|
  {
    if s == [] then Some([])
    else if s[0] != PERCENT then
      var rest := Decode(s[1..]);
      if rest.Some? then Some([s[0]] + rest.value) else None
    else
      var c := ReadEscaped(s);
      if c.None? then None
      else
        var rest := Decode(s[3 * c.value.octets..]);
        if rest.Some? then Some(Units(c.value.scalar) + rest.value) else None
  }

  /** `replace(/\+/g, ' ')`. */
  function Spaced(s: Str): (r: Str)
    ensures |r| == |s|
    ensures forall i :: 0 <= i < |s| ==> r[i] == if s[i] == PLUS then SPACE else s[i]
  {
    seq(|s|, i requires 0 <= i < |s| => if s[i] == PLUS then SPACE else s[i])
  }

  function DecodeComponent(raw: Str): Option<Str> { Decode(Spaced(raw)) }

  // --- encoders -------------------------------------------------------------------------------------

  function Escape(b: Octet): (r: Str)
    ensures |r| == 3
  {
    [PERCENT, UpperHex(b / 16), UpperHex(b % 16)]
  }

  function EscapeTwo(a: nat, b: nat): (r: Str)
    requires a < 32 && b < 64
    ensures |r| == 6
  {
    Escape(0xC0 + a) + Escape(0x80 + b)
  }

  function EscapeThree(a: nat, b: nat, d: nat): (r: Str)
    requires a < 16 && b < 64 && d < 64
    ensures |r| == 9
  {
    Escape(0xE0 + a) + Escape(0x80 + b) + Escape(0x80 + d)
  }

  function EscapeFour(a: nat, b: nat, d: nat, e: nat): (r: Str)
    requires a < 8 && b < 64 && d < 64 && e < 64
    ensures |r| == 12
  {
    Escape(0xF0 + a) + Escape(0x80 + b) + Escape(0x80 + d) + Escape(0x80 + e)
  }

  /** The UTF-8 octets of a scalar value, escaped. */
  function EscapeScalar(c: Scalar): (r: Str)
    ensures |r| == 3 * Octets(c)
  {
    if c < 0x80 then Escape(c)
    else if c < 0x800 then EscapeTwo(c / 64, c % 64)
    else if c < 0x10000 then EscapeThree(c / 4096, c / 64 % 64, c % 64)
    else EscapeFour(c / 262144, c / 4096 % 64, c / 64 % 64, c % 64)
  }

  /**
   * A style of encoding: which characters stand for themselves, and whether a space becomes a plus. Both
   * `encodeURIComponent` and the form serializer (section 5 of the WHATWG URL Standard) are styles.
   */
  datatype Style = Style(plain: set<Unit>, plusForSpace: bool)

  const COMPONENT := Style(
    (set u: Unit | IsAlnum(u)) + {45, 95, 46, 33, 126, 42, 39, 40, 41}, false)

  const FORM := Style((set u: Unit | IsAlnum(u)) + {45, 95, 46, 42}, true)

  /** A style leaves alone neither what is not ASCII nor what means something in a query. */
  predicate Proper(style: Style)
  {
    forall u :: u in style.plain ==> u < 0x80 && u != PERCENT && u != PLUS && u != 38 && u != 61 && u != 35
  }

  function EncodeScalar(style: Style, c: Scalar): Str
  {
    if c == SPACE && style.plusForSpace then [PLUS]
    else if c < 0x80 && c in style.plain then [c]
    else EscapeScalar(c)
  }

  function Encode(style: Style, cs: seq<Scalar>): Str
  {
    if cs == [] then [] else EncodeScalar(style, cs[0]) + Encode(style, cs[1..])
  }

  lemma OctetRoundTrip(before: Str, b: Octet, after: Str)
    ensures OctetAt(before + Escape(b) + after, |before|) == Some(b)
  {
    HexRoundTrip(b / 16);
    HexRoundTrip(b % 16);
    var s := before + Escape(b) + after;
    assert s[|before|] == PERCENT && s[|before| + 1] == UpperHex(b / 16) && s[|before| + 2] == UpperHex(b % 16);
  }

  lemma TwoOctets(a: Octet, b: Octet, after: Str)
    ensures
      var s := Escape(a) + Escape(b) + after;
      OctetAt(s, 0) == Some(a) && OctetAt(s, 3) == Some(b)
  {
    OctetRoundTrip([], a, Escape(b) + after);
    OctetRoundTrip(Escape(a), b, after);
    assert [] + Escape(a) + (Escape(b) + after) == Escape(a) + Escape(b) + after;
  }

  lemma FourOctets(a: Octet, b: Octet, c: Octet, d: Octet, after: Str)
    ensures
      var s := Escape(a) + Escape(b) + Escape(c) + Escape(d) + after;
      OctetAt(s, 0) == Some(a) && OctetAt(s, 3) == Some(b) && OctetAt(s, 6) == Some(c) && OctetAt(s, 9) == Some(d)
  {
    var s := Escape(a) + Escape(b) + Escape(c) + Escape(d) + after;
    TwoOctets(a, b, Escape(c) + Escape(d) + after);
    assert Escape(a) + Escape(b) + (Escape(c) + Escape(d) + after) == s;
    OctetRoundTrip(Escape(a) + Escape(b), c, Escape(d) + after);
    assert Escape(a) + Escape(b) + Escape(c) + (Escape(d) + after) == s;
    OctetRoundTrip(Escape(a) + Escape(b) + Escape(c), d, after);
  }

  lemma ThreeOctets(a: Octet, b: Octet, c: Octet, after: Str)
    ensures
      var s := Escape(a) + Escape(b) + Escape(c) + after;
      OctetAt(s, 0) == Some(a) && OctetAt(s, 3) == Some(b) && OctetAt(s, 6) == Some(c)
  {
    var s := Escape(a) + Escape(b) + Escape(c) + after;
    TwoOctets(a, b, Escape(c) + after);
    assert Escape(a) + Escape(b) + (Escape(c) + after) == s;
    OctetRoundTrip(Escape(a) + Escape(b), c, after);
  }

  function Octets(c: Scalar): nat { if c < 0x80 then 1 else if c < 0x800 then 2 else if c < 0x10000 then 3 else 4 }

  lemma ReadsTwo(a: nat, b: nat, after: Str)
    requires a < 32 && b < 64 && a * 64 + b >= 0x80
    ensures ReadEscaped(EscapeTwo(a, b) + after) == Some(Spelled(a * 64 + b, 2))
  {
    TwoOctets(0xC0 + a, 0x80 + b, after);
  }

  lemma SpellsThree(s: Str, a: nat, b: nat, d: nat)
    requires a < 16 && b < 64 && d < 64
    requires OctetAt(s, 0) == Some(0xE0 + a) && OctetAt(s, 3) == Some(0x80 + b) && OctetAt(s, 6) == Some(0x80 + d)
    requires var c := a * 4096 + b * 64 + d; c >= 0x800 && !(0xD800 <= c < 0xE000)
    ensures ReadEscaped(s) == Some(Spelled(a * 4096 + b * 64 + d, 3))
  {
  }

  lemma SpellsFour(s: Str, a: nat, b: nat, d: nat, e: nat)
    requires a < 8 && b < 64 && d < 64 && e < 64
    requires OctetAt(s, 0) == Some(0xF0 + a) && OctetAt(s, 3) == Some(0x80 + b)
    requires OctetAt(s, 6) == Some(0x80 + d) && OctetAt(s, 9) == Some(0x80 + e)
    requires 0x10000 <= a * 262144 + b * 4096 + d * 64 + e < 0x110000
    ensures ReadEscaped(s) == Some(Spelled(a * 262144 + b * 4096 + d * 64 + e, 4))
  {
  }

  lemma ReadsThree(a: nat, b: nat, d: nat, after: Str)
    requires a < 16 && b < 64 && d < 64
    requires var c := a * 4096 + b * 64 + d; c >= 0x800 && !(0xD800 <= c < 0xE000)
    ensures ReadEscaped(EscapeThree(a, b, d) + after)
      == Some(Spelled(a * 4096 + b * 64 + d, 3))
  {
    ThreeOctets(0xE0 + a, 0x80 + b, 0x80 + d, after);
    SpellsThree(EscapeThree(a, b, d) + after, a, b, d);
  }

  lemma ReadsFour(a: nat, b: nat, d: nat, e: nat, after: Str)
    requires a < 8 && b < 64 && d < 64 && e < 64
    requires 0x10000 <= a * 262144 + b * 4096 + d * 64 + e < 0x110000
    ensures ReadEscaped(EscapeFour(a, b, d, e) + after)
      == Some(Spelled(a * 262144 + b * 4096 + d * 64 + e, 4))
  {
    FourOctets(0xF0 + a, 0x80 + b, 0x80 + d, 0x80 + e, after);
    SpellsFour(EscapeFour(a, b, d, e) + after, a, b, d, e);
  }

  lemma Digits64(c: nat)
    requires c < 0x110000
    ensures c == c / 262144 * 262144 + c / 4096 % 64 * 4096 + c / 64 % 64 * 64 + c % 64
    ensures c / 262144 < 8
    ensures c < 0x10000 ==> c / 4096 < 16 && c == c / 4096 * 4096 + c / 64 % 64 * 64 + c % 64
    ensures c < 0x800 ==> c / 64 < 32
  {
  }

  lemma OneReadsBack(c: Scalar, after: Str)
    requires c < 0x80
    ensures ReadEscaped(Escape(c) + after) == Some(Spelled(c, 1))
  {
    OctetRoundTrip([], c, after);
    assert [] + Escape(c) + after == Escape(c) + after;
  }

  lemma TwoReadBack(c: Scalar, after: Str)
    requires 0x80 <= c < 0x800
    ensures ReadEscaped(EscapeScalar(c) + after) == Some(Spelled(c, 2))
  {
    Digits64(c);
    ReadsTwo(c / 64, c % 64, after);
  }

  lemma ThreeReadBack(c: Scalar, after: Str)
    requires 0x800 <= c < 0x10000
    ensures ReadEscaped(EscapeScalar(c) + after) == Some(Spelled(c, 3))
  {
    Digits64(c);
    ReadsThree(c / 4096, c / 64 % 64, c % 64, after);
  }

  lemma FourReadBack(c: Scalar, after: Str)
    requires 0x10000 <= c
    ensures ReadEscaped(EscapeScalar(c) + after) == Some(Spelled(c, 4))
  {
    Digits64(c);
    ReadsFour(c / 262144, c / 4096 % 64, c / 64 % 64, c % 64, after);
  }

  /** What is escaped is read back, whatever follows it. */
  lemma EscapedReadsBack(c: Scalar, after: Str)
    ensures ReadEscaped(EscapeScalar(c) + after) == Some(Spelled(c, Octets(c)))
  {
    if c < 0x80 {
      OneReadsBack(c, after);
    } else if c < 0x800 {
      TwoReadBack(c, after);
    } else if c < 0x10000 {
      ThreeReadBack(c, after);
    } else {
      FourReadBack(c, after);
    }
  }

  /** Letters, digits and percent signs. */
  predicate Escaped(s: Str) { forall i :: 0 <= i < |s| ==> IsAlnum(s[i]) || s[i] == PERCENT }

  lemma EscapeIsEscaped(b: Octet)
    ensures Escaped(Escape(b))
  {
  }

  lemma EscapeHasNoPlus(c: Scalar)
    ensures Escaped(EscapeScalar(c)) && Spaced(EscapeScalar(c)) == EscapeScalar(c)
    ensures EscapeScalar(c)[0] == PERCENT
  {
    forall b: Octet ensures Escaped(Escape(b)) {
      EscapeIsEscaped(b);
    }
  }

  lemma SpacedJoins(a: Str, b: Str)
    ensures Spaced(a + b) == Spaced(a) + Spaced(b)
  {
  }

  lemma ScalarDecodes(style: Style, c: Scalar, after: Str)
    requires Proper(style)
    ensures Decode(Spaced(EncodeScalar(style, c)) + after)
      == if Decode(after).Some? then Some(Units(c) + Decode(after).value) else None
  {
    var e := Spaced(EncodeScalar(style, c));
    if (c == SPACE && style.plusForSpace) || (c < 0x80 && c in style.plain) {
      assert e == [c];
      assert (e + after)[1..] == after;
    } else {
      EscapeHasNoPlus(c);
      EscapedReadsBack(c, after);
      assert e[0] == PERCENT;
      assert (e + after)[3 * Octets(c)..] == after;
    }
  }

  /** Decoding undoes encoding, for every well-formed string and in every proper style. */
  lemma {:induction false} DecodeUndoesEncode(style: Style, cs: seq<Scalar>)
    requires Proper(style)
    ensures DecodeComponent(Encode(style, cs)) == Some(UnitsOf(cs))
    decreases |cs|
  {
    if cs != [] {
      var rest := Encode(style, cs[1..]);
      DecodeUndoesEncode(style, cs[1..]);
      SpacedJoins(EncodeScalar(style, cs[0]), rest);
      ScalarDecodes(style, cs[0], Spaced(rest));
    }
  }

  predicate NoSeparators(s: Str) { forall i :: 0 <= i < |s| ==> s[i] != 38 && s[i] != 61 && s[i] != 35 }

  lemma ScalarHasNoSeparators(style: Style, c: Scalar)
    requires Proper(style)
    ensures NoSeparators(EncodeScalar(style, c)) && EncodeScalar(style, c) != []
  {
    EscapeHasNoPlus(c);
    EscapedReadsBack(c, []);
  }

  /** An encoding has none of the characters that separate parameters. */
  lemma {:induction false} EncodedHasNoSeparators(style: Style, cs: seq<Scalar>)
    requires Proper(style)
    ensures NoSeparators(Encode(style, cs))
    ensures cs != [] ==> Encode(style, cs) != []
    decreases |cs|
  {
    if cs != [] {
      EncodedHasNoSeparators(style, cs[1..]);
      ScalarHasNoSeparators(style, cs[0]);
    }
  }

  lemma BothStylesAreProper()
    ensures Proper(COMPONENT) && Proper(FORM)
  {
  }

  // --- what is decoded, exactly ---------------------------------------------------------------------

  /** The UTF-8 octets of a scalar value. */
  function Utf8(c: Scalar): (octets: seq<Octet>)
    ensures 1 <= |octets| <= 4
  {
    if c < 0x80 then [c]
    else if c < 0x800 then [0xC0 + c / 64, 0x80 + c % 64]
    else if c < 0x10000 then [0xE0 + c / 4096, 0x80 + c / 64 % 64, 0x80 + c % 64]
    else [0xF0 + c / 262144, 0x80 + c / 4096 % 64, 0x80 + c / 64 % 64, 0x80 + c % 64]
  }

  /** The text begins with the escapes of these octets, in either case of the digits. */
  predicate BeginsWith(s: Str, octets: seq<Octet>)
  {
    forall k :: 0 <= k < |octets| ==> OctetAt(s, 3 * k) == Some(octets[k])
  }

  lemma JoinTwo(c: nat, a: nat, b: nat)
    requires b < 64 && c == a * 64 + b
    ensures c / 64 == a && c % 64 == b
  {
  }

  lemma JoinThree(c: nat, a: nat, b: nat, d: nat)
    requires b < 64 && d < 64 && c == a * 4096 + b * 64 + d
    ensures c / 4096 == a && c / 64 % 64 == b && c % 64 == d
  {
    JoinTwo(c, a * 64 + b, d);
    JoinTwo(a * 64 + b, a, b);
    assert c / 4096 == c / 64 / 64;
  }

  lemma JoinFour(c: nat, a: nat, b: nat, d: nat, e: nat)
    requires b < 64 && d < 64 && e < 64 && c == a * 262144 + b * 4096 + d * 64 + e
    ensures c / 262144 == a && c / 4096 % 64 == b && c / 64 % 64 == d && c % 64 == e
  {
    JoinThree(c, a * 64 + b, d, e);
    JoinTwo(a * 64 + b, a, b);
    assert c / 262144 == c / 4096 / 64;
  }

  lemma OneIsUtf8(s: Str)
    requires OctetAt(s, 0).Some? && OctetAt(s, 0).value < 0x80 && ReadEscaped(s).Some?
    ensures ReadIsRight(s)
  {
  }

  lemma TwoAreUtf8(s: Str)
    requires OctetAt(s, 0).Some? && 0xC0 <= OctetAt(s, 0).value < 0xE0 && ReadEscaped(s).Some?
    ensures ReadIsRight(s)
  {
    var a, b, c := OctetAt(s, 0).value - 0xC0, TailAt(s, 3).value, ReadEscaped(s).value.scalar;
    JoinTwo(c, a, b);
    assert Utf8(c) == [0xC0 + a, 0x80 + b];
  }

  lemma ThreeAreUtf8(s: Str)
    requires OctetAt(s, 0).Some? && 0xE0 <= OctetAt(s, 0).value < 0xF0 && ReadEscaped(s).Some?
    ensures ReadIsRight(s)
  {
    var a, b, d := OctetAt(s, 0).value - 0xE0, TailAt(s, 3).value, TailAt(s, 6).value;
    var c := ReadEscaped(s).value.scalar;
    JoinThree(c, a, b, d);
    assert Utf8(c) == [0xE0 + a, 0x80 + b, 0x80 + d];
  }

  lemma FourAreUtf8(s: Str)
    requires OctetAt(s, 0).Some? && 0xF0 <= OctetAt(s, 0).value && ReadEscaped(s).Some?
    ensures ReadIsRight(s)
  {
    var a, b, d, e := OctetAt(s, 0).value - 0xF0, TailAt(s, 3).value, TailAt(s, 6).value, TailAt(s, 9).value;
    Utf8OfFour(ReadEscaped(s).value.scalar, a, b, d, e);
    FourStand(s, [0xF0 + a, 0x80 + b, 0x80 + d, 0x80 + e]);
  }

  lemma Utf8OfFour(c: Scalar, a: nat, b: nat, d: nat, e: nat)
    requires a < 8 && b < 64 && d < 64 && e < 64 && 0x10000 <= c && c == a * 262144 + b * 4096 + d * 64 + e
    ensures Utf8(c) == [0xF0 + a, 0x80 + b, 0x80 + d, 0x80 + e]
  {
    JoinFour(c, a, b, d, e);
  }

  lemma FourStand(s: Str, octets: seq<Octet>)
    requires |octets| == 4 && OctetAt(s, 0) == Some(octets[0]) && OctetAt(s, 3) == Some(octets[1])
    requires OctetAt(s, 6) == Some(octets[2]) && OctetAt(s, 9) == Some(octets[3])
    ensures BeginsWith(s, octets)
  {
    forall k | 0 <= k < 4 ensures OctetAt(s, 3 * k) == Some(octets[k]) {
      assert k == 0 || k == 1 || k == 2 || k == 3;
    }
  }

  predicate ReadIsRight(s: Str)
    requires ReadEscaped(s).Some?
  {
    var r := ReadEscaped(s).value;
    r.octets == |Utf8(r.scalar)| && BeginsWith(s, Utf8(r.scalar))
  }

  /** What is read is a scalar value whose octets, in their shortest form, stand escaped at the front. */
  lemma ReadIsUtf8(s: Str)
    requires ReadEscaped(s).Some?
    ensures ReadIsRight(s)
  {
    var lead := OctetAt(s, 0).value;
    if lead < 0x80 {
      OneIsUtf8(s);
    } else if lead < 0xE0 {
      TwoAreUtf8(s);
    } else if lead < 0xF0 {
      ThreeAreUtf8(s);
    } else {
      FourAreUtf8(s);
    }
  }

  lemma SplitThree(c: nat)
    ensures c == c / 4096 * 4096 + c / 64 % 64 * 64 + c % 64
  {
    assert c / 64 == c / 4096 * 64 + c / 64 % 64;
  }

  lemma SplitFour(c: nat)
    ensures c == c / 262144 * 262144 + c / 4096 % 64 * 4096 + c / 64 % 64 * 64 + c % 64
  {
    SplitThree(c);
    assert c / 4096 == c / 262144 * 64 + c / 4096 % 64;
  }

  lemma OctetsAhead(s: Str, octets: seq<Octet>)
    requires BeginsWith(s, octets)
    ensures |octets| > 0 ==> OctetAt(s, 0) == Some(octets[0])
    ensures |octets| > 1 ==> OctetAt(s, 3) == Some(octets[1])
    ensures |octets| > 2 ==> OctetAt(s, 6) == Some(octets[2])
    ensures |octets| > 3 ==> OctetAt(s, 9) == Some(octets[3])
  {
    assert |octets| > 0 ==> OctetAt(s, 3 * 0) == Some(octets[0]);
    assert |octets| > 1 ==> OctetAt(s, 3 * 1) == Some(octets[1]);
    assert |octets| > 2 ==> OctetAt(s, 3 * 2) == Some(octets[2]);
    assert |octets| > 3 ==> OctetAt(s, 3 * 3) == Some(octets[3]);
  }

  lemma TwoAreRead(s: Str, c: Scalar)
    requires 0x80 <= c < 0x800 && OctetAt(s, 0) == Some(0xC0 + c / 64) && OctetAt(s, 3) == Some(0x80 + c % 64)
    ensures ReadEscaped(s) == Some(Spelled(c, 2))
  {
    assert TailAt(s, 3) == Some(c % 64);
  }

  lemma ThreeAreRead(s: Str, c: Scalar, a: nat, b: nat, d: nat)
    requires 0x800 <= c < 0x10000 && a < 16 && b < 64 && d < 64 && c == a * 4096 + b * 64 + d
    requires OctetAt(s, 0) == Some(0xE0 + a) && OctetAt(s, 3) == Some(0x80 + b) && OctetAt(s, 6) == Some(0x80 + d)
    ensures ReadEscaped(s) == Some(Spelled(c, 3))
  {
    assert TailAt(s, 3) == Some(b) && TailAt(s, 6) == Some(d);
  }

  lemma FourAreRead(s: Str, c: Scalar, a: nat, b: nat, d: nat, e: nat)
    requires 0x10000 <= c && a < 8 && b < 64 && d < 64 && e < 64 && c == a * 262144 + b * 4096 + d * 64 + e
    requires OctetAt(s, 0) == Some(0xF0 + a) && OctetAt(s, 3) == Some(0x80 + b)
    requires OctetAt(s, 6) == Some(0x80 + d) && OctetAt(s, 9) == Some(0x80 + e)
    ensures ReadEscaped(s) == Some(Spelled(c, 4))
  {
    assert TailAt(s, 3) == Some(b) && TailAt(s, 6) == Some(d) && TailAt(s, 9) == Some(e);
  }

  lemma OneIsRead(s: Str, c: Scalar)
    requires c < 0x80 && OctetAt(s, 0) == Some(c)
    ensures ReadEscaped(s) == Some(Spelled(c, 1))
  {
  }

  /** And whatever stands escaped at the front so is read. */
  lemma Utf8IsRead(s: Str, c: Scalar)
    requires BeginsWith(s, Utf8(c))
    ensures ReadEscaped(s) == Some(Spelled(c, |Utf8(c)|))
  {
    OctetsAhead(s, Utf8(c));
    if c < 0x80 {
      OneIsRead(s, c);
    } else if c < 0x800 {
      TwoAreRead(s, c);
    } else if c < 0x10000 {
      SplitThree(c);
      ThreeAreRead(s, c, c / 4096, c / 64 % 64, c % 64);
    } else {
      SplitFour(c);
      FourAreRead(s, c, c / 262144, c / 4096 % 64, c / 64 % 64, c % 64);
    }
  }

  /** The escapes at the front are read as a scalar value exactly when they are its octets. */
  lemma ReadsExactlyUtf8(s: Str, c: Scalar, n: nat)
    ensures ReadEscaped(s) == Some(Spelled(c, n)) <==> n == |Utf8(c)| && BeginsWith(s, Utf8(c))
  {
    if ReadEscaped(s) == Some(Spelled(c, n)) {
      ReadIsUtf8(s);
    }
    if BeginsWith(s, Utf8(c)) {
      Utf8IsRead(s, c);
    }
  }

  /** Text without escapes is itself, a plus being a space. */
  lemma {:induction false} PlainTextDecodes(s: Str)
    requires PERCENT !in s
    ensures Decode(s) == Some(s)
    decreases |s|
  {
    if s != [] {
      PlainTextDecodes(s[1..]);
      assert [s[0]] + s[1..] == s;
    }
  }
}

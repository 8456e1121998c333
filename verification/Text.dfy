// Strings as the browser has them: sequences of UTF-16 code units.
//
// Lengths, slices and regular expressions in the source count code units, and several of the
// properties proved here (percent decoding, the redaction sweep, JSON quoting) are statements about
// code units, so a JavaScript string is not modelled as a Dafny `string`.
module Text {

  type Unit = u: int | 0 <= u < 0x10000

  type Str = seq<Unit>

  datatype Option<+T> = None | Some(value: T)

  /** A literal of the source, unit by unit. */
  function Lit(s: string): (r: Str)
    ensures |r| == |s|
    ensures forall i :: 0 <= i < |s| && s[i] as int < 0x10000 ==> r[i] == s[i] as int
  {
    seq(|s|, i requires 0 <= i < |s| => if s[i] as int < 0x10000 then s[i] as int else 0xFFFD)
  }

  predicate IsDigit(u: Unit) { 48 <= u <= 57 }

  predicate IsLetter(u: Unit) { 65 <= u <= 90 || 97 <= u <= 122 }

  predicate IsAlnum(u: Unit) { IsDigit(u) || IsLetter(u) }

  /** The first and the second half of a surrogate pair. */
  predicate IsHigh(u: Unit) { 0xD800 <= u < 0xDC00 }

  predicate IsLow(u: Unit) { 0xDC00 <= u < 0xE000 }

  function LowerHex(d: nat): (u: Unit)
    requires d < 16
  {
    if d < 10 then 48 + d else 87 + d
  }

  function UpperHex(d: nat): (u: Unit)
    requires d < 16
  {
    if d < 10 then 48 + d else 55 + d
  }

  function HexValue(u: Unit): Option<nat>
  {
    if 48 <= u <= 57 then Some(u - 48)
    else if 65 <= u <= 70 then Some(u - 55)
    else if 97 <= u <= 102 then Some(u - 87)
    else None
  }

  lemma HexRoundTrip(d: nat)
    requires d < 16
    ensures HexValue(LowerHex(d)) == Some(d) && HexValue(UpperHex(d)) == Some(d)
  {
  }

  /** The digits of `n` in base ten, most significant first, as `String(n)` prints them. */
  function Digits(n: nat): (r: Str)
    ensures |r| > 0
    ensures forall i :: 0 <= i < |r| ==> IsDigit(r[i])
  {
    if n < 10 then [48 + n] else Digits(n / 10) + [48 + n % 10]
  }

  const MINUS: Unit := 45

  function Decimal(n: int): (r: Str)
    ensures |r| > 0
    ensures forall i :: 0 <= i < |r| ==> IsDigit(r[i]) || r[i] == MINUS
  {
    if n < 0 then [MINUS] + Digits(-n) else Digits(n)
  }

  lemma DigitsLength(n: nat)
    ensures |Digits(n)| == 1 <==> n < 10
  {
  }

  lemma {:induction false} DigitsInjective(m: nat, n: nat)
    requires Digits(m) == Digits(n)
    ensures m == n
  {
    var a, b := Digits(m), Digits(n);
    DigitsLength(m);
    DigitsLength(n);
    if m >= 10 {
      assert a[..|a| - 1] == Digits(m / 10) && b[..|b| - 1] == Digits(n / 10);
      DigitsInjective(m / 10, n / 10);
      assert a[|a| - 1] == b[|b| - 1];
    }
  }

  lemma DecimalInjective(m: int, n: int)
    requires Decimal(m) == Decimal(n)
    ensures m == n
  {
    assert Decimal(m)[0] == MINUS <==> m < 0;
    assert Decimal(n)[0] == MINUS <==> n < 0;
    if m < 0 {
      assert Digits(-m) == Decimal(m)[1..] && Digits(-n) == Decimal(n)[1..];
      DigitsInjective(-m, -n);
    } else {
      DigitsInjective(m, n);
    }
  }

  /** The characters `String.prototype.trim` removes and `\s` matches; all are single code units. */
  predicate IsSpace(u: Unit)
  {
    9 <= u <= 13 || u == 32 || u == 0xA0 || u == 0x1680 || 0x2000 <= u <= 0x200A
    || u == 0x2028 || u == 0x2029 || u == 0x202F || u == 0x205F || u == 0x3000 || u == 0xFEFF
  }

  function TrimStart(s: Str): Str
  {
    if s != [] && IsSpace(s[0]) then TrimStart(s[1..]) else s
  }

  function TrimEnd(s: Str): Str
  {
    if s != [] && IsSpace(s[|s| - 1]) then TrimEnd(s[..|s| - 1]) else s
  }

  function Trim(s: Str): Str { TrimEnd(TrimStart(s)) }

  /** Letters compared as `/i` compares them; no unit outside ASCII folds to one inside it. */
  function LowerUnit(u: Unit): Unit { if 65 <= u <= 90 then u + 32 else u }

  function Lower(s: Str): Str { seq(|s|, i requires 0 <= i < |s| => LowerUnit(s[i])) }

  predicate StartsWith(s: Str, prefix: Str) { prefix <= s }

  predicate NoSpaces(s: Str) { forall i :: 0 <= i < |s| ==> !IsSpace(s[i]) }

  lemma TrimStartIs(s: Str) returns (n: nat)
    ensures n <= |s| && TrimStart(s) == s[n..]
    ensures n == |s| || !IsSpace(s[n])
    ensures s != [] && !IsSpace(s[0]) ==> n == 0
  {
    n := 0;
    if s != [] && IsSpace(s[0]) {
      var m := TrimStartIs(s[1..]);
      n := m + 1;
      assert s[1..][m..] == s[n..];
    } else {
      assert s[0..] == s;
    }
  }

  lemma TrimEndIs(s: Str) returns (n: nat)
    ensures n <= |s| && TrimEnd(s) == s[..n]
    ensures n == 0 || !IsSpace(s[n - 1])
    ensures s != [] && !IsSpace(s[|s| - 1]) ==> n == |s|
  {
    n := |s|;
    if s != [] && IsSpace(s[|s| - 1]) {
      n := TrimEndIs(s[..|s| - 1]);
      assert s[..|s| - 1][..n] == s[..n];
    } else {
      assert s[..|s|] == s;
    }
  }

  /** Neither end of the string is a space. */
  predicate Trimmed(s: Str) { s == [] || (!IsSpace(s[0]) && !IsSpace(s[|s| - 1])) }

  /** Trimming gives a part of the string without spaces at its ends, and nothing more to trim. */
  lemma TrimIs(s: Str) returns (i: nat, j: nat)
    ensures i <= j <= |s| && Trim(s) == s[i..j]
    ensures Trimmed(Trim(s))
    ensures Trimmed(s) ==> Trim(s) == s
  {
    i := TrimStartIs(s);
    var n := TrimEndIs(s[i..]);
    j := i + n;
    assert s[i..][..n] == s[i..j];
    if n > 0 {
      assert s[i..][n - 1] == s[j - 1];
    }
    if s != [] && Trimmed(s) {
      assert s[i..] == s;
    }
  }
}

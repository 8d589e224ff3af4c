/** The stock optional-value wrapper, for the paths where the source gives up
    on a line or reads nothing. */
module Wrappers {
  datatype Option<+T> = None | Some(value: T)
}

/** Decimal text as the C library reads and writes it in this system: the
    `%f` conversion of `sscanf` (a restricted subset, see README) and the
    `%ld` and `%.2f` conversions of `printf`. */
module Decimal {
  import opened Wrappers

  predicate IsDigit(c: char) { '0' <= c <= '9' }

  predicate AllDigits(s: string) { forall i :: 0 <= i < |s| ==> IsDigit(s[i]) }

  /** The characters C's `isspace` accepts, which `%f` skips. */
  predicate IsSpace(c: char)
  {
    c == ' ' || c == '\t' || c == '\n' || c == '\r' || c as int == 11 || c as int == 12
  }

  function DigitChar(d: nat): (c: char)
    requires d < 10
    ensures IsDigit(c)
  {
    (d + '0' as int) as char
  }

  function DigitValue(c: char): (d: nat)
    requires IsDigit(c)
    ensures d < 10 && DigitChar(d) == c
  {
    c as int - '0' as int
  }

  /** The number a string of decimal digits denotes, most significant first. */
  function DigitsValue(ds: string): nat
    requires AllDigits(ds)
  {
    if ds == [] then 0 else 10 * DigitsValue(ds[..|ds| - 1]) + DigitValue(ds[|ds| - 1])
  }

  /** The digits `printf` writes for a non-negative integer: at least one,
      no leading zero, and they denote `n`. */
  function NatText(n: nat): (s: string)
    ensures |s| >= 1 && AllDigits(s) && DigitsValue(s) == n
    ensures |s| > 1 ==> s[0] != '0'
  {
    if n < 10 then [DigitChar(n)]
    else
      var s := NatText(n / 10) + [DigitChar(n % 10)];
      assert s[..|s| - 1] == NatText(n / 10);
      s
  }

  /** `%ld`: a minus sign for a negative value, then the digits of its magnitude. */
  function IntText(n: int): string
  {
    if n < 0 then "-" + NatText(-n) else NatText(n)
  }

  /** A minus sign exactly for a negative value, then the digits of its
      magnitude, without a leading zero. */
  lemma IntTextDigits(n: int)
    ensures |IntText(n)| >= 1
    ensures n < 0 <==> IntText(n)[0] == '-'
    ensures n >= 0 ==> AllDigits(IntText(n)) && DigitsValue(IntText(n)) == n
    ensures n < 0 ==> AllDigits(IntText(n)[1..]) && DigitsValue(IntText(n)[1..]) == -n
    ensures n >= 0 && |IntText(n)| > 1 ==> IntText(n)[0] != '0'
    ensures n < 0 && |IntText(n)| > 2 ==> IntText(n)[1] != '0'
  {
    if n < 0 {
      assert IntText(n)[1..] == NatText(-n);
    }
  }

  /** The integer nearest to `x`; a value exactly halfway between two
      integers goes to the even one (round-to-nearest-even). */
  function RoundHalfEven(x: real): (m: int)
    ensures x - 0.5 <= m as real <= x + 0.5
    ensures (m as real == x - 0.5 || m as real == x + 0.5) ==> m % 2 == 0
  {
    var f := x.Floor;
    var d := x - f as real;
    if d < 0.5 then f
    else if d > 0.5 then f + 1
    else if f % 2 == 0 then f
    else f + 1
  }

  lemma RoundHalfEvenExact(n: int)
    ensures RoundHalfEven(n as real) == n
  {
  }

  /** `%.2f`: a minus sign when `p` is negative (also when it rounds to zero),
      the integer part, a point and two fraction digits of |p| rounded to
      hundredths. */
  function Fixed2(p: real): string
  {
    var m := RoundHalfEven(if p < 0.0 then -p * 100.0 else p * 100.0);
    (if p < 0.0 then "-" else "") + NatText(m / 100) + "." + [DigitChar(m % 100 / 10), DigitChar(m % 10)]
  }

  /** The two fraction digits `%.2f` writes for a count of hundredths. */
  function Hundredths(a: nat): string
  {
    [DigitChar(a % 100 / 10), DigitChar(a % 10)]
  }

  function Abs(h: int): nat { if h < 0 then -h else h }

  /** What `%.2f` writes for `a` hundredths, `a` not negative: the integer
      part, a point and the two fraction digits. */
  function UnsignedText(a: nat): string
  {
    NatText(a / 100) + "." + Hundredths(a)
  }

  /** What `%.2f` writes for a value of exactly `h` hundredths. */
  function HundredthsText(h: int): string
  {
    (if h < 0 then "-" else "") + UnsignedText(Abs(h))
  }

  /** On a value that is a whole number of hundredths, `%.2f` rounds
      nothing away. */
  lemma Fixed2OfHundredths(h: int)
    ensures Fixed2(h as real / 100.0) == HundredthsText(h)
  {
    var p := h as real / 100.0;
    assert (if p < 0.0 then -p * 100.0 else p * 100.0) == Abs(h) as real;
    RoundHalfEvenExact(Abs(h));
  }

  /** The `%f` conversion of `sscanf`, restricted to decimal numbers, reading
      `s` from position `i`: white space is skipped, then an optional sign,
      then the unsigned number, which a minus sign negates. */
  function ScanFloatAt(s: string, i: nat): Option<real>
    decreases |s| - i
  {
    if i >= |s| then None
    else if IsSpace(s[i]) then ScanFloatAt(s, i + 1)
    else
      var magnitude := ScanNumber(s, if s[i] == '-' || s[i] == '+' then i + 1 else i, 0, false);
      if s[i] == '-' then Negated(magnitude) else magnitude
  }

  /** `%f` applied to a whole string. */
  function ScanFloat(s: string): Option<real>
  {
    ScanFloatAt(s, 0)
  }

  function Negated(r: Option<real>): Option<real>
  {
    match r
    case None => None
    case Some(m) => Some(-m)
  }

  /** The unsigned part of a `%f` number from position `i`: digits, then
      optionally a point and further digits, with at least one digit in all,
      then optionally a decimal exponent. `whole` is the value of the digits
      read so far and `seen` says whether there were any. Reading stops at
      the first character that cannot continue the number; what follows is
      ignored. */
  function ScanNumber(s: string, i: nat, whole: nat, seen: bool): Option<real>
    decreases |s| - i
  {
    if i < |s| && IsDigit(s[i]) then ScanNumber(s, i + 1, 10 * whole + DigitValue(s[i]), true)
    else if i < |s| && s[i] == '.' && (seen || (i + 1 < |s| && IsDigit(s[i + 1]))) then
      Some(Scaled(whole as real + FractionAt(s, i + 1), ExponentAt(s, DigitsEnd(s, i + 1))))
    else if seen then Some(Scaled(whole as real, ExponentAt(s, i)))
    else None
  }

  /** The first position from `i` on that does not hold a digit. */
  function DigitsEnd(s: string, i: nat): (j: nat)
    requires i <= |s|
    ensures i <= j && DigitsBetween(s, i, j) && (j == |s| || !IsDigit(s[j]))
    decreases |s| - i
  {
    if i < |s| && IsDigit(s[i]) then DigitsEnd(s, i + 1) else i
  }

  /** The decimal exponent of a `%f` number at position `i`: `e` or `E`, an
      optional sign and at least one digit. Without such a digit the mark
      is not part of the number, and the exponent is 0. */
  function ExponentAt(s: string, i: nat): int
  {
    if i < |s| && (s[i] == 'e' || s[i] == 'E') then
      var signed := i + 1 < |s| && (s[i + 1] == '-' || s[i + 1] == '+');
      var j := if signed then i + 2 else i + 1;
      if j < |s| && IsDigit(s[j]) then
        var m: int := ValueBetween(s, j, DigitsEnd(s, j), 0);
        if signed && s[i + 1] == '-' then -m else m
      else 0
    else 0
  }

  function Pow10(n: nat): (p: nat)
    ensures p >= 1
  {
    if n == 0 then 1 else 10 * Pow10(n - 1)
  }

  /** `v` times ten to the power `e`. */
  function Scaled(v: real, e: int): real
  {
    if e >= 0 then v * Pow10(e) as real else v / Pow10(-e) as real
  }

  /** A character at which a `%f` number that has its digits ends: neither
      a further digit nor the mark of an exponent. */
  predicate EndsNumber(c: char)
  {
    !IsDigit(c) && c != 'e' && c != 'E'
  }

  /** The value of the digits from position `i` up to the first character
      that is not a digit, read as the digits after a decimal point. */
  function FractionAt(s: string, i: nat): (v: real)
    ensures 0.0 <= v < 1.0
    decreases |s| - i
  {
    if i < |s| && IsDigit(s[i]) then (DigitValue(s[i]) as real + FractionAt(s, i + 1)) / 10.0 else 0.0
  }

  /** `sscanf` with a format made of literal text and then `%f`: from
      position `i` on, each character of the literal must match the input,
      and the number is read from where the literal ends. */
  function ScanAfter(literal: string, s: string, i: nat): (r: Option<real>)
    ensures r.Some? ==> |literal| <= |s| && forall k :: i <= k < |literal| ==> s[k] == literal[k]
    decreases |literal| - i
  {
    if i >= |literal| then ScanFloatAt(s, i)
    else if i < |s| && s[i] == literal[i] then ScanAfter(literal, s, i + 1)
    else None
  }

  /** `t` appears in `s` at position `i`. */
  predicate Occurs(t: string, s: string, i: nat)
  {
    i + |t| <= |s| && forall k :: 0 <= k < |t| ==> s[i + k] == t[k]
  }

  /** The front part of an occurrence occurs where the occurrence starts. */
  lemma OccursPrefix(p: string, u: string, s: string, i: nat)
    requires Occurs(p + u, s, i)
    ensures Occurs(p, s, i)
  {
    forall k | 0 <= k < |p|
      ensures s[i + k] == p[k]
    {
      assert (p + u)[k] == p[k];
    }
  }

  /** The back part of an occurrence occurs where the front part ends. */
  lemma OccursSuffix(p: string, u: string, s: string, i: nat)
    requires Occurs(p + u, s, i)
    ensures Occurs(u, s, i + |p|)
  {
    forall k | 0 <= k < |u|
      ensures s[i + |p| + k] == u[k]
    {
      assert (p + u)[|p| + k] == u[k];
      assert s[i + (|p| + k)] == (p + u)[|p| + k];
    }
  }

  lemma OccursAt(t: string, tail: string)
    ensures Occurs(t, t + tail, 0)
  {
  }

  /** Input that starts with the literal is read as the number after it. */
  lemma {:induction false} ScanAfterLiteral(literal: string, s: string, i: nat)
    requires i <= |literal| && Occurs(literal, s, 0)
    ensures ScanAfter(literal, s, i) == ScanFloatAt(s, |literal|)
    decreases |literal| - i
  {
    if i < |literal| {
      assert s[0 + i] == literal[i];
      ScanAfterLiteral(literal, s, i + 1);
    }
  }

  /** Every character of `s` from position `i` up to `j` is a digit. */
  predicate DigitsBetween(s: string, i: nat, j: nat)
  {
    j <= |s| && forall k :: i <= k < j ==> IsDigit(s[k])
  }

  /** The value of `whole` followed by the digits of `s` from position `i`
      up to `j`, accumulated as `%f` reads them. */
  function ValueBetween(s: string, i: nat, j: nat, whole: nat): nat
    requires i <= j && DigitsBetween(s, i, j)
    decreases j - i
  {
    if i == j then whole else ValueBetween(s, i + 1, j, 10 * whole + DigitValue(s[i]))
  }

  /** Reading a run of digits adds them to the value read so far. */
  lemma {:induction false} ScanDigits(s: string, i: nat, j: nat, whole: nat, seen: bool)
    requires i <= j && DigitsBetween(s, i, j)
    ensures ScanNumber(s, i, whole, seen) == ScanNumber(s, j, ValueBetween(s, i, j, whole), seen || i < j)
    decreases j - i
  {
    if i < j {
      ScanDigits(s, i + 1, j, 10 * whole + DigitValue(s[i]), true);
    }
  }

  lemma {:induction false} ValueBetweenExtend(s: string, i: nat, j: nat, whole: nat)
    requires i <= j < |s| && DigitsBetween(s, i, j + 1)
    ensures ValueBetween(s, i, j + 1, whole) == 10 * ValueBetween(s, i, j, whole) + DigitValue(s[j])
    decreases j - i
  {
    if i < j {
      ValueBetweenExtend(s, i + 1, j, 10 * whole + DigitValue(s[i]));
    }
  }

  lemma OccursDigits(s: string, i: nat, ds: string)
    requires AllDigits(ds) && Occurs(ds, s, i)
    ensures DigitsBetween(s, i, i + |ds|)
  {
    forall k | i <= k < i + |ds|
      ensures IsDigit(s[k])
    {
      assert s[i + (k - i)] == ds[k - i];
    }
  }

  /** Digits that spell `ds` from position `i` on have the value `ds`
      denotes. */
  lemma {:induction false} ValueOfOccurrence(s: string, i: nat, ds: string)
    requires AllDigits(ds) && Occurs(ds, s, i)
    ensures DigitsBetween(s, i, i + |ds|)
    ensures ValueBetween(s, i, i + |ds|, 0) == DigitsValue(ds)
    decreases |ds|
  {
    OccursDigits(s, i, ds);
    if ds != [] {
      var front := ds[..|ds| - 1];
      assert Occurs(front, s, i) by {
        forall k | 0 <= k < |front|
          ensures s[i + k] == front[k]
        {
          assert front[k] == ds[k];
        }
      }
      ValueOfOccurrence(s, i, front);
      assert s[i + |front|] == ds[|front|];
      ValueBetweenExtend(s, i, i + |front|, 0);
    }
  }

  /** Two fraction digits followed by something that is not a digit. */
  lemma FractionOfTwoDigits(s: string, i: nat)
    requires i + 2 <= |s| && IsDigit(s[i]) && IsDigit(s[i + 1])
    requires i + 2 == |s| || !IsDigit(s[i + 2])
    ensures FractionAt(s, i) == (10 * DigitValue(s[i]) + DigitValue(s[i + 1])) as real / 100.0
  {
    assert FractionAt(s, i + 2) == 0.0;
    assert FractionAt(s, i + 1) == DigitValue(s[i + 1]) as real / 10.0;
  }

  /** Digits from `i` up to a point at `j`, two digits after the point and
      no digit after those: the unsigned number `%f` reads there. */
  lemma ScanPointNumber(s: string, i: nat, j: nat)
    requires i < j && DigitsBetween(s, i, j)
    requires j + 3 <= |s| && s[j] == '.' && IsDigit(s[j + 1]) && IsDigit(s[j + 2])
    requires j + 3 == |s| || EndsNumber(s[j + 3])
    ensures ScanNumber(s, i, 0, false)
         == Some(ValueBetween(s, i, j, 0) as real
                 + (10 * DigitValue(s[j + 1]) + DigitValue(s[j + 2])) as real / 100.0)
  {
    ScanDigits(s, i, j, 0, false);
    ScanTwoDigitFraction(s, j, ValueBetween(s, i, j, 0));
  }

  /** A point, two digits and no digit or exponent after them: the number
      ends there, its fraction being those two digits. */
  lemma ScanTwoDigitFraction(s: string, j: nat, whole: nat)
    requires j + 3 <= |s| && s[j] == '.' && IsDigit(s[j + 1]) && IsDigit(s[j + 2])
    requires j + 3 == |s| || EndsNumber(s[j + 3])
    ensures ScanNumber(s, j, whole, true)
         == Some(whole as real + (10 * DigitValue(s[j + 1]) + DigitValue(s[j + 2])) as real / 100.0)
  {
    FractionOfTwoDigits(s, j + 1);
    assert DigitsEnd(s, j + 1) == j + 3 by {
      assert DigitsEnd(s, j + 3) == j + 3;
    }
    assert ExponentAt(s, j + 3) == 0;
  }

  lemma DigitRoundTrip(d: nat)
    requires d < 10
    ensures DigitValue(DigitChar(d)) == d
  {
  }

  lemma LastDigit(a: int, m: int, u: int)
    requires a == 10 * m + u && 0 <= u < 10
    ensures a % 10 == u
  {
  }

  lemma HundredthsDigits(a: nat)
    ensures a == 100 * (a / 100) + 10 * (a % 100 / 10) + a % 10
  {
    var q, r := a / 100, a % 100;
    var t, u := r / 10, r % 10;
    LastDigit(a, 10 * q + t, u);
  }

  lemma HundredthsSum(a: nat)
    ensures (a / 100) as real + (10 * (a % 100 / 10) + a % 10) as real / 100.0 == a as real / 100.0
  {
    HundredthsDigits(a);
    var q, f := a / 100, 10 * (a % 100 / 10) + a % 10;
    assert a as real == 100.0 * q as real + f as real;
  }

  /** Where the parts of `%.2f`'s text for `a` hundredths lie in `s` when
      that text occurs at position `i`: the integer digits up to `j`, then
      the point and the two fraction digits. */
  lemma UnsignedTextLayout(s: string, i: nat, a: nat) returns (j: nat)
    requires Occurs(UnsignedText(a), s, i)
    ensures j == i + |NatText(a / 100)| && j + 3 == i + |UnsignedText(a)|
    ensures i < j && DigitsBetween(s, i, j) && ValueBetween(s, i, j, 0) == a / 100
    ensures s[j] == '.' && IsDigit(s[j + 1]) && IsDigit(s[j + 2])
    ensures 10 * DigitValue(s[j + 1]) + DigitValue(s[j + 2]) == 10 * (a % 100 / 10) + a % 10
  {
    var ds, t := NatText(a / 100), UnsignedText(a);
    OccursPrefix(ds + ".", Hundredths(a), s, i);
    OccursPrefix(ds, ".", s, i);
    ValueOfOccurrence(s, i, ds);
    j := i + |ds|;
    assert s[j] == t[|ds|] == '.';
    assert s[i + (|ds| + 1)] == t[|ds| + 1] == DigitChar(a % 100 / 10);
    assert s[i + (|ds| + 2)] == t[|ds| + 2] == DigitChar(a % 10);
    DigitRoundTrip(a % 100 / 10);
    DigitRoundTrip(a % 10);
  }

  /** What `%.2f` wrote for `a` hundredths, found in `s` at position `i`
      and not followed by a digit or an exponent, is read as the unsigned
      number `a / 100`. */
  lemma ScanUnsignedText(s: string, i: nat, a: nat)
    requires Occurs(UnsignedText(a), s, i)
    requires i + |UnsignedText(a)| == |s| || EndsNumber(s[i + |UnsignedText(a)|])
    ensures ScanNumber(s, i, 0, false) == Some(a as real / 100.0)
  {
    var j := UnsignedTextLayout(s, i, a);
    ScanPointNumber(s, i, j);
    HundredthsSum(a);
  }

  /** A number that starts with a minus sign is read negated; one that
      starts with a digit is read as it is. */
  lemma ScanSignedAt(s: string, i: nat, negative: bool, v: real)
    requires i < |s|
    requires if negative then s[i] == '-' else IsDigit(s[i])
    requires ScanNumber(s, if negative then i + 1 else i, 0, false) == Some(v)
    ensures ScanFloatAt(s, i) == Some(if negative then -v else v)
  {
  }

  lemma SignedHundredths(h: int)
    ensures (if h < 0 then -(Abs(h) as real / 100.0) else Abs(h) as real / 100.0) == h as real / 100.0
  {
  }

  /** Where the `%.2f` text of `h` hundredths starts, a minus sign comes
      first exactly when `h` is negative, and the number after it is read
      as the magnitude of `h / 100`. */
  lemma ScanMagnitudeAt(s: string, i: nat, h: int)
    requires Occurs(HundredthsText(h), s, i)
    requires i + |HundredthsText(h)| == |s| || EndsNumber(s[i + |HundredthsText(h)|])
    ensures i < |s| && if h < 0 then s[i] == '-' else IsDigit(s[i])
    ensures ScanNumber(s, if h < 0 then i + 1 else i, 0, false) == Some(Abs(h) as real / 100.0)
  {
    var t, a := HundredthsText(h), Abs(h);
    var u := UnsignedText(a);
    assert s[i + 0] == t[0];
    if h < 0 {
      assert t == "-" + u;
      assert i + 1 + |u| == i + |t|;
      OccursSuffix("-", u, s, i);
      ScanUnsignedText(s, i + 1, a);
    } else {
      assert t == u;
      assert u[0] == NatText(a / 100)[0];
      ScanUnsignedText(s, i, a);
    }
  }

  /** What `%.2f` wrote for `h` hundredths, found in `s` at position `i` and
      not followed by a digit or an exponent, is read by `%f` as `h / 100`. */
  lemma ScanHundredthsAt(s: string, i: nat, h: int)
    requires Occurs(HundredthsText(h), s, i)
    requires i + |HundredthsText(h)| == |s| || EndsNumber(s[i + |HundredthsText(h)|])
    ensures ScanFloatAt(s, i) == Some(h as real / 100.0)
  {
    ScanMagnitudeAt(s, i, h);
    ScanSignedAt(s, i, h < 0, Abs(h) as real / 100.0);
    SignedHundredths(h);
  }

  /** Reading back what `%.2f` wrote for `h` hundredths gives `h / 100`,
      whatever text follows the number that does not continue it. */
  lemma ScanHundredths(h: int, tail: string)
    requires tail == [] || EndsNumber(tail[0])
    ensures ScanFloat(HundredthsText(h) + tail) == Some(h as real / 100.0)
  {
    var s := HundredthsText(h) + tail;
    OccursAt(HundredthsText(h), tail);
    if tail != [] {
      assert s[|HundredthsText(h)|] == tail[0];
    }
    ScanHundredthsAt(s, 0, h);
  }

  /** The same round trip stated on the `%.2f` conversion of the value. */
  lemma ScanFixed2(h: int, tail: string)
    requires tail == [] || EndsNumber(tail[0])
    ensures ScanFloat(Fixed2(h as real / 100.0) + tail) == Some(h as real / 100.0)
  {
    Fixed2OfHundredths(h);
    ScanHundredths(h, tail);
  }

  /** A line made of a literal, the `%.2f` text of `h` hundredths and text
      that does not continue the number is read by `sscanf` with that literal
      and `%f` as `h / 100`. */
  lemma ScanAfterHundredths(literal: string, h: int, tail: string)
    requires tail == [] || EndsNumber(tail[0])
    ensures ScanAfter(literal, literal + HundredthsText(h) + tail, 0) == Some(h as real / 100.0)
  {
    var t := HundredthsText(h);
    var s := literal + t + tail;
    assert Occurs(literal, s, 0) by {
      forall k | 0 <= k < |literal|
        ensures s[0 + k] == literal[k]
      {
      }
    }
    ScanAfterLiteral(literal, s, 0);
    assert Occurs(t, s, |literal|) by {
      forall k | 0 <= k < |t|
        ensures s[|literal| + k] == t[k]
      {
      }
    }
    if tail != [] {
      assert s[|literal| + |t|] == tail[0];
    }
    ScanHundredthsAt(s, |literal|, h);
  }
}

/**
 * Base-10 rendering and parsing of integers: the canonical string the store
 * keeps for a number (Python's `str(n)`), and the parse that `incr`, `decr`
 * and `hincrby` apply to a stored string before adding to it.
 */
module Decimal {
  import opened Wrappers

  predicate IsDigit(c: char) {
    '0' <= c <= '9'
  }

  predicate AllDigits(s: string) {
    forall i :: 0 <= i < |s| ==> IsDigit(s[i])
  }

  function DigitValue(c: char): (d: nat)
    requires IsDigit(c)
    ensures d < 10
  {
    c as int - '0' as int
  }

  function DigitChar(d: nat): (c: char)
    requires d < 10
    ensures IsDigit(c) && DigitValue(c) == d
  {
    ('0' as int + d) as char
  }

  /** The number a run of decimal digits denotes, most significant digit first. */
  function DigitsValue(ds: string): (n: nat)
    requires AllDigits(ds)
  {
    if |ds| == 0 then 0 else DigitsValue(ds[..|ds| - 1]) * 10 + DigitValue(ds[|ds| - 1])
  }

  /** A digit run with no superfluous leading zero. */
  predicate NoLeadingZero(ds: string) {
    |ds| > 0 && (ds[0] != '0' || |ds| == 1)
  }

  /** The shortest digit run denoting `n`. */
  function NatToDigits(n: nat): (ds: string)
    ensures AllDigits(ds) && NoLeadingZero(ds)
    ensures DigitsValue(ds) == n
    decreases n
  {
    if n < 10 then [DigitChar(n)]
    else
      var init := NatToDigits(n / 10);
      var ds := init + [DigitChar(n % 10)];
      assert ds[..|ds| - 1] == init;
      ds
  }

  /** Python's `str(n)` for an int: digits with no leading zero, `-` before a negative. */
  function FromInt(n: int): (r: string)
    ensures |r| > 0 && (r[0] == '-' <==> n < 0)
    ensures n >= 0 ==> AllDigits(r) && NoLeadingZero(r) && DigitsValue(r) == n
    ensures n < 0 ==> AllDigits(r[1..]) && NoLeadingZero(r[1..]) && r[1] != '0' && DigitsValue(r[1..]) == -n
  {
    if n < 0 then "-" + NatToDigits(-n) else NatToDigits(n)
  }

  /** The few literals the store's test scenarios mention. */
  lemma SmallInts()
    ensures FromInt(0) == "0" && FromInt(1) == "1" && FromInt(2) == "2"
    ensures FromInt(5) == "5" && FromInt(-1) == "-1"
  {
  }

  /**
   * Python's `int(s)` restricted to an optional minus sign followed by one or
   * more ASCII digits; anything else is not an integer.
   */
  function ParseInt(s: string): (r: Option<int>)
    ensures r.Some? ==> |s| > 0
    ensures r.Some? && s[0] != '-' ==> r.value >= 0
  {
    if |s| > 0 && s[0] == '-' then
      if |s| > 1 && AllDigits(s[1..]) then Some(-(DigitsValue(s[1..]) as int)) else None
    else if |s| > 0 && AllDigits(s) then Some(DigitsValue(s))
    else None
  }

  /** The absolute value of an integer. */
  function Magnitude(n: int): (m: nat)
    ensures m == n || m == -n
  {
    if n < 0 then -n else n
  }

  /** A run of `z` zero digits. */
  function Zeros(z: nat): (r: string)
    ensures |r| == z && forall i :: 0 <= i < z ==> r[i] == '0'
  {
    if z == 0 then "" else "0" + Zeros(z - 1)
  }

  /**
   * A numeral `int()` accepts: an optional minus sign, then `z` superfluous
   * leading zeros, then the shortest digits of `m`.
   */
  function Numeral(neg: bool, z: nat, m: nat): (r: string)
    ensures |r| == (if neg then 1 else 0) + z + |NatToDigits(m)|
    ensures r[0] == '-' <==> neg
  {
    (if neg then "-" else "") + Zeros(z) + NatToDigits(m)
  }

  /**
   * The strings `ParseInt` accepts are exactly the numerals: `s` parses to
   * `n` iff it is the digits of `n`'s magnitude after some zeros, signed when
   * `n` is negative and unsigned when it is positive (so `007` is 7 and
   * `-0` is 0, and a string with any other character is refused).
   */
  lemma ParseIntNumerals(s: string, n: int)
    ensures ParseInt(s) == Some(n) <==>
      exists neg: bool, z: nat :: s == Numeral(neg, z, Magnitude(n)) && (n < 0 ==> neg) && (n > 0 ==> !neg)
  {
    if ParseInt(s) == Some(n) {
      ParsedIsNumeral(s, n);
    }
    forall neg: bool, z: nat | s == Numeral(neg, z, Magnitude(n)) && (n < 0 ==> neg) && (n > 0 ==> !neg)
      ensures ParseInt(s) == Some(n)
    {
      NumeralParses(neg, z, Magnitude(n));
    }
  }

  /** An accepted string is a numeral of the value it parses to. */
  lemma ParsedIsNumeral(s: string, n: int)
    requires ParseInt(s) == Some(n)
    ensures s == Numeral(s[0] == '-', LeadingZeros(if s[0] == '-' then s[1..] else s), Magnitude(n))
  {
    var neg := s[0] == '-';
    var ds := if neg then s[1..] else s;
    StripZeros(ds);
    assert DigitsValue(ds) == Magnitude(n);
    NumeralSplit(neg, LeadingZeros(ds), Magnitude(n));
    if neg {
      assert s == "-" + ds;
    }
  }

  /** A numeral is its sign, if any, before its digit run. */
  lemma NumeralSplit(neg: bool, z: nat, m: nat)
    ensures Numeral(neg, z, m) == if neg then "-" + (Zeros(z) + NatToDigits(m)) else Zeros(z) + NatToDigits(m)
  {
  }

  /** Every numeral parses to its magnitude, negated when it is signed. */
  lemma NumeralParses(neg: bool, z: nat, m: nat)
    ensures ParseInt(Numeral(neg, z, m)) == Some(if neg then -(m as int) else m as int)
  {
    var ds := Zeros(z) + NatToDigits(m);
    ZerosValue(z, NatToDigits(m));
    if neg {
      assert Numeral(neg, z, m) == "-" + ds;
      assert ("-" + ds)[1..] == ds;
    } else {
      assert Numeral(neg, z, m) == ds;
    }
  }

  /** Superfluous leading zeros change neither digit-ness nor value. */
  lemma {:induction false} ZerosValue(z: nat, ds: string)
    requires AllDigits(ds)
    ensures AllDigits(Zeros(z) + ds) && DigitsValue(Zeros(z) + ds) == DigitsValue(ds)
    decreases z
  {
    if z > 0 {
      ZerosValue(z - 1, ds);
      assert Zeros(z) + ds == "0" + (Zeros(z - 1) + ds);
      ZeroPrefix(Zeros(z - 1) + ds);
    } else {
      assert Zeros(z) + ds == ds;
    }
  }

  /** One leading zero changes neither digit-ness nor value. */
  lemma {:induction false} ZeroPrefix(t: string)
    requires AllDigits(t)
    ensures AllDigits("0" + t) && DigitsValue("0" + t) == DigitsValue(t)
    decreases |t|
  {
    var s := "0" + t;
    if |t| == 0 {
      assert s[..|s| - 1] == "";
    } else {
      assert s[..|s| - 1] == "0" + t[..|t| - 1];
      ZeroPrefix(t[..|t| - 1]);
    }
  }

  /** The number of superfluous zeros at the front of a digit run. */
  function LeadingZeros(ds: string): (z: nat)
    requires |ds| > 0
    ensures z < |ds|
  {
    if |ds| > 1 && ds[0] == '0' then 1 + LeadingZeros(ds[1..]) else 0
  }

  /** A digit run is its superfluous zeros followed by the shortest digits of its value. */
  lemma {:induction false} StripZeros(ds: string)
    requires |ds| > 0 && AllDigits(ds)
    ensures ds == Zeros(LeadingZeros(ds)) + NatToDigits(DigitsValue(ds))
    decreases |ds|
  {
    if |ds| > 1 && ds[0] == '0' {
      var t := ds[1..];
      StripZeros(t);
      assert ds == "0" + t;
      ZeroPrefix(t);
    } else {
      DigitsRoundTrip(ds);
    }
  }

  /** The strings `FromInt` can produce: no leading zero and no `-0`. */
  predicate Canonical(s: string) {
    if |s| > 0 && s[0] == '-' then NoLeadingZero(s[1..]) && s[1] != '0'
    else NoLeadingZero(s)
  }

  /** Parsing undoes rendering: every integer survives `int(str(n))`. */
  lemma ParseFromInt(n: int)
    ensures ParseInt(FromInt(n)) == Some(n)
    ensures Canonical(FromInt(n))
  {
    if n < 0 {
      var ds := NatToDigits(-n);
      assert FromInt(n)[1..] == ds;
    }
  }

  /** A digit run without leading zero is exactly the rendering of its value. */
  lemma {:induction false} DigitsRoundTrip(ds: string)
    requires AllDigits(ds) && NoLeadingZero(ds)
    ensures NatToDigits(DigitsValue(ds)) == ds
    decreases |ds|
  {
    if |ds| > 1 {
      var init := ds[..|ds| - 1];
      DigitsPositive(init);
      DigitsRoundTrip(init);
      assert init + [ds[|ds| - 1]] == ds;
    }
  }

  /** A digit run starting with a non-zero digit denotes a positive number. */
  lemma {:induction false} DigitsPositive(ds: string)
    requires AllDigits(ds) && |ds| > 0 && ds[0] != '0'
    ensures DigitsValue(ds) > 0
    decreases |ds|
  {
    if |ds| > 1 {
      DigitsPositive(ds[..|ds| - 1]);
    }
  }

  /**
   * Rendering undoes parsing on canonical strings, so `FromInt(n)` is the one
   * canonical string that parses to `n`.
   */
  lemma ParseIntCanonical(s: string, n: int)
    ensures ParseInt(s) == Some(n) && Canonical(s) <==> s == FromInt(n)
  {
    ParseFromInt(n);
    if ParseInt(s) == Some(n) && Canonical(s) {
      if s[0] == '-' {
        DigitsRoundTrip(s[1..]);
        DigitsPositive(s[1..]);
        assert s == "-" + s[1..];
      } else {
        DigitsRoundTrip(s);
      }
    }
  }

  /** Distinct integers have distinct canonical strings. */
  lemma FromIntInjective(m: int, n: int)
    ensures FromInt(m) == FromInt(n) <==> m == n
  {
    ParseFromInt(m);
    ParseFromInt(n);
  }
}

/**
 * The identifiers the dashboard hands to new vehicles and requests: a prefix
 * letter followed by the decimal of (current list length + 1), left-padded
 * with '0' to at least three digits ("V001", "R012", "V1000").
 */
module IdGen {

  predicate IsDigit(c: char)
  {
    '0' <= c <= '9'
  }

  function DigitChar(d: nat): (c: char)
    requires d < 10
    ensures IsDigit(c) && (c as int) - ('0' as int) == d
  {
    (('0' as int) + d) as char
  }

  function DigitValue(c: char): (d: nat)
    requires IsDigit(c)
    ensures d < 10 && DigitChar(d) == c
  {
    (c as int) - ('0' as int)
  }

  /** `n.toString()` for a natural number: its shortest decimal form. */
  function Decimal(n: nat): (s: string)
    ensures 1 <= |s|
    ensures forall i :: 0 <= i < |s| ==> IsDigit(s[i])
    ensures n > 0 ==> s[0] != '0'
  {
    if n < 10 then [DigitChar(n)] else Decimal(n / 10) + [DigitChar(n % 10)]
  }

  /** The value of a string of decimal digits, most significant first. */
  function DecimalValue(s: string): nat
    requires forall i :: 0 <= i < |s| ==> IsDigit(s[i])
  {
    if s == [] then 0
    else DecimalValue(s[..|s| - 1]) * 10 + DigitValue(s[|s| - 1])
  }

  /** Reading back the decimal form gives the number. */
  lemma {:induction false} DecimalRoundTrip(n: nat)
    ensures DecimalValue(Decimal(n)) == n
  {
    if n >= 10 {
      DecimalRoundTrip(n / 10);
      var s := Decimal(n);
      assert s[..|s| - 1] == Decimal(n / 10);
    }
  }

  /** `s.padStart(width, c)`. */
  function PadStart(s: string, width: nat, c: char): (r: string)
    ensures |r| == if |s| >= width then |s| else width
    ensures r[|r| - |s|..] == s
    ensures forall i :: 0 <= i < |r| - |s| ==> r[i] == c
  {
    if |s| >= width then s else [c] + PadStart(s, width - 1, c)
  }

  /** Leading zeros do not change the value of a digit string. */
  lemma {:induction false} LeadingZeros(z: string, s: string)
    requires forall i :: 0 <= i < |z| ==> z[i] == '0'
    requires forall i :: 0 <= i < |s| ==> IsDigit(s[i])
    ensures forall i :: 0 <= i < |z + s| ==> IsDigit((z + s)[i])
    ensures DecimalValue(z + s) == DecimalValue(s)
    decreases |s|
  {
    var t := z + s;
    assert forall i :: 0 <= i < |t| ==> IsDigit(t[i]) by {
      forall i | 0 <= i < |t| ensures IsDigit(t[i]) {
        if i < |z| { assert t[i] == z[i]; } else { assert t[i] == s[i - |z|]; }
      }
    }
    if s == [] {
      assert t == z;
      AllZeros(z);
    } else {
      assert t[..|t| - 1] == z + s[..|s| - 1];
      LeadingZeros(z, s[..|s| - 1]);
    }
  }

  lemma {:induction false} AllZeros(z: string)
    requires forall i :: 0 <= i < |z| ==> z[i] == '0'
    ensures DecimalValue(z) == 0
    decreases |z|
  {
    if z != [] {
      AllZeros(z[..|z| - 1]);
    }
  }

  /** The id the n-th element (counting from 0) of a list receives: prefix + padStart(n + 1, 3, '0'). */
  function SequentialId(prefix: char, n: nat): (id: string)
    ensures |id| >= 4 && id[0] == prefix
  {
    [prefix] + PadStart(Decimal(n + 1), 3, '0')
  }

  /** Reads the number back from a sequential id; -1 when it is not the prefix followed by digits. */
  function IdNumber(prefix: char, id: string): (r: int)
  {
    if |id| >= 1 && id[0] == prefix && forall i :: 1 <= i < |id| ==> IsDigit(id[i])
    then DecimalValue(id[1..]) else -1
  }

  /**
   * A new id has the prefix, at least three digits, and encodes length + 1;
   * the padding is minimal: an id longer than four characters has no leading zero.
   */
  lemma SequentialIdShape(prefix: char, n: nat)
    ensures var id := SequentialId(prefix, n);
      |id| >= 4 && id[0] == prefix
      && (forall i :: 1 <= i < |id| ==> IsDigit(id[i]))
      && IdNumber(prefix, id) == n + 1
      && (|id| == 4 || id[1] != '0')
  {
    IdDigits(prefix, n);
    MinimalPadding(prefix, n);
  }

  /** The digits of a new id read back as length + 1. */
  lemma IdDigits(prefix: char, n: nat)
    ensures var id := SequentialId(prefix, n);
      (forall i :: 1 <= i < |id| ==> IsDigit(id[i])) && IdNumber(prefix, id) == n + 1
  {
    var d := Decimal(n + 1);
    var padded := PadStart(d, 3, '0');
    var id := SequentialId(prefix, n);
    assert id[1..] == padded;
    var z := padded[..|padded| - |d|];
    assert padded == z + d;
    LeadingZeros(z, d);
    DecimalRoundTrip(n + 1);
  }

  /** `padStart(3, '0')` pads only up to three digits: a longer id starts its digits with a non-zero one. */
  lemma MinimalPadding(prefix: char, n: nat)
    ensures var id := SequentialId(prefix, n);
      |id| == 4 || id[1] != '0'
  {
    var d := Decimal(n + 1);
    var padded := PadStart(d, 3, '0');
    assert SequentialId(prefix, n)[1..] == padded;
    if |d| >= 3 {
      assert padded == d;
    }
  }

  /** Two lengths give the same id exactly when they are equal. */
  lemma SequentialIdInjective(prefix: char, m: nat, n: nat)
    ensures SequentialId(prefix, m) == SequentialId(prefix, n) <==> m == n
  {
    SequentialIdShape(prefix, m);
    SequentialIdShape(prefix, n);
  }
}

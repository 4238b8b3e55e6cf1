/**
 * The Luhn check of the output filter (src/core/output_filter.py:75-92) and the error-detection
 * properties of the modulus-10 formula of Annex B of ISO/IEC 7812-1.
 */
module Luhn {

  predicate AreDigits(digits: seq<int>) { forall i :: 0 <= i < |digits| ==> 0 <= digits[i] <= 9 }

  function Doubled(d: int): int { if 2 * d > 9 then 2 * d - 9 else 2 * d }

  /** The weight of a digit by its place from the right, the check digit being at place 0. */
  function Weighted(place: nat, d: int): int { if place % 2 == 1 then Doubled(d) else d }

  /** The modulus-10 sum, read from the right. */
  function Total(digits: seq<int>): int
  {
    if digits == [] then 0 else Weighted(|digits| - 1, digits[0]) + Total(digits[1..])
  }

  /** Every second digit, beginning next to the check digit, counts double, less nine if that has two
      digits. */
  lemma TotalIs(d: int, rest: seq<int>)
    requires 0 <= d <= 9
    ensures Total([]) == 0
    ensures |rest| % 2 == 0 ==> Total([d] + rest) == d + Total(rest)
    ensures |rest| % 2 == 1 ==> Total([d] + rest) == (if d < 5 then 2 * d else 2 * d - 9) + Total(rest)
  {
    assert ([d] + rest)[1..] == rest;
  }

  predicate Valid(digits: seq<int>) { 13 <= |digits| <= 19 && Total(digits) % 10 == 0 }

  function Digits(candidate: string): (digits: seq<int>)
    ensures AreDigits(digits)
  {
    if candidate == "" then []
    else (if '0' <= candidate[0] <= '9' then [candidate[0] as int - '0' as int] else []) + Digits(candidate[1..])
  }

  /** The digits as they are printed. */
  function Printed(digits: seq<int>): string
    requires AreDigits(digits)
  {
    seq(|digits|, i requires 0 <= i < |digits| => '0' + digits[i] as char)
  }

  lemma {:induction false} DigitsSplit(a: string, b: string)
    ensures Digits(a + b) == Digits(a) + Digits(b)
  {
    if a == "" {
      assert a + b == b;
    } else {
      assert (a + b)[1..] == a[1..] + b;
      DigitsSplit(a[1..], b);
    }
  }

  /** A printed number is read back whatever other characters stand between its groups. */
  lemma GroupsAreRead(first: seq<int>, between: string, second: seq<int>)
    requires AreDigits(first) && AreDigits(second) && forall c :: c in between ==> !('0' <= c <= '9')
    ensures Digits(Printed(first) + between + Printed(second)) == first + second
  {
    DigitsSplit(Printed(first) + between, Printed(second));
    DigitsSplit(Printed(first), between);
    PrintedIsRead(first);
    PrintedIsRead(second);
    NoDigits(between);
  }

  lemma {:induction false} PrintedIsRead(digits: seq<int>)
    requires AreDigits(digits)
    ensures Digits(Printed(digits)) == digits
  {
    if digits == [] {
    } else {
      assert Printed(digits)[1..] == Printed(digits[1..]);
      PrintedIsRead(digits[1..]);
    }
  }

  lemma {:induction false} NoDigits(text: string)
    requires forall c :: c in text ==> !('0' <= c <= '9')
    ensures Digits(text) == []
  {
    if text == "" {
    } else {
      assert text[0] in text && forall c :: c in text[1..] ==> c in text;
      NoDigits(text[1..]);
    }
  }

  /** The parity test of the loop picks the odd places from the right. */
  lemma TotalFrom(digits: seq<int>, i: nat)
    requires i < |digits|
    ensures Total(digits[i..])
      == (if i % 2 == |digits| % 2 then Doubled(digits[i]) else digits[i]) + Total(digits[i + 1..])
  {
  }

  /** `_luhn_valid`: the left-to-right loop with its parity test computes the formula that is
      stated from the right, for every length. */
  method LuhnValid(candidate: string) returns (valid: bool)
    ensures valid == Valid(Digits(candidate))
    ensures valid <==> 13 <= |Digits(candidate)| <= 19 && Total(Digits(candidate)) % 10 == 0
  {
    var digits := Digits(candidate);
    if !(13 <= |digits| <= 19) {
      return false;
    }
    var checksum := 0;
    var parity := |digits| % 2;
    assert digits[0..] == digits;
    for i := 0 to |digits|
      invariant checksum + Total(digits[i..]) == Total(digits)
    {
      var d := digits[i];
      TotalFrom(digits, i);
      if i % 2 == parity {
        d := d * 2;
        if d > 9 {
          d := d - 9;
        }
      }
      checksum := checksum + d;
    }
    assert digits[|digits|..] == [];
    return checksum % 10 == 0;
  }

  lemma {:induction false} TotalUpdate(digits: seq<int>, k: nat, d: int)
    requires k < |digits|
    ensures Total(digits[k := d])
      == Total(digits) - Weighted(|digits| - 1 - k, digits[k]) + Weighted(|digits| - 1 - k, d)
  {
    var after := digits[k := d];
    if k == 0 {
      assert after[1..] == digits[1..];
    } else {
      TotalUpdate(digits[1..], k - 1, d);
      assert after[1..] == digits[1..][k - 1 := d];
    }
  }

  /** Changing any one digit of a valid number makes it invalid. */
  lemma DetectsOneDigit(digits: seq<int>, k: nat, d: int)
    requires AreDigits(digits) && Valid(digits)
    requires k < |digits| && 0 <= d <= 9 && d != digits[k]
    ensures !Valid(digits[k := d])
  {
    var place := |digits| - 1 - k;
    TotalUpdate(digits, k, d);
    WeightsDiffer(place, digits[k], d);
    SumDivides(Total(digits), Weighted(place, d) - Weighted(place, digits[k]));
  }

  /** Distinct digits have distinct weights at every place, and all weights are digits. */
  lemma WeightsDiffer(place: nat, a: int, b: int)
    requires 0 <= a <= 9 && 0 <= b <= 9 && a != b
    ensures (Weighted(place, b) - Weighted(place, a)) % 10 != 0
  {
  }

  /** How far doubling moves a digit, modulo 10: one value each, except for 0 and 9. */
  lemma DoublingSeparates(a: int, b: int)
    requires 0 <= a <= 9 && 0 <= b <= 9
    ensures (Doubled(a) - a - (Doubled(b) - b)) % 10 == 0 <==> a == b || (a == 0 && b == 9) || (a == 9 && b == 0)
  {
  }

  lemma Negated(x: int)
    ensures x % 10 == 0 <==> (-x) % 10 == 0
  {
  }

  lemma SwapTotals(digits: seq<int>, k: nat, a: int, b: int, place: nat)
    requires k + 1 < |digits| && a == digits[k] && b == digits[k + 1] && place == |digits| - 2 - k
    ensures var change := Doubled(a) - a - (Doubled(b) - b);
      Total(digits[k := b][k + 1 := a]) == Total(digits) + if place % 2 == 1 then change else -change
  {
    TotalUpdate(digits, k, b);
    TotalUpdate(digits[k := b], k + 1, a);
    assert (place + 1) % 2 == 1 <==> place % 2 == 0;
  }

  /** Swapping two neighbours of a valid number goes unnoticed exactly when they are equal, or
      are 0 and 9. */
  lemma DetectsSwap(digits: seq<int>, k: nat)
    requires AreDigits(digits) && Valid(digits) && k + 1 < |digits|
    ensures var a, b := digits[k], digits[k + 1];
      Valid(digits[k := b][k + 1 := a]) <==> a == b || (a == 0 && b == 9) || (a == 9 && b == 0)
  {
    var a, b, place := digits[k], digits[k + 1], |digits| - 2 - k;
    var change := Doubled(a) - a - (Doubled(b) - b);
    SwapTotals(digits, k, a, b, place);
    DoublingSeparates(a, b);
    Negated(change);
    SumDivides(Total(digits), if place % 2 == 1 then change else -change);
  }

  lemma SumDivides(x: int, y: int)
    requires x % 10 == 0
    ensures (x + y) % 10 == 0 <==> y % 10 == 0
  {
  }

  lemma {:induction false} TotalAppend(prefix: seq<int>, c: int)
    ensures Total(prefix + [c]) == Total(prefix + [0]) + c
  {
    if prefix == [] {
      assert ([] + [c])[1..] == [] && ([] + [0])[1..] == [];
    } else {
      TotalAppend(prefix[1..], c);
      assert (prefix + [c])[1..] == prefix[1..] + [c] && (prefix + [0])[1..] == prefix[1..] + [0];
    }
  }

  function CheckDigit(prefix: seq<int>): int { (10 - Total(prefix + [0]) % 10) % 10 }

  /** Every prefix of 12 to 18 digits has exactly one check digit. */
  lemma OneCheckDigit(prefix: seq<int>, c: int)
    requires AreDigits(prefix) && 12 <= |prefix| <= 18 && 0 <= c <= 9
    ensures Valid(prefix + [c]) <==> c == CheckDigit(prefix)
  {
    TotalAppend(prefix, c);
  }
}

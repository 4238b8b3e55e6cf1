/** Small shared vocabulary: optional values, orders and counting. */
module Basics {

  datatype Option<+T> = None | Some(value: T)

  function Min(a: int, b: int): int { if a < b then a else b }

  function Max(a: int, b: int): int { if a < b then b else a }

  /** Lexicographic order on code points: the `<=` of two Python strings. */
  predicate StrLeq(a: string, b: string)
  {
    a == [] || (b != [] && (a[0] < b[0] || (a[0] == b[0] && StrLeq(a[1..], b[1..]))))
  }

  lemma {:induction false} StrLeqTotal(a: string, b: string)
    ensures StrLeq(a, b) || StrLeq(b, a)
  {
    if a == [] || b == [] {
    } else {
      StrLeqTotal(a[1..], b[1..]);
    }
  }

  lemma {:induction false} StrLeqTransitive(a: string, b: string, c: string)
    requires StrLeq(a, b) && StrLeq(b, c)
    ensures StrLeq(a, c)
  {
    if a != [] && a[0] == b[0] == c[0] {
      StrLeqTransitive(a[1..], b[1..], c[1..]);
    }
  }

  /** The first difference decides, and a text comes after what it begins with. */
  lemma {:induction false} FirstDifference(a: string, b: string, k: nat)
    requires k < |a| && k < |b| && a[..k] == b[..k] && a[k] < b[k]
    ensures StrLeq(a, b) && !StrLeq(b, a) && StrLeq(a[..k], a) && !StrLeq(a, a[..k])
  {
    if k == 0 {
    } else {
      assert a[0] == a[..k][0] == b[..k][0] == b[0];
      assert a[1..][..k - 1] == a[..k][1..] && b[1..][..k - 1] == b[..k][1..];
      FirstDifference(a[1..], b[1..], k - 1);
    }
  }

  /** A set and its image under a function that is one-to-one on it have the same size. */
  lemma {:induction false} ImageSize<A(!new), B(!new)>(domain: set<A>, image: set<B>, f: A --> B)
    requires forall x :: x in domain ==> f.requires(x)
    requires forall x, y :: x in domain && y in domain && f(x) == f(y) ==> x == y
    requires forall x :: x in domain ==> f(x) in image
    requires forall z :: z in image ==> exists x :: x in domain && f(x) == z
    ensures |domain| == |image|
  {
    if domain == {} {
      assert image == {};
    } else {
      var x :| x in domain;
      forall z | z in image - {f(x)}
        ensures exists y :: y in domain - {x} && f(y) == z
      {
        var y :| y in domain && f(y) == z;
        assert y in domain - {x};
      }
      ImageSize(domain - {x}, image - {f(x)}, f);
    }
  }

  lemma SubsetSize<T>(a: set<T>, b: set<T>)
    requires a <= b
    ensures |a| <= |b|
    ensures |a| == |b| <==> a == b
  {
    assert b == a + (b - a);
  }

  // ----- text -----

  /** What `\s`, `str.strip` and `str.split` take for white space. */
  predicate IsWhitespace(c: char)
  {
    || '\t' <= c <= '\r' || '\U{1c}' <= c <= ' ' || c == '\U{85}' || c == '\U{a0}' || c == '\U{1680}'
    || '\U{2000}' <= c <= '\U{200a}' || c == '\U{2028}' || c == '\U{2029}' || c == '\U{202f}'
    || c == '\U{205f}' || c == '\U{3000}'
  }

  const DIGITS := ['0', '1', '2', '3', '4', '5', '6', '7', '8', '9']

  function Decimal(n: nat): (text: string)
    ensures |text| >= 1
  {
    if n < 10 then [DIGITS[n]] else Decimal(n / 10) + [DIGITS[n % 10]]
  }

  lemma {:induction false} DecimalIsInjective(m: nat, n: nat)
    requires Decimal(m) == Decimal(n)
    ensures m == n
  {
    if m < 10 || n < 10 {
    } else {
      var dm, dn := Decimal(m), Decimal(n);
      assert dm[..|dm| - 1] == Decimal(m / 10) && dn[..|dn| - 1] == Decimal(n / 10);
      assert dm[|dm| - 1] == DIGITS[m % 10] && dn[|dn| - 1] == DIGITS[n % 10];
      DecimalIsInjective(m / 10, n / 10);
    }
  }

  /** The number that a run of digits stands for. */
  function ReadDigits(text: string): nat
  {
    if text == "" then 0
    else
      var c := text[|text| - 1];
      10 * ReadDigits(text[..|text| - 1]) + if '0' <= c <= '9' then c as int - '0' as int else 0
  }

  lemma DigitsInOrder(d: nat)
    requires d < 10
    ensures '0' <= DIGITS[d] <= '9' && DIGITS[d] as int - '0' as int == d
  {
  }

  lemma DigitsOfMore(text: string, c: char)
    requires '0' <= c <= '9'
    ensures ReadDigits(text + [c]) == 10 * ReadDigits(text) + (c as int - '0' as int)
  {
    assert (text + [c])[..|text|] == text;
  }

  /** A number is written in digits, without a zero in front, and reads back as itself. */
  lemma {:induction false} DecimalReadsBack(n: nat)
    ensures ReadDigits(Decimal(n)) == n
    ensures forall c :: c in Decimal(n) ==> '0' <= c <= '9'
    ensures n > 0 ==> Decimal(n)[0] != '0'
  {
    DigitsInOrder(n % 10);
    if n < 10 {
      DigitsOfMore("", DIGITS[n]);
      assert "" + [DIGITS[n]] == [DIGITS[n]];
    } else {
      DecimalReadsBack(n / 10);
      DigitsOfMore(Decimal(n / 10), DIGITS[n % 10]);
    }
  }

  lemma {:induction false} DecimalGrows(m: nat, n: nat)
    requires m <= n
    ensures |Decimal(m)| <= |Decimal(n)|
  {
    if m < 10 {
    } else {
      DecimalGrows(m / 10, n / 10);
    }
  }
}

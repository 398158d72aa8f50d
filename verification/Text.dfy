/**
 * Text as the application compares and prints it: order of strings, decimal
 * numerals, fixed-width digits.
 */
module Text {

  /** `a < b` on strings: the first difference decides, a proper prefix is smaller. */
  predicate Less(a: string, b: string) {
    b != [] && (a == [] || a[0] < b[0] || (a[0] == b[0] && Less(a[1..], b[1..])))
  }

  lemma {:induction false} LessIsStrictOrder(a: string, b: string, c: string)
    ensures !Less(a, a)
    ensures Less(a, b) ==> !Less(b, a)
    ensures a == b || Less(a, b) || Less(b, a)
    ensures Less(a, b) && Less(b, c) ==> Less(a, c)
  {
    var x := if a == [] then a else a[1..];
    var y := if b == [] then b else b[1..];
    var z := if c == [] then c else c[1..];
    if a != [] {
      LessIsStrictOrder(x, y, z);
      assert b != [] && x == y && a[0] == b[0] ==> a == [a[0]] + x == [b[0]] + y == b;
    }
  }

  /** A difference under a common prefix decides the order. */
  lemma {:induction false} LessUnderPrefix(p: string, a: string, b: string)
    ensures Less(p + a, p + b) <==> Less(a, b)
  {
    if p == [] {
      assert p + a == a && p + b == b;
    } else {
      assert (p + a)[1..] == p[1..] + a && (p + b)[1..] == p[1..] + b;
      LessUnderPrefix(p[1..], a, b);
    }
  }

  /** Two different texts of one length stay in order whatever follows them. */
  lemma {:induction false} LessBySameLengthPrefix(p: string, q: string, a: string, b: string)
    requires |p| == |q| && p != q
    ensures Less(p + a, q + b) <==> Less(p, q)
  {
    assert (p + a)[1..] == p[1..] + a && (q + b)[1..] == q[1..] + b;
    if p[0] == q[0] {
      assert p[1..] != q[1..] by {
        assert p == [p[0]] + p[1..] && q == [q[0]] + q[1..];
      }
      LessBySameLengthPrefix(p[1..], q[1..], a, b);
    }
  }

  predicate IsDigit(c: char) { '0' <= c <= '9' }

  function DigitChar(d: nat): (c: char)
    requires d < 10
    ensures IsDigit(c) && c as int - '0' as int == d
  {
    ('0' as int + d) as char
  }

  function DigitValue(c: char): nat
    requires IsDigit(c)
  {
    c as int - '0' as int
  }

  predicate AllDigits(s: string) {
    forall i :: 0 <= i < |s| ==> IsDigit(s[i])
  }

  /** `Number(s)` on a run of digits. */
  function Value(s: string): nat
    requires AllDigits(s)
  {
    if s == [] then 0 else 10 * Value(s[..|s| - 1]) + DigitValue(s[|s| - 1])
  }

  function Pow10(w: nat): (p: nat)
    ensures p >= 1
  {
    if w == 0 then 1 else 10 * Pow10(w - 1)
  }

  /** `String(n).padStart(w, "0")` for a number of at most w digits. */
  function Digits(n: nat, w: nat): (s: string)
    requires n < Pow10(w)
    ensures |s| == w && AllDigits(s)
  {
    if w == 0 then [] else Digits(n / 10, w - 1) + [DigitChar(n % 10)]
  }

  lemma {:induction false} DigitsRoundTrip(n: nat, w: nat)
    requires n < Pow10(w)
    ensures Value(Digits(n, w)) == n
  {
    if w > 0 {
      DigitsRoundTrip(n / 10, w - 1);
      assert Digits(n, w)[..w - 1] == Digits(n / 10, w - 1);
    }
  }

  lemma {:induction false} ValueRoundTrip(s: string)
    requires AllDigits(s)
    ensures Value(s) < Pow10(|s|) && Digits(Value(s), |s|) == s
  {
    if s != [] {
      var t := s[..|s| - 1];
      ValueRoundTrip(t);
      assert Value(s) / 10 == Value(t) && Value(s) % 10 == DigitValue(s[|s| - 1]);
      assert s == t + [s[|s| - 1]];
    }
  }

  lemma DigitsDiffer(n: nat, m: nat, w: nat)
    requires n < Pow10(w) && m < Pow10(w) && n != m
    ensures Digits(n, w) != Digits(m, w)
  {
    DigitsRoundTrip(n, w);
    DigitsRoundTrip(m, w);
  }

  lemma LessByLastDigit(p: string, i: nat, j: nat)
    requires i < 10 && j < 10
    ensures Less(p + [DigitChar(i)], p + [DigitChar(j)]) <==> i < j
  {
    LessUnderPrefix(p, [DigitChar(i)], [DigitChar(j)]);
  }

  /** Zero-padded numerals of one width sort as the numbers do. */
  lemma {:induction false} DigitsOrder(n: nat, m: nat, w: nat)
    requires n < Pow10(w) && m < Pow10(w)
    ensures Less(Digits(n, w), Digits(m, w)) <==> n < m
  {
    if w > 0 {
      var p, q := n / 10, m / 10;
      if p == q {
        LessByLastDigit(Digits(p, w - 1), n % 10, m % 10);
      } else {
        DigitsDiffer(p, q, w - 1);
        LessBySameLengthPrefix(Digits(p, w - 1), Digits(q, w - 1), [DigitChar(n % 10)], [DigitChar(m % 10)]);
        DigitsOrder(p, q, w - 1);
      }
    }
  }

  /** `String(n)` of a natural number. */
  function NatText(n: nat): (s: string)
    ensures s != [] && AllDigits(s)
  {
    if n < 10 then [DigitChar(n)] else NatText(n / 10) + [DigitChar(n % 10)]
  }

  lemma {:induction false} NatTextRoundTrip(n: nat)
    ensures Value(NatText(n)) == n
  {
    if n >= 10 {
      NatTextRoundTrip(n / 10);
      assert NatText(n)[..|NatText(n)| - 1] == NatText(n / 10);
    } else {
      assert NatText(n)[..0] == [];
    }
  }

  lemma NatTextInjective(n: nat, m: nat)
    requires NatText(n) == NatText(m)
    ensures n == m
  {
    NatTextRoundTrip(n);
    NatTextRoundTrip(m);
  }
}

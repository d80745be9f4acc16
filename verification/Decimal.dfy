// Decimal notation: what strconv writes and what the server's own readers make of it.
module Decimal {
  import opened Bytes

  const MINUS: byte := 45  // '-'
  const ZERO: byte := 48   // '0'

  function Digits(n: nat): (t: Text)
    ensures |t| >= 1
  {
    if n < 10 then [ZERO + n] else Digits(n / 10) + [ZERO + n % 10]
  }

  /** strconv.FormatInt in base ten. */
  function FormatInt(v: int64): Text {
    if v < 0 then [MINUS] + Digits(-(v as int)) else Digits(v)
  }

  predicate IsDigit(b: byte) {
    ZERO <= b <= ZERO + 9
  }

  predicate AllDigits(t: Text) {
    forall i :: 0 <= i < |t| ==> IsDigit(t[i])
  }

  /** The value a digit loop computes when nothing overflows; the digit is a byte difference,
      so characters below '0' count as 256 more. */
  function Accumulate(acc: int, t: Text): int
    decreases |t|
  {
    if t == [] then acc else Accumulate(acc * 10 + (t[0] - ZERO) % 256, t[1..])
  }

  /** The same loop on a 64-bit accumulator. */
  function Accumulate64(acc: int64, t: Text): int64
    decreases |t|
  {
    if t == [] then acc else Accumulate64(Wrap64(acc * 10 + (t[0] - ZERO) % 256), t[1..])
  }

  lemma WrapStep(a: int, d: int)
    ensures Wrap64(Wrap64(a) * 10 + d) == Wrap64(a * 10 + d)
  {
    var q := (a - Wrap64(a)) / TWO_64;
    assert a == Wrap64(a) + q * TWO_64 by {
      assert a == (a / TWO_64) * TWO_64 + a % TWO_64;
    }
    assert a * 10 + d == (Wrap64(a) * 10 + d) + (10 * q) * TWO_64;
    WrapPeriodic(Wrap64(a) * 10 + d, 10 * q);
  }

  lemma WrapPeriodic(x: int, q: int)
    ensures Wrap64(x + q * TWO_64) == Wrap64(x)
  {
    QuotientUnique(x + q * TWO_64, TWO_64, x / TWO_64 + q, x % TWO_64);
  }

  /** Overflow only ever truncates: the loop computes the true sum modulo 2^64. */
  lemma {:induction false} AccumulateWraps(a: int, t: Text)
    ensures Accumulate64(Wrap64(a), t) == Wrap64(Accumulate(a, t))
    decreases |t|
  {
    if t != [] {
      var d := (t[0] - ZERO) % 256;
      WrapStep(a, d);
      AccumulateWraps(a * 10 + d, t[1..]);
    }
  }

  lemma {:induction false} AccumulateSnoc(acc: int, t: Text, b: byte)
    ensures Accumulate(acc, t + [b]) == Accumulate(acc, t) * 10 + (b - ZERO) % 256
    decreases |t|
  {
    if t == [] {
      assert t + [b] == [b];
      assert [b][1..] == [];
    } else {
      assert (t + [b])[1..] == t[1..] + [b];
      AccumulateSnoc(acc * 10 + (t[0] - ZERO) % 256, t[1..], b);
    }
  }

  lemma {:induction false} Accumulate64Snoc(acc: int64, t: Text, b: byte)
    ensures Accumulate64(acc, t + [b]) == Wrap64(Accumulate64(acc, t) * 10 + (b - ZERO) % 256)
    decreases |t|
  {
    if t == [] {
      assert t + [b] == [b];
      assert [b][1..] == [];
    } else {
      assert (t + [b])[1..] == t[1..] + [b];
      Accumulate64Snoc(Wrap64(acc * 10 + (t[0] - ZERO) % 256), t[1..], b);
    }
  }

  function Pow10(k: nat): (p: nat)
    ensures p >= 1
  {
    if k == 0 then 1 else 10 * Pow10(k - 1)
  }

  /** The number of digits of n is its magnitude. */
  lemma {:induction false} DigitsMagnitude(n: nat)
    ensures AllDigits(Digits(n))
    ensures n < Pow10(|Digits(n)|)
    ensures n > 0 ==> Pow10(|Digits(n)| - 1) <= n
  {
    if n < 10 {
      assert Pow10(1) == 10 * Pow10(0);
    } else {
      DigitsMagnitude(n / 10);
      var k := |Digits(n / 10)|;
      assert Pow10(k + 1) == 10 * Pow10(k);
      assert Pow10(k) == 10 * Pow10(k - 1);
    }
  }

  /** The digit at position i, counted from the front, is that of the matching power of ten. */
  lemma {:induction false} DigitAt(n: nat, i: nat)
    requires i < |Digits(n)|
    ensures Digits(n)[i] == 48 + n / Pow10(|Digits(n)| - 1 - i) % 10
  {
    if n >= 10 {
      var k := |Digits(n / 10)|;
      if i < k {
        DigitAt(n / 10, i);
        DivideByTen(n, Pow10(k - 1 - i));
        assert Pow10(k - i) == 10 * Pow10(k - 1 - i);
      }
    }
  }

  lemma DivideByTen(n: nat, p: nat)
    requires p > 0
    ensures n / 10 / p == n / (10 * p)
  {
    var q, r := n / 10 / p, (n / 10) % p;
    assert n / 10 == q * p + r;
    assert n == 10 * (q * p + r) + n % 10;
    assert n == q * (10 * p) + (10 * r + n % 10);
    assert 0 <= 10 * r + n % 10 < 10 * p by {
      assert r <= p - 1;
    }
    QuotientUnique(n, 10 * p, q, 10 * r + n % 10);
  }

  /** A negative number is written with a minus sign in front of its digits. */
  lemma SignedText(v: int64)
    ensures v >= 0 ==> FormatInt(v) == Digits(v)
    ensures v < 0 ==> FormatInt(v) == [45] + Digits(-(v as int))
  {
  }

  /** After any prefix acc the digits of n read as acc shifted by their number, plus n. */
  lemma {:induction false} DigitsValue(acc: int, n: nat)
    ensures Accumulate(acc, Digits(n)) == acc * Pow10(|Digits(n)|) + n
    decreases n
  {
    hide Digits, Pow10, Accumulate;
    if n < 10 {
      OneDigit(acc, n);
    } else {
      var m, d := n / 10, n % 10;
      LastDigit(n);
      DigitsValue(acc, m);
      AccumulateSnoc(acc, Digits(m), ZERO + d);
      Shift(acc, Pow10(|Digits(m)|), m, d);
    }
  }

  lemma OneDigit(acc: int, n: nat)
    requires n < 10
    ensures |Digits(n)| == 1 && Accumulate(acc, Digits(n)) == acc * Pow10(1) + n
  {
    assert Pow10(1) == 10 * Pow10(0);
    assert Digits(n)[1..] == [];
  }

  lemma LastDigit(n: nat)
    requires n >= 10
    ensures Digits(n) == Digits(n / 10) + [ZERO + n % 10]
    ensures Pow10(|Digits(n)|) == 10 * Pow10(|Digits(n / 10)|)
  {
  }

  lemma Shift(acc: int, p: int, m: int, d: int)
    ensures (acc * p + m) * 10 + d == acc * (10 * p) + (10 * m + d)
  {
  }

  /** Digits of different numbers differ, and only zero starts with '0'. */
  lemma DigitsInjective(m: nat, n: nat)
    requires Digits(m) == Digits(n)
    ensures m == n
  {
    DigitsValue(0, m);
    DigitsValue(0, n);
  }

  // ----- reading back what was written -----

  /** What the reader makes of a written integer. */
  function Reread(v: int64): int64 {
    Accumulate64(0, FormatInt(v))
  }

  lemma NatReadBack(n: nat)
    requires n < TWO_63
    ensures Accumulate64(0, Digits(n)) == n
  {
    hide Digits, Pow10, Accumulate, Accumulate64;
    assert Wrap64(0) == 0;
    AccumulateWraps(0, Digits(n));
    DigitsValue(0, n);
  }

  lemma NegativeReadBack(m: nat)
    requires 1 <= m <= TWO_63
    ensures Reread(-(m as int)) == Wrap64(253 * Pow10(|Digits(m)|) + m)
  {
    assert Wrap64(0) == 0;
    var t := [MINUS] + Digits(m);
    assert FormatInt(-(m as int)) == t;
    hide Digits, Pow10, Accumulate64;
    MinusFirst(Digits(m));
    hide Accumulate;
    AccumulateWraps(0, t);
    DigitsValue(253, m);
  }

  /** The minus sign itself is read as the digit 253. */
  lemma MinusFirst(t: Text)
    ensures Accumulate(0, [MINUS] + t) == Accumulate(253, t)
  {
    assert ([MINUS] + t)[1..] == t;
  }

  /** The one negative number whose misread digits wrap around to itself. */
  const WRAPS_TO_ITSELF: int := -7825341085959061504

  lemma Pow10Steps(k: nat)
    ensures Pow10(k + 1) == 10 * Pow10(k)
    ensures k >= 1 ==> Pow10(k) == 10 * Pow10(k - 1)
  {
  }

  lemma Pow10At(k: nat)
    ensures k == 0 ==> Pow10(k) == 1
    ensures k == 4 ==> Pow10(k) == 10000
    ensures k == 8 ==> Pow10(k) == 100000000
    ensures k == 12 ==> Pow10(k) == 1000000000000
    ensures k == 16 ==> Pow10(k) == 10000000000000000
  {
    if k >= 4 {
      Pow10At(k - 4);
      Pow10Steps(k - 1);
      Pow10Steps(k - 2);
      Pow10Steps(k - 3);
      Pow10Steps(k - 4);
    }
  }

  lemma {:induction false} Pow10Monotone(j: nat, k: nat)
    requires j <= k
    ensures Pow10(j) <= Pow10(k)
  {
    if j < k {
      Pow10Monotone(j, k - 1);
    }
  }

  lemma Pow10High()
    ensures Pow10(16) == 1_0000_0000_0000_0000
    ensures Pow10(17) == 10_0000_0000_0000_0000
    ensures Pow10(18) == 100_0000_0000_0000_0000
    ensures Pow10(19) == 1000_0000_0000_0000_0000
  {
    Pow10At(16);
    Pow10Steps(16);
    Pow10Steps(17);
    Pow10Steps(18);
  }

  /** A negative integer never survives the reader, with a single exception. */
  lemma NegativeExact(m: nat)
    requires 1 <= m <= TWO_63
    ensures Reread(-(m as int)) == -(m as int) <==> -(m as int) == WRAPS_TO_ITSELF
  {
    hide Digits, Pow10, Reread;
    NegativeReadBack(m);
    DigitsMagnitude(m);
    Pow10High();
    var k := |Digits(m)|;
    if k >= 20 {
      Pow10Monotone(19, k - 1);
    } else if k <= 16 {
      Pow10Monotone(k, 16);
      QuotientUnique(253 * Pow10(k) + m, TWO_64, 0, 253 * Pow10(k) + m);
    } else if k == 17 {
      QuotientUnique(253 * Pow10(17) + m, TWO_64, 1, 253 * Pow10(17) + m - TWO_64);
    } else if k == 18 {
      QuotientUnique(253 * Pow10(18) + m, TWO_64, 13, 253 * Pow10(18) + m - 13 * TWO_64);
    } else {
      QuotientUnique(253 * Pow10(19) + m, TWO_64, 137, 253 * Pow10(19) + m - 137 * TWO_64);
    }
  }

  predicate Readable(v: int64) {
    v >= 0 || v == WRAPS_TO_ITSELF
  }

  /** The reader inverts the writer exactly on the readable integers. */
  lemma IntExact(v: int64)
    ensures Reread(v) == v <==> Readable(v)
  {
    if v >= 0 {
      NatReadBack(v);
    } else {
      NegativeExact(-(v as int));
    }
  }

  lemma NoReturn(v: int64)
    ensures forall i :: 0 <= i < |FormatInt(v)| ==> FormatInt(v)[i] != 13
  {
    DigitsMagnitude(if v < 0 then -(v as int) else v);
  }
}

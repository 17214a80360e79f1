/** A Java `int` as the 32-bit two's-complement pattern the settings screen
    manipulates, least significant bit first, with the Java operators the
    screen uses on it and the conversions to and from the integer it
    denotes. */
module Bits {

  /** The bit pattern of a Java `int`; bit `i` has weight 2^i (the top bit,
      31, is the sign). */
  type Word = w: seq<bool> | |w| == 32 witness seq(32, i => false)

  /** The range of a Java `int`. */
  type JavaInt = x: int | -0x8000_0000 <= x < 0x8000_0000

  /** The all-clear word, Java's `0`. */
  function Zero(): Word
  {
    seq(32, i => false)
  }

  /** Java's `a | b`. */
  function Or(a: Word, b: Word): Word
  {
    seq(32, i requires 0 <= i < 32 => a[i] || b[i])
  }

  /** Java's `a & b`. */
  function And(a: Word, b: Word): Word
  {
    seq(32, i requires 0 <= i < 32 => a[i] && b[i])
  }

  /** Java's `~a`. */
  function Not(a: Word): Word
  {
    seq(32, i requires 0 <= i < 32 => !a[i])
  }

  /** Java's `a << n` for a shift count `n` below 32: bits move up and those
      past bit 31 are lost. */
  function ShiftLeft(a: Word, n: nat): Word
    requires n < 32
  {
    seq(32, i requires 0 <= i < 32 => i >= n && a[i - n])
  }

  /** Java's `a >>> n` for a shift count `n` below 32: bits move down and the
      top `n` bits become clear, whatever the sign bit. */
  function ShiftRightUnsigned(a: Word, n: nat): Word
    requires n < 32
  {
    seq(32, i requires 0 <= i < 32 => i + n < 32 && a[i + n])
  }

  /** Ripple-carry addition of two equally long bit strings with carry-in
      `c`; the carry out of the top bit is dropped. */
  function AddCarry(a: seq<bool>, b: seq<bool>, c: bool): (r: seq<bool>)
    requires |a| == |b|
    ensures |r| == |a|
  {
    if |a| == 0 then []
    else [a[0] != (b[0] != c)] + AddCarry(a[1..], b[1..], Carry(a[0], b[0], c))
  }

  /** The carry out of one full-adder stage. */
  function Carry(x: bool, y: bool, c: bool): bool
  {
    (x && y) || (c && (x || y))
  }

  /** The carry out of the top bit of `AddCarry`. */
  function CarryOut(a: seq<bool>, b: seq<bool>, c: bool): bool
    requires |a| == |b|
  {
    if |a| == 0 then c else CarryOut(a[1..], b[1..], Carry(a[0], b[0], c))
  }

  /** Java's `a + b` on `int`: wraps around at 32 bits. */
  function Add(a: Word, b: Word): Word
  {
    AddCarry(a, b, false)
  }

  /** No bit is set in both words. */
  predicate Disjoint(a: Word, b: Word)
  {
    forall i | 0 <= i < 32 :: !(a[i] && b[i])
  }

  /** Every bit set in `w` is a bit of `m`. */
  predicate Within(w: Word, m: Word)
  {
    forall i | 0 <= i < 32 :: w[i] ==> m[i]
  }

  /** `x` and `y` differ at most on bits of `m`. */
  predicate AgreeOff(x: Word, y: Word, m: Word)
  {
    forall i | 0 <= i < 32 :: !m[i] ==> x[i] == y[i]
  }

  /** 2^n. */
  function Pow2(n: nat): (r: nat)
    ensures r >= 1
  {
    if n == 0 then 1 else 2 * Pow2(n - 1)
  }

  /** The powers of two the screen's shifts and word size use. */
  lemma Pow2Values()
    ensures Pow2(16) == 0x1_0000
    ensures Pow2(31) == 0x8000_0000
    ensures Pow2(32) == 0x1_0000_0000
  {
    assert Pow2(4) == 16;
    assert Pow2(8) == 256 by {
      assert Pow2(6) == 64;
    }
    assert Pow2(12) == 4096 by {
      assert Pow2(10) == 1024;
    }
    assert Pow2(16) == 0x1_0000 by {
      assert Pow2(14) == 0x4000;
    }
    assert Pow2(20) == 0x10_0000 by {
      assert Pow2(18) == 0x4_0000;
    }
    assert Pow2(24) == 0x100_0000 by {
      assert Pow2(22) == 0x40_0000;
    }
    assert Pow2(28) == 0x1000_0000 by {
      assert Pow2(26) == 0x400_0000;
    }
    assert Pow2(31) == 0x8000_0000 by {
      assert Pow2(30) == 0x4000_0000;
    }
  }

  /** The unsigned value of a bit string, least significant bit first. */
  function ToNat(s: seq<bool>): nat
  {
    if |s| == 0 then 0 else (if s[0] then 1 else 0) + 2 * ToNat(s[1..])
  }

  /** The low `len` bits of `n`, least significant first. */
  function FromNat(n: nat, len: nat): (r: seq<bool>)
    ensures |r| == len
  {
    if len == 0 then [] else [n % 2 == 1] + FromNat(n / 2, len - 1)
  }

  /** The Java `int` whose pattern is `w`: the top bit weighs -2^31. */
  function ToInt(w: Word): (x: JavaInt)
    ensures x < 0 <==> w[31]
  {
    TopBit(w);
    if w[31] then ToNat(w) - 0x1_0000_0000 else ToNat(w)
  }

  /** The pattern of the Java `int` `x`. */
  function FromInt(x: JavaInt): Word
  {
    FromNat(if x < 0 then x + 0x1_0000_0000 else x, 32)
  }

  /** A bit string of length `n` denotes a value below 2^n. */
  lemma {:induction false} ToNatBound(s: seq<bool>)
    ensures ToNat(s) < Pow2(|s|)
  {
    if |s| > 0 {
      ToNatBound(s[1..]);
    }
  }

  /** The value of a bit string is that of all but its last bit plus the
      weight of the last bit. */
  lemma {:induction false} ToNatLast(s: seq<bool>)
    requires |s| > 0
    ensures ToNat(s) == ToNat(s[..|s| - 1]) + (if s[|s| - 1] then Pow2(|s| - 1) else 0)
  {
    if |s| > 1 {
      ToNatLast(s[1..]);
      assert s[1..][..|s| - 2] == s[..|s| - 1][1..];
    }
  }

  /** The top bit of a word is set exactly when its unsigned value reaches
      2^31. */
  lemma TopBit(w: Word)
    ensures w[31] <==> ToNat(w) >= 0x8000_0000
    ensures ToNat(w) < 0x1_0000_0000
  {
    ToNatLast(w);
    ToNatBound(w[..31]);
    Pow2Values();
  }

  /** Reading back the low `len` bits of a value below 2^len gives the
      value. */
  lemma {:induction false} ToNatFromNat(n: nat, len: nat)
    requires n < Pow2(len)
    ensures ToNat(FromNat(n, len)) == n
  {
    if len > 0 {
      ToNatFromNat(n / 2, len - 1);
      assert FromNat(n, len)[1..] == FromNat(n / 2, len - 1);
    }
  }

  /** Writing out the value of a bit string gives back the bit string. */
  lemma {:induction false} FromNatToNat(s: seq<bool>)
    ensures FromNat(ToNat(s), |s|) == s
  {
    if |s| > 0 {
      FromNatToNat(s[1..]);
      assert ToNat(s) / 2 == ToNat(s[1..]);
    }
  }

  /** The pattern of a Java `int` denotes that `int`. */
  lemma ToIntFromInt(x: JavaInt)
    ensures ToInt(FromInt(x)) == x
  {
    Pow2Values();
    ToNatFromNat(if x < 0 then x + 0x1_0000_0000 else x, 32);
  }

  /** Every pattern is the pattern of the `int` it denotes. */
  lemma FromIntToInt(w: Word)
    ensures FromInt(ToInt(w)) == w
  {
    FromNatToNat(w);
  }

  /** A value below 2^k has no bit set from bit `k` up. */
  lemma {:induction false} FromNatHighClear(n: nat, len: nat, k: nat)
    requires n < Pow2(k)
    ensures forall i | k <= i < len :: !FromNat(n, len)[i]
  {
    if len > 0 && k > 0 {
      FromNatHighClear(n / 2, len - 1, k - 1);
      forall i | k <= i < len
        ensures !FromNat(n, len)[i]
      {
        assert FromNat(n, len)[i] == FromNat(n / 2, len - 1)[i - 1];
      }
    } else if len > 0 {
      assert n == 0;
      ZeroFromNat(len);
    }
  }

  /** Zero written out has no bit set. */
  lemma {:induction false} ZeroFromNat(len: nat)
    ensures forall i | 0 <= i < len :: !FromNat(0, len)[i]
  {
    if len > 0 {
      ZeroFromNat(len - 1);
      assert FromNat(0, len)[1..] == FromNat(0, len - 1);
    }
  }

  /** A bit string with no bit set from bit `k` up denotes a value below
      2^k. */
  lemma {:induction false} ToNatHighClear(s: seq<bool>, k: nat)
    requires forall i | k <= i < |s| :: !s[i]
    ensures ToNat(s) < Pow2(k)
  {
    if |s| == 0 {
    } else if k == 0 {
      ToNatZero(s);
    } else {
      ToNatHighClear(s[1..], k - 1);
    }
  }

  /** A bit string with no bit set denotes zero. */
  lemma {:induction false} ToNatZero(s: seq<bool>)
    requires forall i | 0 <= i < |s| :: !s[i]
    ensures ToNat(s) == 0
  {
    if |s| > 0 {
      ToNatZero(s[1..]);
    }
  }

  /** The adder adds: its result plus the weight of the dropped carry is the
      sum of the operands and the carry in. */
  lemma {:induction false} AddCarryValue(a: seq<bool>, b: seq<bool>, c: bool)
    requires |a| == |b|
    ensures ToNat(AddCarry(a, b, c)) + (if CarryOut(a, b, c) then Pow2(|a|) else 0)
            == ToNat(a) + ToNat(b) + (if c then 1 else 0)
  {
    if |a| > 0 {
      AddCarryValue(a[1..], b[1..], Carry(a[0], b[0], c));
      assert AddCarry(a, b, c)[1..] == AddCarry(a[1..], b[1..], Carry(a[0], b[0], c));
    }
  }

  /** Java's `+` is addition modulo 2^32 on the unsigned values. */
  lemma AddIsModular(a: Word, b: Word)
    ensures ToNat(Add(a, b)) == (ToNat(a) + ToNat(b)) % 0x1_0000_0000
  {
    AddCarryValue(a, b, false);
    ToNatBound(Add(a, b));
    Pow2Values();
  }

  /** Without a shared bit no stage of the adder carries, so each result bit
      is the or of the operand bits. */
  lemma {:induction false} DisjointAddCarry(a: seq<bool>, b: seq<bool>)
    requires |a| == |b|
    requires forall i | 0 <= i < |a| :: !(a[i] && b[i])
    ensures forall i | 0 <= i < |a| :: AddCarry(a, b, false)[i] == (a[i] || b[i])
  {
    if |a| > 0 {
      DisjointAddCarry(a[1..], b[1..]);
      forall i | 0 < i < |a|
        ensures AddCarry(a, b, false)[i] == (a[i] || b[i])
      {
        assert AddCarry(a, b, false)[i] == AddCarry(a[1..], b[1..], false)[i - 1];
      }
    }
  }

  /** Adding two words with no bit in common is their union. */
  lemma DisjointAddIsOr(a: Word, b: Word)
    requires Disjoint(a, b)
    ensures Add(a, b) == Or(a, b)
  {
    DisjointAddCarry(a, b);
  }

  /** A bit the operands share makes the sum differ from the union at or
      below it: the lowest shared bit adds to 0 with nothing carried in. */
  lemma {:induction false} OverlapAddCarry(a: seq<bool>, b: seq<bool>, i: nat)
    requires |a| == |b| && i < |a| && a[i] && b[i]
    ensures exists j | 0 <= j <= i :: AddCarry(a, b, false)[j] != (a[j] || b[j])
  {
    if a[0] && b[0] {
      assert !AddCarry(a, b, false)[0];
    } else {
      OverlapAddCarry(a[1..], b[1..], i - 1);
      var j :| 0 <= j <= i - 1 && AddCarry(a[1..], b[1..], false)[j] != (a[1..][j] || b[1..][j]);
      assert AddCarry(a, b, false)[j + 1] == AddCarry(a[1..], b[1..], false)[j];
    }
  }

  /** Java's `+` on two words equals their `|` exactly when they share no
      bit. */
  lemma AddIsOrIffDisjoint(a: Word, b: Word)
    ensures Add(a, b) == Or(a, b) <==> Disjoint(a, b)
  {
    if Disjoint(a, b) {
      DisjointAddIsOr(a, b);
    } else {
      var i :| 0 <= i < 32 && a[i] && b[i];
      OverlapAddCarry(a, b, i);
      var j :| 0 <= j <= i && Add(a, b)[j] != (a[j] || b[j]);
      assert Add(a, b)[j] != Or(a, b)[j];
    }
  }

  /** An unsigned shift by 16 leaves a Java `int` in [0, 2^16). */
  lemma ShiftOutSmall(w: Word)
    ensures 0 <= ToInt(ShiftRightUnsigned(w, 16)) < 0x1_0000
  {
    ToNatHighClear(ShiftRightUnsigned(w, 16), 16);
    Pow2Values();
  }

  /** A Java `int` in [0, 2^16) survives `<< 16` then `>>> 16`. */
  lemma ShiftOutIn(p: JavaInt)
    requires 0 <= p < 0x1_0000
    ensures ShiftRightUnsigned(ShiftLeft(FromInt(p), 16), 16) == FromInt(p)
  {
    Pow2Values();
    FromNatHighClear(p, 32, 16);
  }

  /** 2^(a + b) is 2^a times 2^b. */
  lemma {:induction false} Pow2Add(a: nat, b: nat)
    ensures Pow2(a + b) == Pow2(a) * Pow2(b)
  {
    if a > 0 {
      Pow2Add(a - 1, b);
    }
  }

  /** The arithmetic of one step of `ToNatSplit`: a bit `b` in front of a
      split value shifts both halves up by one place. */
  lemma SplitStep(b: nat, low: nat, p: nat, high: nat, tail: nat)
    requires tail == low + p * high
    ensures b + 2 * tail == (b + 2 * low) + (2 * p) * high
  {
  }

  /** A bit string's value splits at bit `k` into the value of the bits
      below `k` and 2^k times the value of the rest. */
  lemma {:induction false} ToNatSplit(s: seq<bool>, k: nat)
    requires k <= |s|
    ensures ToNat(s) == ToNat(s[..k]) + Pow2(k) * ToNat(s[k..])
  {
    if k > 0 {
      var t := s[1..];
      ToNatSplit(t, k - 1);
      assert t[..k - 1] == s[..k][1..];
      assert t[k - 1..] == s[k..];
      var b := if s[0] then 1 else 0;
      assert ToNat(s[..k]) == b + 2 * ToNat(t[..k - 1]);
      SplitStep(b, ToNat(t[..k - 1]), Pow2(k - 1), ToNat(s[k..]), ToNat(t));
    }
  }

  /** Euclidean division is determined by a remainder in range. */
  lemma DivModOf(x: int, rem: int, quot: int, d: int)
    requires d > 0 && 0 <= rem < d && x == rem + d * quot
    ensures x / d == quot && x % d == rem
  {
    var q, r := x / d, x % d;
    assert d * q + r == rem + d * quot;
    if q > quot {
      assert d * (q - quot) == d * q - d * quot;
      MulAtLeast(d, q - quot);
    } else if q < quot {
      assert d * (quot - q) == d * quot - d * q;
      MulAtLeast(d, quot - q);
    }
  }

  /** A positive multiple of `d` is at least `d`. */
  lemma MulAtLeast(d: int, k: int)
    requires d > 0 && k >= 1
    ensures d * k >= d
  {
    assert d * k == d + d * (k - 1);
  }

  /** Java's `>>> n` divides the unsigned value by 2^n. */
  lemma ShiftRightIsDivision(w: Word, n: nat)
    requires n < 32
    ensures ToNat(ShiftRightUnsigned(w, n)) == ToNat(w) / Pow2(n)
  {
    var r := ShiftRightUnsigned(w, n);
    ToNatSplit(w, n);
    ToNatSplit(r, 32 - n);
    assert r[..32 - n] == w[n..];
    ToNatZero(r[32 - n..]);
    ToNatBound(w[..n]);
    DivModOf(ToNat(w), ToNat(w[..n]), ToNat(w[n..]), Pow2(n));
  }

  /** Java's `<< n` multiplies the unsigned value by 2^n modulo 2^32. */
  lemma ShiftLeftIsMultiplication(w: Word, n: nat)
    requires n < 32
    ensures ToNat(ShiftLeft(w, n)) == (ToNat(w) * Pow2(n)) % Pow2(32)
  {
    var r := ShiftLeft(w, n);
    var lo, hi := ToNat(w[..32 - n]), ToNat(w[32 - n..]);
    ToNatSplit(r, n);
    ToNatZero(r[..n]);
    assert r[n..] == w[..32 - n];
    ToNatSplit(w, 32 - n);
    Pow2Add(n, 32 - n);
    ToNatBound(w[..32 - n]);
    ScaledSplit(ToNat(w), lo, hi, Pow2(n), Pow2(32 - n));
    DivModOf(ToNat(w) * Pow2(n), Pow2(n) * lo, hi, Pow2(32));
  }

  /** Scaling `x = lo + q * hi` by `p` keeps the low part below `p * q`. */
  lemma ScaledSplit(x: int, lo: int, hi: int, p: int, q: int)
    requires p > 0 && 0 <= lo < q && x == lo + q * hi
    ensures x * p == p * lo + (p * q) * hi
    ensures 0 <= p * lo < p * q
  {
    assert x * p == p * lo + p * (q * hi);
    assert p * (q - lo) > 0 by {
      MulAtLeast(p, q - lo);
    }
  }
}

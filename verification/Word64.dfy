/**
 Unsigned 64-bit machine words.

 A word is an integer below 2^64, so that every wrap-around is written out, and
 the bitwise operators are defined from the binary expansion. `Bit` reads one
 binary digit; the lemmas say what each operator does to each digit, and
 nothing above this module looks inside a word in any other way.
 */
module Word64 {

  const TWO_64: nat := 0x1_0000_0000_0000_0000
  const MAX: u64 := 0xFFFF_FFFF_FFFF_FFFF

  type u64 = x: int | 0 <= x < TWO_64

  /** Binary digit `i` of `w`. */
  predicate Bit(w: nat, i: nat)
    decreases i
  {
    if i == 0 then w % 2 == 1 else Bit(w / 2, i - 1)
  }

  function Digit(b: bool): nat {
    if b then 1 else 0
  }

  /** `a | b` */
  function Or(a: nat, b: nat): nat {
    if a == 0 && b == 0 then 0
    else 2 * Or(a / 2, b / 2) + Digit(a % 2 == 1 || b % 2 == 1)
  }

  /** `a & b` */
  function And(a: nat, b: nat): (r: nat)
    ensures r <= a
  {
    if a == 0 || b == 0 then 0
    else 2 * And(a / 2, b / 2) + Digit(a % 2 == 1 && b % 2 == 1)
  }

  /** `!w` on 64 bits. */
  function Not(w: u64): u64 {
    MAX - w
  }

  /** `w << s`, dropping what leaves the word. */
  function Shl(w: u64, s: nat): u64
    decreases s
  {
    if s == 0 then w else Shl(w, s - 1) * 2 % TWO_64
  }

  /** `w >> s` */
  function Shr(w: u64, s: nat): u64
    decreases s
  {
    if s == 0 then w else Shr(w, s - 1) / 2
  }

  lemma {:induction false} OrBit(a: nat, b: nat, i: nat)
    ensures Bit(Or(a, b), i) == (Bit(a, i) || Bit(b, i))
    decreases i
  {
    if a == 0 && b == 0 {
      ZeroBit(i);
    } else if i > 0 {
      OrBit(a / 2, b / 2, i - 1);
    }
  }

  lemma {:induction false} AndBit(a: nat, b: nat, i: nat)
    ensures Bit(And(a, b), i) == (Bit(a, i) && Bit(b, i))
    decreases i
  {
    if a == 0 || b == 0 {
      ZeroBit(i);
    } else if i > 0 {
      AndBit(a / 2, b / 2, i - 1);
    }
  }

  lemma {:induction false} ZeroBit(i: nat)
    ensures !Bit(0, i)
  {
    if i > 0 {
      ZeroBit(i - 1);
    }
  }

  /** 2^n - 1: the low `n` digits set. */
  function Ones(n: nat): nat {
    if n == 0 then 0 else 2 * Ones(n - 1) + 1
  }

  lemma {:induction false} OnesBit(n: nat, i: nat)
    ensures Bit(Ones(n), i) == (i < n)
  {
    if n == 0 {
      ZeroBit(i);
    } else if i > 0 {
      OnesBit(n - 1, i - 1);
    }
  }

  lemma OnesByte(n: nat)
    ensures Ones(n + 8) == 0x100 * Ones(n) + 0xFF
  {
    assert Ones(n + 4) == 0x10 * Ones(n) + 0xF by {
      assert Ones(n + 2) == 4 * Ones(n) + 3;
    }
    assert Ones(n + 6) == 4 * Ones(n + 4) + 3;
  }

  lemma OnesHalfWord(n: nat)
    ensures Ones(n + 32) == 0x1_0000_0000 * Ones(n) + 0xFFFF_FFFF
  {
    OnesByte(n);
    OnesByte(n + 8);
    OnesByte(n + 16);
    OnesByte(n + 24);
  }

  lemma OnesWord(n: nat)
    ensures Ones(n + 64) == TWO_64 * Ones(n) + MAX
  {
    OnesHalfWord(n);
    OnesHalfWord(n + 32);
  }

  lemma OnesIsMax()
    ensures Ones(64) == MAX
  {
    OnesWord(0);
  }

  /** Complementing within the low `n` digits flips exactly those digits. */
  lemma {:induction false} ComplementBit(n: nat, w: nat, i: nat)
    requires w <= Ones(n) && i < n
    ensures Bit(Ones(n) - w, i) == !Bit(w, i)
    decreases i
  {
    if i > 0 {
      ComplementBit(n - 1, w / 2, i - 1);
      assert (Ones(n) - w) / 2 == Ones(n - 1) - w / 2;
    }
  }

  lemma NotBit(w: u64, i: nat)
    requires i < 64
    ensures Bit(Not(w), i) == !Bit(w, i)
  {
    OnesIsMax();
    ComplementBit(64, w, i);
  }

  lemma {:induction false} ShrBit(w: u64, s: nat, i: nat)
    ensures Bit(Shr(w, s), i) == Bit(w, i + s)
    decreases s
  {
    if s > 0 {
      ShrBit(w, s - 1, i + 1);
    }
  }

  lemma {:induction false} HighBit(n: nat, w: nat, i: nat)
    requires w <= Ones(n) && n <= i
    ensures !Bit(w, i)
    decreases i
  {
    if n == 0 {
      ZeroBit(i);
    } else {
      HighBit(n - 1, w / 2, i - 1);
    }
  }

  /** Subtracting a set top digit `n` clears it and keeps the digits below. */
  lemma HalfMinus(w: nat, h: nat)
    requires 2 * h <= w
    ensures (w - 2 * h) / 2 == w / 2 - h && (w - 2 * h) % 2 == w % 2
  {
  }

  lemma {:induction false} DropTopBit(n: nat, w: nat, i: nat)
    requires Ones(n) < w <= Ones(n + 1) && i < n
    ensures Bit(w - (Ones(n) + 1), i) == Bit(w, i)
    decreases i
  {
    HalfMinus(w, Ones(n - 1) + 1);
    if i > 0 {
      DropTopBit(n - 1, w / 2, i - 1);
    }
  }

  lemma DoubleBit(w: u64, i: nat)
    requires i < 64
    ensures Bit(w * 2 % TWO_64, i) == (i > 0 && Bit(w, i - 1))
  {
    var d := w * 2;
    assert d % 2 == 0 && d / 2 == w;
    if d > MAX {
      OnesIsMax();
      DropTopBit(64, d, i);
      assert d % TWO_64 == d - TWO_64;
    }
  }

  lemma {:induction false} ShlBit(w: u64, s: nat, i: nat)
    requires i < 64
    ensures Bit(Shl(w, s), i) == (s <= i && Bit(w, i - s))
    decreases s
  {
    if s > 0 {
      DoubleBit(Shl(w, s - 1), i);
      if i > 0 {
        ShlBit(w, s - 1, i - 1);
      }
    }
  }

  lemma {:induction false} OrZero(b: nat)
    ensures Or(0, b) == b
  {
    if b > 0 {
      OrZero(b / 2);
    }
  }

  lemma OrFits(a: u64, b: u64)
    ensures Or(a, b) < TWO_64
  {
    OnesIsMax();
    OrBound(64, a, b);
  }

  lemma {:induction false} OrBound(n: nat, a: nat, b: nat)
    requires a <= Ones(n) && b <= Ones(n)
    ensures Or(a, b) <= Ones(n)
  {
    if n > 0 {
      OrBound(n - 1, a / 2, b / 2);
    }
  }

  /** The number the low `n` digits of `w` spell. */
  function Low(w: nat, n: nat): nat
    decreases n
  {
    if n == 0 then 0 else 2 * Low(w / 2, n - 1) + w % 2
  }

  /** `a & (2b + 1)`: the last digit of `a` stays. */
  lemma AndOdd(a: nat, b: nat)
    ensures And(a, 2 * b + 1) == 2 * And(a / 2, b) + a % 2
  {
    var c := 2 * b + 1;
    assert c / 2 == b && c % 2 == 1;
  }

  lemma {:induction false} AndOnes(w: nat, n: nat)
    ensures And(w, Ones(n)) == Low(w, n)
    decreases n
  {
    if n > 0 {
      AndOdd(w, Ones(n - 1));
      AndOnes(w / 2, n - 1);
    }
  }

  function High(w: nat, n: nat): nat
    decreases n
  {
    if n == 0 then w else High(w / 2, n - 1)
  }

  lemma Twice(a: nat, h: nat)
    ensures (2 * a) * h == 2 * (a * h)
  {
  }

  lemma {:induction false} Split(w: nat, n: nat)
    ensures Low(w, n) <= Ones(n)
    ensures w == Low(w, n) + (Ones(n) + 1) * High(w, n)
    decreases n
  {
    if n > 0 {
      Split(w / 2, n - 1);
      Twice(Ones(n - 1) + 1, High(w, n));
      assert Ones(n) + 1 == 2 * (Ones(n - 1) + 1);
    }
  }

  /** Masking with 2^n - 1 leaves a remainder below 2^n of a multiple of 2^n. */
  lemma AndSplits(w: nat, n: nat, m: nat) returns (q: nat)
    requires m == Ones(n)
    ensures And(w, m) <= m
    ensures w == And(w, m) + (m + 1) * q
  {
    AndOnes(w, n);
    Split(w, n);
    q := High(w, n);
  }

  lemma Remainder(w: nat, r: nat, q: nat)
    ensures w == r + 64 * q && r < 64 ==> w % 64 == r
    ensures w == r + 128 * q && r < 128 ==> w % 128 == r
  {
  }

  lemma AndMask63(w: nat)
    ensures And(w, 63) == w % 64
  {
    var q := AndSplits(w, 6, 63);
    Remainder(w, And(w, 63), q);
  }

  lemma AndMask127(w: nat)
    ensures And(w, 127) == w % 128
  {
    var q := AndSplits(w, 7, 127);
    Remainder(w, And(w, 127), q);
  }

  lemma {:induction false} SomeBit(w: nat) returns (i: nat)
    requires w > 0
    ensures Bit(w, i)
  {
    if w % 2 == 1 {
      i := 0;
    } else {
      i := SomeBit(w / 2);
      i := i + 1;
    }
  }

  /** Testing `w & (1 << k) != 0` reads digit `k`. */
  lemma TestBit(w: u64, k: nat)
    requires k < 64
    ensures And(w, Shl(1, k)) != 0 <==> Bit(w, k)
  {
    var x := And(w, Shl(1, k));
    AndBit(w, Shl(1, k), k);
    OneBit(k, k);
    ZeroBit(k);
    if x != 0 {
      var i := SomeBit(x);
      AndBit(w, Shl(1, k), i);
      if i >= 64 {
        OnesIsMax();
        HighBit(64, w, i);
      } else {
        OneBit(k, i);
      }
    }
  }

  lemma OneBit(k: nat, i: nat)
    requires k < 64 && i < 64
    ensures Bit(Shl(1, k), i) == (i == k)
  {
    ShlBit(1, k, i);
    if k < i {
      ZeroBit(i - k - 1);
    }
  }

  /** The top digit of a number with `n + 1` digits is set. */
  lemma {:induction false} TopBit(n: nat, w: nat)
    requires Ones(n) < w <= Ones(n + 1)
    ensures Bit(w, n)
  {
    if n > 0 {
      TopBit(n - 1, w / 2);
    }
  }

  lemma {:induction false} OnesFit(n: nat)
    requires n <= 64
    ensures Ones(n) <= MAX
    decreases 64 - n
  {
    if n == 64 {
      OnesIsMax();
    } else {
      OnesFit(n + 1);
    }
  }

  lemma {:induction false} ShlOne(k: nat)
    requires k < 64
    ensures Shl(1, k) == Ones(k) + 1
  {
    if k > 0 {
      ShlOne(k - 1);
      OnesFit(k + 1);
      assert Ones(k + 1) == 2 * Ones(k) + 1 && Ones(k) == 2 * Ones(k - 1) + 1;
    }
  }

  /** The first 2^64 numbers from 1 on differ modulo 2^64. */
  lemma WrapDistinct(x: nat, y: nat)
    requires 1 <= x < y <= TWO_64
    ensures x % TWO_64 != y % TWO_64
  {
    assert TWO_64 % TWO_64 == 0;
  }

  /** Counting on modulo 2^64. */
  lemma WrapOn(count: u64, n: nat, m: nat)
    requires count == n % TWO_64
    ensures (count + m) % TWO_64 == (n + m) % TWO_64
  {
    assert n == n / TWO_64 * TWO_64 + count;
    assert (n + m) / TWO_64 == n / TWO_64 + (count + m) / TWO_64;
  }
}

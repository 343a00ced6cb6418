/** What the word operators of Rng mean bit by bit, and the values they lead to. */
module RngValues {
  import opened Rng

  // ---------------------------------------------------------------- the operators

  function Bit(x: nat, k: nat): nat { (x / Pow2(k)) % 2 }

  lemma Quotient(x: nat, m: nat, d: int, e: nat)
    requires m > 0 && x == m * d + e && e < m
    ensures x / m == d
  {
    var q, r := x / m, x % m;
    assert x == m * q + r && 0 <= q;
    assert m * (q - d) == e - r;
    Small(m, q - d);
  }

  lemma Small(m: int, k: int)
    requires -m < m * k < m
    ensures k == 0
  {
  }

  lemma Nonnegative(x: nat, p: nat)
    requires p > 0
    ensures x / p >= 0
  {
  }

  lemma HalfFirst(x: nat, p: nat)
    requires p > 0
    ensures (x / 2) / p == x / (2 * p)
  {
    var h: nat, d: int, e: nat := x / 2, (x / 2) / p, (x / 2) % p;
    Nonnegative(h, p);
    assert x == 2 * h + x % 2 && h == p * d + e;
    assert x == (2 * p) * d + (2 * e + x % 2);
    Quotient(x, 2 * p, d, 2 * e + x % 2);
  }

  /** A shift to the right divides by a power of two. */
  lemma {:induction false} ShiftDivides(x: nat, n: nat)
    ensures Halve(x, n) == x / Pow2(n)
  {
    if n > 0 {
      ShiftDivides(x / 2, n - 1);
      HalfFirst(x, Pow2(n - 1));
    }
  }

  lemma BitOfHalf(x: nat, k: nat)
    requires k > 0
    ensures Bit(x, k) == Bit(x / 2, k - 1)
  {
    HalfFirst(x, Pow2(k - 1));
  }

  /** `^` and `|`, bit by bit. */
  lemma {:induction false} XorBits(a: nat, b: nat, k: nat)
    ensures Bit(Xor(a, b), k) == if Bit(a, k) == Bit(b, k) then 0 else 1
  {
    var x := Xor(a, b);
    XorSplits(a, b);
    if k == 0 {
      LowBit(a);
      LowBit(b);
      LowBit(x);
    } else {
      XorBits(a / 2, b / 2, k - 1);
      BitOfHalf(a, k);
      BitOfHalf(b, k);
      BitOfHalf(x, k);
    }
  }

  lemma LowBit(x: nat)
    ensures Bit(x, 0) == x % 2
  {
  }

  lemma OrSplits(a: nat, b: nat)
    ensures Or(a, b) % 2 == (if a % 2 == 0 && b % 2 == 0 then 0 else 1) && Or(a, b) / 2 == Or(a / 2, b / 2)
  {
    Digits(Or(a, b), if a % 2 == 0 && b % 2 == 0 then 0 else 1, Or(a / 2, b / 2));
  }

  lemma {:induction false} OrBits(a: nat, b: nat, k: nat)
    ensures Bit(Or(a, b), k) == if Bit(a, k) == 0 && Bit(b, k) == 0 then 0 else 1
  {
    OrSplits(a, b);
    if k > 0 {
      BitOfHalf(a, k);
      BitOfHalf(b, k);
      BitOfHalf(Or(a, b), k);
      OrBits(a / 2, b / 2, k - 1);
    }
  }

  // ---------------------------------------------------------------- closed forms

  lemma Shifts(x: Word)
    ensures Right(x, 7) == x / 128 && Right(x, 13) == x / 8192 && Right(x, 14) == x / 16384
    ensures Right(x, 15) == x / 32768 && Right(x, 16) == x / 65536 && Right(x, 19) == x / 524288
  {
    ShiftDivides(x, 7);
    ShiftDivides(x, 13);
    ShiftDivides(x, 14);
    ShiftDivides(x, 15);
    ShiftDivides(x, 16);
    ShiftDivides(x, 19);
    Powers();
  }

  lemma Powers()
    ensures Pow2(7) == 128 && Pow2(13) == 8192 && Pow2(14) == 16384
    ensures Pow2(15) == 32768 && Pow2(16) == 65536 && Pow2(19) == 524288
  {
    assert Pow2(7) == 128;
    assert Pow2(10) == 1024;
    assert Pow2(13) == 8192;
    assert Pow2(16) == 65536;
  }

  /** One round of the hash: multiply, then rotate by thirteen bits. */
  lemma RoundIs(h: Word, unit: Unit)
    ensures var x := (Xor(h, unit) * 3432918353) % 4294967296;
            Round(h, unit) == Or((x * 8192) % 4294967296, x / 524288)
  {
    Shifts(Imul(XorW(h, unit), SPREAD));
  }

  /** The start value takes the length in. */
  lemma InitialIs(length: nat)
    ensures Initial(length) == XorW(1779033703, length % 4294967296)
  {
  }

  /** The three folds of the end. */
  lemma FinishIs(h: Word)
    ensures var x := (Xor(h, h / 65536) * 2246822507) % 4294967296;
            var y := (Xor(x, x / 8192) * 3266489909) % 4294967296;
            Finish(h) == Xor(y, y / 65536)
  {
    Shifts(h);
    var x := Imul(Fold(h, 16), MIX_A);
    Shifts(x);
    Shifts(Imul(Fold(x, 13), MIX_B));
  }

  /** A draw, from the advanced state. */
  lemma DrawIs(a: Word)
    ensures var x := (Xor(a, a / 32768) * Or(1, a)) % 4294967296;
            var y := Xor((x + (Xor(x, x / 128) * Or(61, x)) % 4294967296) % 4294967296, x);
            Draw(a) == Xor(y, y / 16384) as real / 4294967296.0
  {
    FirstIs(a);
    SecondIs(First(a));
    Shifts(Second(First(a)));
  }

  lemma FirstIs(a: Word)
    ensures First(a) == (Xor(a, a / 32768) * Or(1, a)) % 4294967296
  {
    Shifts(a);
  }

  lemma SecondIs(x: Word)
    ensures Second(x) == Xor((x + (Xor(x, x / 128) * Or(61, x)) % 4294967296) % 4294967296, x)
  {
    Shifts(x);
  }
}

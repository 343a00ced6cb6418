/** desktop/lib/radar/rng.ts: a 32-bit hash of strings and a counter-based generator. A 32-bit word is
    the unsigned number it stands for; signed and unsigned readings of one word agree modulo 2^32, so
    the sign the bit operators of the source attach to intermediate results plays no role. */
module Rng {

  const WORD := 0x1_0000_0000

  type Word = n: int | 0 <= n < WORD

  // ---------------------------------------------------------------- operators on words

  function Xor(a: nat, b: nat): nat
    decreases a + b
  {
    if a == 0 && b == 0 then 0 else (a + b) % 2 + 2 * Xor(a / 2, b / 2)
  }

  function Or(a: nat, b: nat): nat
    decreases a + b
  {
    if a == 0 && b == 0 then 0
    else (if a % 2 == 0 && b % 2 == 0 then 0 else 1) + 2 * Or(a / 2, b / 2)
  }

  function Pow2(n: nat): (p: nat)
    ensures p > 0
  {
    if n == 0 then 1 else 2 * Pow2(n - 1)
  }

  lemma {:induction false} XorBound(a: nat, b: nat, bits: nat)
    requires a < Pow2(bits) && b < Pow2(bits)
    ensures Xor(a, b) < Pow2(bits)
  {
    if bits > 0 { XorBound(a / 2, b / 2, bits - 1); }
  }

  lemma {:induction false} OrBound(a: nat, b: nat, bits: nat)
    requires a < Pow2(bits) && b < Pow2(bits)
    ensures Or(a, b) < Pow2(bits)
  {
    if bits > 0 { OrBound(a / 2, b / 2, bits - 1); }
  }

  lemma WordBits()
    ensures Pow2(32) == WORD
  {
    assert Pow2(8) == 0x100;
    assert Pow2(16) == 0x1_0000;
    assert Pow2(24) == 0x100_0000;
  }

  function XorW(a: Word, b: Word): Word {
    WordBits(); XorBound(a, b, 32);
    Xor(a, b)
  }

  function OrW(a: Word, b: Word): Word {
    WordBits(); OrBound(a, b, 32);
    Or(a, b)
  }

  /** `Math.imul`: the low 32 bits of the product. */
  function Imul(a: Word, b: Word): Word { (a * b) % WORD }

  /** `x << 13` and `x >>> n`. */
  function Left13(x: Word): Word { (x * 0x2000) % WORD }

  function Right(x: Word, n: nat): Word { Halve(x, n) }

  /** n bits shifted out at the right. */
  function Halve(x: nat, n: nat): (h: nat)
    ensures h <= x
  {
    if n == 0 then x else Halve(x / 2, n - 1)
  }

  /** The `(h << 13) | (h >>> 19)` of the source. */
  function Rotate13(x: Word): Word { OrW(Left13(x), Right(x, 19)) }

  /** The `h ^ (h >>> n)` of the source. */
  function Fold(h: Word, n: nat): Word { XorW(h, Right(h, n)) }

  // ---------------------------------------------------------------- the hash

  const SPREAD := 3432918353
  const MIX_A := 2246822507
  const MIX_B := 3266489909

  /** A code unit of a JavaScript string. */
  type Unit = n: int | 0 <= n < 0x1_0000

  function Initial(length: nat): Word { XorW(1779033703, length % WORD) }

  function Round(h: Word, unit: Unit): Word { Rotate13(Imul(XorW(h, unit), SPREAD)) }

  function Rounds(h: Word, s: seq<Unit>): Word
    decreases |s|
  {
    if s == [] then h else Rounds(Round(h, s[0]), s[1..])
  }

  function Finish(h: Word): Word { Fold(Imul(Fold(Imul(Fold(h, 16), MIX_A), 13), MIX_B), 16) }

  function SeedOf(s: seq<Unit>): Word { Finish(Rounds(Initial(|s|), s)) }

  method SeedFromString(s: seq<Unit>) returns (h: Word)
    ensures h == SeedOf(s)
  {
    h := XorW(1779033703, |s| % WORD);
    assert s[0..] == s;
    for i := 0 to |s|
      invariant Rounds(h, s[i..]) == Rounds(Initial(|s|), s)
    {
      assert s[i..][1..] == s[i + 1..];
      h := Imul(XorW(h, s[i]), SPREAD);
      h := OrW(Left13(h), Right(h, 19));
    }
    h := Imul(XorW(h, Right(h, 16)), MIX_A);
    h := Imul(XorW(h, Right(h, 13)), MIX_B);
    h := XorW(h, Right(h, 16));
  }

  // ---------------------------------------------------------------- every step is one-to-one

  lemma XorSplits(a: nat, c: nat)
    ensures Xor(a, c) % 2 == (a + c) % 2 && Xor(a, c) / 2 == Xor(a / 2, c / 2)
  {
    Digits(Xor(a, c), (a + c) % 2, Xor(a / 2, c / 2));
  }

  lemma Digits(x: nat, low: nat, high: nat)
    requires x == low + 2 * high && low < 2
    ensures x % 2 == low && x / 2 == high
  {
  }

  lemma {:induction false} XorCommutes(a: nat, c: nat)
    ensures Xor(a, c) == Xor(c, a)
    decreases a + c
  {
    if a + c > 0 { XorCommutes(a / 2, c / 2); }
  }

  lemma {:induction false} XorCancels(a: nat, b: nat, c: nat)
    requires Xor(a, c) == Xor(b, c)
    ensures a == b
    decreases a + b + c
  {
    if a + b + c > 0 {
      XorSplits(a, c);
      XorSplits(b, c);
      XorCancels(a / 2, b / 2, c / 2);
      SameParity(a, b, c);
    }
  }

  lemma SameParity(a: nat, b: nat, c: nat)
    requires (a + c) % 2 == (b + c) % 2
    ensures a % 2 == b % 2
  {
  }

  lemma {:induction false} HalfOfShift(x: nat, n: nat)
    ensures Halve(x, n) / 2 == Halve(x / 2, n) == Halve(x, n + 1)
  {
    if n > 0 { HalfOfShift(x / 2, n - 1); }
  }

  /** Xor with a copy shifted right by n > 0: the top bits stand alone and determine the rest. */
  lemma {:induction false} ShiftXorInjective(x: nat, y: nat, n: nat)
    requires n > 0 && Xor(x, Halve(x, n)) == Xor(y, Halve(y, n))
    ensures x == y
    decreases x + y
  {
    if x + y > 0 {
      HalfOfShift(x, n);
      HalfOfShift(y, n);
      XorSplits(x, Halve(x, n));
      XorSplits(y, Halve(y, n));
      ShiftXorInjective(x / 2, y / 2, n);
      assert Halve(x, n) == Halve(x / 2, n - 1) == Halve(y, n);
      XorCancels(x, y, Halve(x, n));
    }
  }

  lemma SmallMultiple(g: int, k: int)
    requires g == k * WORD && -WORD < g < WORD
    ensures g == 0
  {
  }

  /** An odd multiplier has an inverse modulo 2^32, so multiplying loses nothing. */
  lemma ImulInjective(x: Word, y: Word, k: Word, inverse: int, wraps: int)
    requires k * inverse == 1 + wraps * WORD
    requires Imul(x, k) == Imul(y, k)
    ensures x == y
  {
    var q := x * k / WORD - y * k / WORD;
    var d := x - y;
    assert d * k == q * WORD;
    assert d * (k * inverse) == q * inverse * WORD;
    assert d * (1 + wraps * WORD) == d + d * wraps * WORD;
    SmallMultiple(d, q * inverse - d * wraps);
  }

  lemma {:induction false} OrDisjoint(a: nat, b: nat, n: nat)
    requires b < Pow2(n)
    ensures Or(a * Pow2(n), b) == a * Pow2(n) + b
  {
    if n == 0 {
      OrZero(a);
    } else {
      assert a * Pow2(n) == 2 * (a * Pow2(n - 1));
      OrDisjoint(a, b / 2, n - 1);
    }
  }

  lemma {:induction false} OrZero(a: nat)
    ensures Or(a, 0) == a
  {
    if a > 0 { OrZero(a / 2); }
  }

  lemma {:induction false} HalveSplits(x: nat, n: nat) returns (low: nat)
    ensures low < Pow2(n) && x == Halve(x, n) * Pow2(n) + low
  {
    if n == 0 {
      low := 0;
    } else {
      low := HalveSplits(x / 2, n - 1);
      assert Halve(x, n) * Pow2(n) == 2 * (Halve(x, n) * Pow2(n - 1));
      low := 2 * low + x % 2;
    }
  }

  lemma Powers()
    ensures Pow2(13) == 0x2000 && Pow2(19) == 0x8_0000
  {
  }

  /** The two halves of the rotation do not overlap: the low 19 bits move up, the high 13 down. */
  lemma RotateMovesBits(x: Word) returns (low: nat, high: nat)
    ensures low < 0x8_0000 && high < 0x2000 && x == high * 0x8_0000 + low
    ensures Rotate13(x) == low * 0x2000 + high
  {
    Powers();
    low := HalveSplits(x, 19);
    high := Right(x, 19);
    LeftDropsHigh(x, low, high);
    OrDisjoint(low, high, 13);
  }

  lemma LeftDropsHigh(x: Word, low: nat, high: nat)
    requires low < 0x8_0000 && high < 0x2000 && x == high * 0x8_0000 + low
    ensures Left13(x) == low * 0x2000
  {
    assert x * 0x2000 == high * WORD + low * 0x2000;
  }

  lemma RotateInjective(x: Word, y: Word)
    requires Rotate13(x) == Rotate13(y)
    ensures x == y
  {
    var l, h := RotateMovesBits(x);
    var m, i := RotateMovesBits(y);
    assert (l - m) * 0x2000 == i - h;
  }

  /** One round distinguishes any two words, and any two code units. */
  lemma RoundInjective(h: Word, g: Word, u: Unit, v: Unit)
    requires Round(h, u) == Round(g, v)
    ensures u == v ==> h == g
    ensures h == g ==> u == v
  {
    var x, y := XorW(h, u), XorW(g, v);
    RotateInjective(Imul(x, SPREAD), Imul(y, SPREAD));
    ImulInjective(x, y, SPREAD, 3739302833, 2988782088);
    if u == v { XorCancels(h, g, u); }
    if h == g {
      XorCommutes(u, h);
      XorCommutes(v, h);
      XorCancels(u, v, h);
    }
  }

  lemma FinishInjective(h: Word, g: Word)
    requires Finish(h) == Finish(g)
    ensures h == g
  {
    var h1, g1 := Fold(h, 16), Fold(g, 16);
    var h2, g2 := Imul(h1, MIX_A), Imul(g1, MIX_A);
    var h3, g3 := Fold(h2, 13), Fold(g2, 13);
    var h4, g4 := Imul(h3, MIX_B), Imul(g3, MIX_B);
    ShiftXorInjective(h4, g4, 16);
    ImulInjective(h3, g3, MIX_B, 2127672349, 1618177690);
    ShiftXorInjective(h2, g2, 13);
    ImulInjective(h1, g1, MIX_A, 2781581891, 1455126516);
    ShiftXorInjective(h, g, 16);
  }

  lemma {:induction false} RoundsInjective(h: Word, g: Word, s: seq<Unit>)
    requires Rounds(h, s) == Rounds(g, s)
    ensures h == g
    decreases |s|
  {
    if s != [] {
      RoundsInjective(Round(h, s[0]), Round(g, s[0]), s[1..]);
      RoundInjective(h, g, s[0], s[0]);
    }
  }

  lemma {:induction false} RoundsConcat(h: Word, s: seq<Unit>, t: seq<Unit>)
    ensures Rounds(h, s + t) == Rounds(Rounds(h, s), t)
    decreases |s|
  {
    if s == [] {
      assert s + t == t;
    } else {
      assert (s + t)[1..] == s[1..] + t;
      RoundsConcat(Round(h, s[0]), s[1..], t);
    }
  }

  lemma RoundsDecide(s: seq<Unit>, t: seq<Unit>)
    requires |s| == |t|
    ensures SeedOf(s) == SeedOf(t) <==> Rounds(Initial(|s|), s) == Rounds(Initial(|s|), t)
  {
    if SeedOf(s) == SeedOf(t) { FinishInjective(Rounds(Initial(|s|), s), Rounds(Initial(|s|), t)); }
  }

  lemma EndDecidesNothing(h: Word, s: seq<Unit>, t: seq<Unit>, end: seq<Unit>)
    ensures Rounds(h, s + end) == Rounds(h, t + end) <==> Rounds(h, s) == Rounds(h, t)
  {
    RoundsConcat(h, s, end);
    RoundsConcat(h, t, end);
    if Rounds(h, s + end) == Rounds(h, t + end) { RoundsInjective(Rounds(h, s), Rounds(h, t), end); }
  }

  /** A shared end never decides: two strings of one length collide exactly when the words reached
      before the shared end are already equal. */
  lemma SharedEndNeverDecides(s: seq<Unit>, t: seq<Unit>, end: seq<Unit>)
    requires |s| == |t|
    ensures SeedOf(s + end) == SeedOf(t + end) <==> Rounds(Initial(|s + end|), s) == Rounds(Initial(|s + end|), t)
  {
    RoundsDecide(s + end, t + end);
    EndDecidesNothing(Initial(|s + end|), s, t, end);
  }

  /** Strings of one length that differ in exactly one code unit get different seeds. */
  lemma OneUnitChangesSeed(s: seq<Unit>, t: seq<Unit>, i: nat)
    requires |s| == |t| && i < |s|
    requires forall k :: 0 <= k < |s| ==> (s[k] == t[k] <==> k != i)
    ensures SeedOf(s) != SeedOf(t)
  {
    var start, end := s[..i], s[i + 1..];
    assert s == (start + [s[i]]) + end;
    assert t == (start + [t[i]]) + end;
    var h := Initial(|s|);
    var g := Rounds(h, start);
    OneMore(h, start, s[i]);
    OneMore(h, start, t[i]);
    SharedEndNeverDecides(start + [s[i]], start + [t[i]], end);
    if SeedOf(s) == SeedOf(t) { RoundInjective(g, g, s[i], t[i]); }
  }

  lemma OneMore(h: Word, s: seq<Unit>, u: Unit)
    ensures Rounds(h, s + [u]) == Round(Rounds(h, s), u)
  {
    RoundsConcat(h, s, [u]);
    assert [u][1..] == [];
  }

  // ---------------------------------------------------------------- the generator

  const INCREMENT := 0x6d2b79f5

  function Step(a: Word): Word { (a + INCREMENT) % WORD }

  function First(a: Word): Word { Imul(Fold(a, 15), OrW(1, a)) }

  function Second(t: Word): Word { XorW((t + Imul(Fold(t, 7), OrW(61, t))) % WORD, t) }

  /** The word drawn from the state. */
  function Scramble(a: Word): Word { Fold(Second(First(a)), 14) }

  function Draw(a: Word): (r: real)
    ensures 0.0 <= r < 1.0
  {
    Scramble(a) as real / 4294967296.0
  }

  /** The closure `mulberry32` returns; a numeric seed is reduced to 32 bits. */
  class Mulberry32 {
    var a: Word

    constructor (seed: int)
      ensures a == seed % WORD
    {
      a := seed % WORD;
    }

    method Next() returns (r: real)
      modifies this
      ensures a == Step(old(a)) && r == Draw(a) && 0.0 <= r < 1.0
    {
      a := (a + INCREMENT) % WORD;
      var t := Imul(XorW(a, Right(a, 15)), OrW(1, a));
      assert t == First(a);
      t := XorW((t + Imul(XorW(t, Right(t, 7)), OrW(61, t))) % WORD, t);
      assert t == Second(First(a));
      r := XorW(t, Right(t, 14)) as real / 4294967296.0;
    }
  }

  function After(a: Word, n: nat): Word { if n == 0 then a else Step(After(a, n - 1)) }

  /** The inverse of the odd increment modulo 2^32. */
  const UNINCREMENT := 3696798301
  const WRAPS := 1576479847

  predicate CountsTo(a: Word, n: nat, b: Word, q: int) { b == a + n * INCREMENT - q * WORD }

  lemma {:induction false} AfterIsCounter(a: Word, n: nat) returns (q: int)
    ensures CountsTo(a, n, After(a, n), q)
  {
    if n == 0 {
      q := 0;
    } else {
      q := AfterIsCounter(a, n - 1);
      q := q + (After(a, n - 1) + INCREMENT) / WORD;
    }
  }

  /** The state repeats after exactly 2^32 steps: two points of one run agree exactly when the numbers
      of steps do modulo 2^32. */
  lemma StateRepeatsExactly(a: Word, n: nat, m: nat)
    ensures After(a, n) == After(a, m) <==> (n - m) % WORD == 0
  {
    var p := AfterIsCounter(a, n);
    var q := AfterIsCounter(a, m);
    var d := n - m;
    if After(a, n) == After(a, m) {
      assert d * INCREMENT == (p - q) * WORD;
      assert d == ((p - q) * UNINCREMENT - d * WRAPS) * WORD;
      Multiple(d, (p - q) * UNINCREMENT - d * WRAPS);
    } else if d % WORD == 0 {
      SmallMultiple(After(a, n) - After(a, m), d / WORD * INCREMENT - p + q);
    }
  }

  lemma Multiple(d: int, k: int)
    requires d == k * WORD
    ensures d % WORD == 0
  {
  }

  /** From any state every state is reached within one period. */
  lemma EveryStateIsReached(a: Word, b: Word)
    ensures exists n: nat :: n < WORD && After(a, n) == b
  {
    var n := (b - a) * UNINCREMENT % WORD;
    var c := (b - a) * UNINCREMENT / WORD;
    var q := AfterIsCounter(a, n);
    assert n * INCREMENT == (b - a) * (1 + WRAPS * WORD) - c * INCREMENT * WORD;
    SmallMultiple(After(a, n) - b, (b - a) * WRAPS - c * INCREMENT - q);
  }
}

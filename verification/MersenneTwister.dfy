/** MT19937 as src/common/randommt.c computes it: a block of 624 words reloaded in place by a sliding
    register, against the unbounded recurrence of section 2.1 of Matsumoto and Nishimura (1998). */
module MersenneTwister {

  const N := 624
  const M := 397
  const K: bv32 := 0x9908B0DF
  const DEFAULT_SEED: bv32 := 4357

  function HiBit(u: bv32): bv32 { u & 0x8000_0000 }
  function LoBit(u: bv32): bv32 { u & 0x0000_0001 }
  function LoBits(u: bv32): bv32 { u & 0x7FFF_FFFF }
  function MixBits(u: bv32, v: bv32): bv32 { HiBit(u) | LoBits(v) }

  function Shift11(y: bv32): bv32 { y ^ (y >> 11) }
  function Shift7(y: bv32): bv32 { y ^ ((y << 7) & 0x9D2C_5680) }
  function Shift15(y: bv32): bv32 { y ^ ((y << 15) & 0xEFC6_0000) }
  function Shift18(y: bv32): bv32 { y ^ (y >> 18) }

  function Temper(y: bv32): bv32 { Shift18(Shift15(Shift7(Shift11(y)))) }

  // ----- The reference: an infinite sequence of words -----

  /** The linear congruential sequence that fills the first N words; the seed is forced odd. */
  function Congruential(x: bv32): bv32 { x * 69069 }

  function Odd(seed: bv32): bv32 { seed | 1 }

  function Start(seed: bv32, i: nat): bv32 {
    if i == 0 then Odd(seed) else Congruential(Start(seed, i - 1))
  }

  /** Multiplication of a row vector by the twist matrix A of the recurrence. */
  function Twist(x: bv32): bv32 {
    if x & 1 == 0 then x >> 1 else (x >> 1) ^ K
  }

  /** x(k+n) = x(k+m) xor (upper bit of x(k), lower bits of x(k+1)) A. */
  function Word(seed: bv32, i: nat): bv32 {
    if i < N then Start(seed, i)
    else Word(seed, i - N + M) ^ Twist(MixBits(Word(seed, i - N), Word(seed, i - N + 1)))
  }

  /** The n-th output of the generator, from 0. */
  function Output(seed: bv32, n: nat): bv32 { Temper(Word(seed, N + n)) }

  /** The word the code stores: it tests the low bit of s1, not of the mixed word. */
  function Reload(m: bv32, s0: bv32, s1: bv32): bv32 {
    m ^ (MixBits(s0, s1) >> 1) ^ (if LoBit(s1) != 0 then K else 0)
  }

  lemma ReloadIsTwist(m: bv32, s0: bv32, s1: bv32)
    ensures Reload(m, s0, s1) == m ^ Twist(MixBits(s0, s1))
  {
    assert MixBits(s0, s1) & 1 == LoBit(s1);
    var h := MixBits(s0, s1) >> 1;
    assert (m ^ h) ^ K == m ^ (h ^ K);
    assert (m ^ h) ^ 0 == m ^ h;
  }

  /** The stored word at block position i continues the sequence. */
  lemma ReloadContinues(seed: bv32, i: nat)
    ensures Reload(Word(seed, i + M), Word(seed, i), Word(seed, i + 1)) == Word(seed, i + N)
  {
    hide Reload, Twist, MixBits;
    ReloadIsTwist(Word(seed, i + M), Word(seed, i), Word(seed, i + 1));
  }

  /** Even seeds are forced odd: they repeat the sequence of the next odd one. */
  lemma {:induction false} EvenSeedsRepeat(seed: bv32, i: nat)
    ensures Word(seed, i) == Word(seed | 1, i)
  {
    hide Congruential, Twist, MixBits;
    if i == 0 {
    } else if i < N {
      EvenSeedsRepeat(seed, i - 1);
    } else {
      EvenSeedsRepeat(seed, i - N);
      EvenSeedsRepeat(seed, i - N + 1);
      EvenSeedsRepeat(seed, i - N + M);
    }
  }

  function Unshift11(z: bv32): bv32 { z ^ (z >> 11) ^ (z >> 22) }
  function Unshift15(z: bv32): bv32 { z ^ ((z << 15) & 0xEFC6_0000) }
  function Again7(z: bv32, y: bv32): bv32 { z ^ ((y << 7) & 0x9D2C_5680) }
  function Unshift7(z: bv32): bv32 { Again7(z, Again7(z, Again7(z, Again7(z, z)))) }

  lemma XorRight(a: bv32, b: bv32)
    ensures (a ^ b) >> 11 == (a >> 11) ^ (b >> 11) && (a ^ b) >> 22 == (a >> 22) ^ (b >> 22)
    ensures (a ^ b) >> 18 == (a >> 18) ^ (b >> 18)
  {
  }

  lemma RightTwice(y: bv32)
    ensures (y >> 18) >> 18 == 0 && (y >> 11) >> 11 == y >> 22 && (y >> 11) >> 22 == 0
  {
  }

  lemma XorCancels(a: bv32, b: bv32, c: bv32)
    ensures (a ^ b) ^ (b ^ 0) == a && (a ^ b) ^ (b ^ c) ^ (c ^ 0) == a
  {
  }

  lemma Undo11(y: bv32)
    ensures Unshift11(Shift11(y)) == y
  {
    XorRight(y, y >> 11);
    RightTwice(y);
    XorCancels(y, y >> 11, y >> 22);
  }

  lemma Undo7(y: bv32)
    ensures Unshift7(Shift7(y)) == y
  {
  }

  lemma Undo15(y: bv32)
    ensures Unshift15(Shift15(y)) == y
  {
  }

  lemma Undo18(y: bv32)
    ensures Shift18(Shift18(y)) == y
  {
    XorRight(y, y >> 18);
    RightTwice(y);
    XorCancels(y, y >> 18, 0);
  }

  /** Tempering loses nothing: the word can be computed back from the output. */
  function Untemper(z: bv32): bv32 { Unshift11(Unshift7(Unshift15(Shift18(z)))) }

  lemma TemperInverse(y: bv32)
    ensures Untemper(Temper(y)) == y
  {
    hide Shift11, Shift7, Shift15, Shift18, Unshift11, Unshift7, Unshift15;
    Undo18(Shift15(Shift7(Shift11(y))));
    Undo15(Shift7(Shift11(y)));
    Undo7(Shift11(y));
    Undo11(y);
  }

  /** Hence 624 consecutive outputs determine every later one by the recurrence alone. */
  lemma OutputsRecur(seed: bv32, n: nat)
    ensures Output(seed, n + 624)
            == Temper(Untemper(Output(seed, n + 397))
                      ^ Twist(MixBits(Untemper(Output(seed, n)), Untemper(Output(seed, n + 1)))))
  {
    hide Temper, Untemper, Twist, MixBits;
    TemperInverse(Word(seed, N + n));
    TemperInverse(Word(seed, N + n + 1));
    TemperInverse(Word(seed, N + n + M));
  }

  // ----- The words as numbers -----

  const WORDS := 0x1_0000_0000

  function Plus(x: bv32, y: bv32): bv32 { x + y }

  /** The word after n increments of 0: n modulo 2^32. */
  function Wrap(n: nat): bv32 { if n == 0 then 0 else Plus(Wrap(n - 1), 1) }

  lemma PlusRules(x: bv32, y: bv32, z: bv32)
    ensures Plus(Plus(x, y), z) == Plus(x, Plus(y, z)) && Plus(x, 0) == x
  {
  }

  lemma {:induction false} WrapAdds(m: nat, n: nat)
    ensures Wrap(m + n) == Plus(Wrap(m), Wrap(n))
    decreases n
  {
    hide Plus;
    if n == 0 {
      PlusRules(Wrap(m), 0, 0);
    } else {
      WrapAdds(m, n - 1);
      PlusRules(Wrap(m), Wrap(n - 1), 1);
      assert m + n - 1 == m + (n - 1);
    }
  }

  lemma Doubled(n: nat, x: bv32)
    requires Wrap(n) == x
    ensures Wrap(2 * n) == Plus(x, x) && Wrap(2 * n + 1) == Plus(Plus(x, x), 1)
  {
    hide Plus;
    WrapAdds(n, n);
  }

  /** One more hexadecimal digit. */
  lemma Nibble(n: nat, x: bv32, d: nat, b: bv32)
    requires Wrap(n) == x && d < 16 && Wrap(d) == b
    ensures Wrap(16 * n + d) == (x << 4) + b
  {
    hide Plus, Wrap;
    Doubled(n, x);
    var y := Plus(x, x);
    Doubled(2 * n, y);
    var z := Plus(y, y);
    Doubled(4 * n, z);
    Doubled(8 * n, Plus(z, z));
    WrapAdds(16 * n, d);
    Sixteen(x, b);
  }

  lemma Sixteen(x: bv32, b: bv32)
    ensures var y := Plus(x, x); var z := Plus(y, y); var u := Plus(z, z); Plus(Plus(u, u), b) == (x << 4) + b
  {
  }

  lemma Digits()
    ensures Wrap(0) == 0 && Wrap(1) == 1 && Wrap(2) == 2 && Wrap(3) == 3 && Wrap(4) == 4 && Wrap(5) == 5
    ensures Wrap(6) == 6 && Wrap(7) == 7 && Wrap(8) == 8 && Wrap(9) == 9 && Wrap(10) == 10 && Wrap(11) == 11
    ensures Wrap(12) == 12 && Wrap(13) == 13 && Wrap(14) == 14 && Wrap(15) == 15
  {
    hide Plus;
    PlusOnes();
  }

  lemma PlusOnes()
    ensures Plus(0, 1) == 1 && Plus(1, 1) == 2 && Plus(2, 1) == 3 && Plus(3, 1) == 4 && Plus(4, 1) == 5
    ensures Plus(5, 1) == 6 && Plus(6, 1) == 7 && Plus(7, 1) == 8 && Plus(8, 1) == 9 && Plus(9, 1) == 10
    ensures Plus(10, 1) == 11 && Plus(11, 1) == 12 && Plus(12, 1) == 13 && Plus(13, 1) == 14 && Plus(14, 1) == 15
  {
  }

  lemma WrapsAround()
    ensures Wrap(WORDS) == 0
  {
    hide Wrap;
    Digits();
    Nibble(0x0, 0x0, 0x1, 0x1); Nibble(0x1, 0x1, 0x0, 0x0); Nibble(0x10, 0x10, 0x0, 0x0);
    Nibble(0x100, 0x100, 0x0, 0x0); Nibble(0x1000, 0x1000, 0x0, 0x0); Nibble(0x10000, 0x10000, 0x0, 0x0);
    Nibble(0x100000, 0x100000, 0x0, 0x0); Nibble(0x1000000, 0x1000000, 0x0, 0x0);
    Nibble(0x10000000, 0x10000000, 0x0, 0x0);
  }

  lemma FactorWord()
    ensures Wrap(69069) == 69069
  {
    hide Wrap;
    Digits();
    Nibble(0x0, 0x0, 0x1, 0x1); Nibble(0x1, 0x1, 0x0, 0x0); Nibble(0x10, 0x10, 0xD, 0xD);
    Nibble(0x10D, 0x10D, 0xC, 0xC); Nibble(0x10DC, 0x10DC, 0xD, 0xD);
  }

  /** Multiples of 2^32 are nothing. */
  lemma {:induction false} WrapRounds(q: nat)
    ensures Wrap(q * WORDS) == 0
    decreases q
  {
    hide Plus;
    if q == 0 {
      assert q * WORDS == 0;
    } else {
      WrapRounds(q - 1);
      WrapsAround();
      assert q * WORDS == (q - 1) * WORDS + WORDS;
      WrapAdds((q - 1) * WORDS, WORDS);
      ZeroPlus(0);
    }
  }

  lemma WrapMod(n: nat)
    ensures Wrap(n) == Wrap(n % WORDS)
  {
    hide Plus, Wrap;
    var q, r := n / WORDS, n % WORDS;
    assert n == q * WORDS + r;
    WrapRounds(q);
    WrapAdds(q * WORDS, r);
    ZeroPlus(Wrap(r));
  }

  lemma NextProduct(x: bv32)
    ensures Congruential(x) + 69069 == Congruential(x + 1)
  {
  }

  lemma PlusIs(x: bv32, y: bv32)
    ensures Plus(x, y) == x + y
  {
  }

  lemma NextMultiple(x: bv32)
    ensures Plus(Congruential(x), 69069) == Congruential(Plus(x, 1))
  {
    hide Congruential, Plus;
    NextProduct(x);
    PlusIs(x, 1);
    PlusIs(Congruential(x), 69069);
  }

  lemma NoMultiple()
    ensures Congruential(0) == 0
  {
  }

  /** The congruential step multiplies by 69069 modulo 2^32. */
  lemma {:induction false} WrapCongruential(n: nat)
    ensures Wrap(69069 * n) == Congruential(Wrap(n))
    decreases n
  {
    hide Plus, Congruential;
    if n == 0 {
      NoMultiple();
    } else {
      WrapCongruential(n - 1);
      FactorWord();
      assert 69069 * n == 69069 * (n - 1) + 69069;
      WrapAdds(69069 * (n - 1), 69069);
      NextMultiple(Wrap(n - 1));
    }
  }

  lemma ZeroPlus(x: bv32)
    ensures Plus(0, x) == x
  {
  }

  // ----- The number that a word stands for -----

  function Half(x: bv32): bv32 { x >> 1 }
  predicate IsOdd(x: bv32) { x & 1 == 1 }

  /** The number that the low w bits of x stand for. */
  function Low(x: bv32, w: nat): nat
    decreases w
  {
    if w == 0 then 0 else 2 * Low(Half(x), w - 1) + if IsOdd(x) then 1 else 0
  }

  function Value(x: bv32): nat { Low(x, 32) }

  /** Incrementing carries over the low bits that are set. */
  lemma Increment(x: bv32)
    ensures !IsOdd(x) ==> IsOdd(Plus(x, 1)) && Half(Plus(x, 1)) == Half(x)
    ensures IsOdd(x) && x != 0xFFFF_FFFF ==> !IsOdd(Plus(x, 1)) && Half(Plus(x, 1)) == Plus(Half(x), 1)
  {
  }

  /** The low w bits are all set. */
  predicate Full(x: bv32, w: nat)
    decreases w
  {
    w == 0 || (IsOdd(x) && Full(Half(x), w - 1))
  }

  lemma {:induction false} LowNext(x: bv32, w: nat)
    requires !Full(x, w) && x != 0xFFFF_FFFF
    ensures Low(Plus(x, 1), w) == Low(x, w) + 1
    decreases w
  {
    Increment(x);
    HalfIsLess(x);
    hide Plus, Half, IsOdd;
    if IsOdd(x) { LowNext(Half(x), w - 1); }
  }

  lemma HalfIsLess(x: bv32)
    ensures Half(x) != 0xFFFF_FFFF
  {
  }

  lemma {:induction false} LowBound(x: bv32, w: nat)
    ensures Low(x, w) < Power(2, w) && (Full(x, w) ==> Low(x, w) == Power(2, w) - 1)
    decreases w
  {
    hide Half, IsOdd;
    if w > 0 { LowBound(Half(x), w - 1); }
  }

  lemma EightMore(x: bv32, y: bv32, w: nat)
    requires x & 0xFF == 0xFF && y == x >> 8 && Full(y, w)
    ensures Full(x, w + 8)
  {
    EightBits(x);
    hide Half, IsOdd;
    var a, b, c := Half(x), Half(Half(x)), Half(Half(Half(x)));
    var d := Half(c);
    assert Full(Half(Half(Half(d))), w + 1);
    assert Full(Half(Half(d)), w + 2);
    assert Full(Half(d), w + 3);
    assert Full(d, w + 4);
    assert Full(c, w + 5);
    assert Full(b, w + 6);
    assert Full(a, w + 7);
  }

  lemma EightBits(x: bv32)
    requires x & 0xFF == 0xFF
    ensures var a, b, c := Half(x), Half(Half(x)), Half(Half(Half(x)));
            var d := Half(c);
            && IsOdd(x) && IsOdd(a) && IsOdd(b) && IsOdd(c)
            && IsOdd(d) && IsOdd(Half(d)) && IsOdd(Half(Half(d))) && IsOdd(Half(Half(Half(d))))
            && Half(Half(Half(Half(d)))) == x >> 8
  {
  }

  lemma TopIsFull()
    ensures Full(0xFFFF_FFFF, 32)
  {
    assert Full(0, 0);
    EightMore(0xFF, 0, 0);
    EightMore(0xFFFF, 0xFF, 8);
    EightMore(0xFF_FFFF, 0xFFFF, 16);
    EightMore(0xFFFF_FFFF, 0xFF_FFFF, 24);
  }

  lemma TwoTo32()
    ensures Power(2, 32) == WORDS
  {
    assert Power(2, 8) == 0x100;
    assert Power(2, 16) == 0x1_0000;
    assert Power(2, 24) == 0x100_0000;
  }

  lemma {:induction false} ValueWrap(n: nat)
    requires n < WORDS
    ensures Value(Wrap(n)) == n
    decreases n
  {
    hide Plus, Full, Low;
    if n == 0 {
      ZeroIsZero(32);
    } else {
      var x := Wrap(n - 1);
      ValueWrap(n - 1);
      LowBound(x, 32);
      TwoTo32();
      TopIsFull();
      LowNext(x, 32);
    }
  }

  lemma {:induction false} ZeroIsZero(w: nat)
    ensures Low(0, w) == 0
    decreases w
  {
    if w > 0 { ZeroIsZero(w - 1); }
  }

  /** Nothing but the low w bits of x is set. */
  predicate Fits(x: bv32, w: nat)
    decreases w
  {
    if w == 0 then x == 0 else Fits(Half(x), w - 1)
  }

  lemma EightFewer(x: bv32, w: nat)
    requires Fits(x >> 8, w)
    ensures Fits(x, w + 8)
  {
    EightHalves(x);
    hide Half;
    var a, b, c := Half(x), Half(Half(x)), Half(Half(Half(x)));
    var d := Half(c);
    assert Fits(Half(Half(Half(d))), w + 1);
    assert Fits(Half(Half(d)), w + 2);
    assert Fits(Half(d), w + 3);
    assert Fits(d, w + 4);
    assert Fits(c, w + 5);
    assert Fits(b, w + 6);
    assert Fits(a, w + 7);
  }

  lemma EightHalves(x: bv32)
    ensures Half(Half(Half(Half(Half(Half(Half(Half(x)))))))) == x >> 8
  {
  }

  lemma AllFit(x: bv32)
    ensures Fits(x, 32)
  {
    hide Fits;
    Bytes(x);
    NothingFits();
    EightFewer(x >> 24, 0);
    EightFewer(x >> 16, 8);
    EightFewer(x >> 8, 16);
    EightFewer(x, 24);
  }

  lemma NothingFits()
    ensures Fits(0, 0)
  {
  }

  lemma Bytes(x: bv32)
    ensures (x >> 8) >> 8 == x >> 16 && (x >> 16) >> 8 == x >> 24 && (x >> 24) >> 8 == 0
  {
  }

  lemma Halves(x: bv32)
    ensures IsOdd(x) ==> Plus(Plus(Half(x), Half(x)), 1) == x
    ensures !IsOdd(x) ==> Plus(Half(x), Half(x)) == x
  {
  }

  lemma {:induction false} WrapLow(x: bv32, w: nat)
    requires Fits(x, w)
    ensures Wrap(Low(x, w)) == x
    decreases w
  {
    hide Plus, Half, IsOdd;
    if w > 0 {
      WrapLow(Half(x), w - 1);
      Doubled(Low(Half(x), w - 1), Half(x));
      Halves(x);
    }
  }

  /** Words and the numbers below 2^32 are the same thing. */
  lemma WrapValue(x: bv32)
    ensures Wrap(Value(x)) == x && Value(x) < WORDS
  {
    hide Fits, Wrap;
    LowBound(x, 32);
    TwoTo32();
    AllFit(x);
    WrapLow(x, 32);
  }

  function Power(b: nat, n: nat): nat { if n == 0 then 1 else b * Power(b, n - 1) }

  // ----- The first block -----

  /** The i-th word of the first block is the seed, made odd, times 69069^i modulo 2^32. */
  lemma {:induction false} StartIsPower(seed: bv32, i: nat)
    ensures Start(seed, i) == Wrap(Value(Odd(seed)) * Power(69069, i))
    decreases i
  {
    hide Congruential, Value, Wrap, Odd;
    var v := Value(Odd(seed));
    if i == 0 {
      WrapValue(Odd(seed));
      assert v * Power(69069, 0) == v;
    } else {
      StartIsPower(seed, i - 1);
      WrapCongruential(v * Power(69069, i - 1));
      assert v * Power(69069, i) == 69069 * (v * Power(69069, i - 1));
    }
  }

  lemma StartClosed(seed: bv32, i: nat)
    ensures Value(Start(seed, i)) == Value(Odd(seed)) * Power(69069, i) % WORDS
  {
    hide Value, Wrap, Power, Start, Odd;
    var n := Value(Odd(seed)) * Power(69069, i);
    StartIsPower(seed, i);
    WrapMod(n);
    ValueWrap(n % WORDS);
  }

  lemma LowStep(x: bv32, w: nat)
    requires w > 0
    ensures Low(x, w) == 2 * Low(Half(x), w - 1) + if IsOdd(x) then 1 else 0
  {
    hide Half, IsOdd;
  }

  /** The seed is only made odd. */
  lemma OddValue(seed: bv32)
    ensures Value(Odd(seed)) == if Value(seed) % 2 == 0 then Value(seed) + 1 else Value(seed)
  {
    hide Low, Half, IsOdd, Odd;
    OddBits(seed);
    LowStep(seed, 32);
    LowStep(Odd(seed), 32);
  }

  lemma OddBits(seed: bv32)
    ensures IsOdd(Odd(seed)) && Half(Odd(seed)) == Half(seed)
  {
  }

  /** Every word of the first block is odd. */
  lemma {:induction false} StartIsOdd(seed: bv32, i: nat)
    ensures Start(seed, i) & 1 == 1
    decreases i
  {
    OddBits(seed);
    if i > 0 {
      StartIsOdd(seed, i - 1);
      OddProduct(Start(seed, i - 1));
      hide Congruential, Start;
    }
  }

  lemma OddProduct(x: bv32)
    requires x & 1 == 1
    ensures Congruential(x) & 1 == 1
  {
  }

  // ----- The recurrence loses nothing -----

  function Untwist(y: bv32): bv32 {
    if y & 0x8000_0000 == 0 then y << 1 else ((y ^ K) << 1) | 1
  }

  lemma TwistInverse(x: bv32)
    ensures Untwist(Twist(x)) == x
  {
  }

  lemma XorUndone(a: bv32, b: bv32)
    ensures (a ^ b) ^ a == b
  {
  }

  lemma MixedBits(u: bv32, v: bv32)
    ensures HiBit(MixBits(u, v)) == HiBit(u) && LoBits(MixBits(u, v)) == LoBits(v)
  {
  }

  lemma WordRecurs(seed: bv32, i: nat)
    ensures Word(seed, i + N) == Word(seed, i + M) ^ Twist(MixBits(Word(seed, i), Word(seed, i + 1)))
  {
    hide Twist, MixBits;
  }

  lemma Undone(a: bv32, u: bv32, v: bv32)
    ensures var y := Untwist((a ^ Twist(MixBits(u, v))) ^ a); HiBit(u) == HiBit(y) && LoBits(v) == LoBits(y)
  {
    hide Twist, Untwist, MixBits, HiBit, LoBits;
    XorUndone(a, Twist(MixBits(u, v)));
    TwistInverse(MixBits(u, v));
    MixedBits(u, v);
  }

  /** The upper bit of a word and the lower 31 bits of the next one follow from the words M and N places on. */
  lemma WordsBack(seed: bv32, i: nat)
    ensures var y := Untwist(Word(seed, i + N) ^ Word(seed, i + M));
            HiBit(Word(seed, i)) == HiBit(y) && LoBits(Word(seed, i + 1)) == LoBits(y)
  {
    hide Word, Twist, Untwist, MixBits, HiBit, LoBits;
    WordRecurs(seed, i);
    Undone(Word(seed, i + M), Word(seed, i), Word(seed, i + 1));
  }

  // ----- The first outputs -----

  lemma ModTimes(x: nat, y: nat)
    ensures (x * y) % WORDS == ((x % WORDS) * (y % WORDS)) % WORDS
  {
    var p, q, a, b := x / WORDS, y / WORDS, x % WORDS, y % WORDS;
    var k := p * q * WORDS + p * b + q * a;
    assert x * y == k * WORDS + a * b by {
      assert x * y == (p * WORDS + a) * (q * WORDS + b);
      assert (p * WORDS + a) * (q * WORDS + b) == p * q * WORDS * WORDS + p * b * WORDS + q * a * WORDS + a * b;
    }
    ModUnique(x * y, WORDS, k + a * b / WORDS, a * b % WORDS);
  }

  lemma ModUnique(v: int, d: int, q: int, r: int)
    requires d > 0 && v == q * d + r && 0 <= r < d
    ensures v % d == r
  {
    var k := q - v / d;
    assert k * d == v % d - r;
    assert k >= 1 ==> k * d >= d;
    assert k <= -1 ==> k * d <= -d;
  }

  lemma {:induction false} PowersAdd(m: nat, n: nat)
    ensures Power(69069, m + n) == Power(69069, m) * Power(69069, n)
    decreases m
  {
    if m == 0 {
      assert Power(69069, 0) * Power(69069, n) == Power(69069, n);
    } else {
      PowersAdd(m - 1, n);
      assert 69069 * (Power(69069, m - 1) * Power(69069, n)) == 69069 * Power(69069, m - 1) * Power(69069, n);
    }
  }

  /** The power of 69069 modulo 2^32. */
  function Factor(n: nat): nat { Power(69069, n) % 0x1_0000_0000 }

  /** Powers of 69069 modulo 2^32 by squaring. */
  lemma Squared(m: nat, p: nat, q: nat, r: nat)
    requires Factor(m) == p && p * p % 0x1_0000_0000 == q && 69069 * q % 0x1_0000_0000 == r
    ensures Factor(2 * m) == q && Factor(2 * m + 1) == r
  {
    PowersAdd(m, m);
    hide Power;
    ModTimes(Power(69069, m), Power(69069, m));
    OneMorePower(2 * m, q, r);
  }

  lemma OneMorePower(m: nat, q: nat, r: nat)
    requires Factor(m) == q && 69069 * q % 0x1_0000_0000 == r
    ensures Factor(m + 1) == r
  {
    hide Power;
    NextPower(m);
    ModTimes(69069, Power(69069, m));
  }

  lemma NextPower(m: nat)
    ensures Power(69069, m + 1) == 69069 * Power(69069, m)
  {
  }

  lemma Power6()
    ensures Factor(6) == 4238970681
  {
    hide Factor;
    SmallPowers();
    Squared(1, 69069, 475559465, 2801775573);
    Squared(3, 2801775573, 4238970681, 2135332261);
  }

  lemma Power24()
    ensures Factor(24) == 430550625
  {
    hide Factor;
    Power6();
    Squared(6, 4238970681, 2707602097, 4198202557);
    Squared(12, 2707602097, 430550625, 3642527917);
  }

  lemma Power99()
    ensures Factor(99) == 1031357269
  {
    hide Factor;
    Power24();
    Squared(24, 430550625, 2765750465, 358442893);
    Squared(49, 358442893, 2287256489, 1031357269);
  }

  lemma Power397()
    ensures Factor(397) == 1719184061
  {
    hide Factor;
    Power99();
    Squared(99, 1031357269, 974101049, 3817628837);
    Squared(198, 974101049, 1133945009, 1719184061);
  }

  lemma Power398()
    ensures Factor(398) == 3658043993
  {
    hide Factor;
    Power397();
    OneMorePower(397, 1719184061, 3658043993);
  }

  lemma Number0()
    ensures Wrap(4357) == 4357
  {
    hide Wrap;
    Digits();
    Nibble(0x0, 0x0, 0x1, 0x1); Nibble(0x1, 0x1, 0x1, 0x1); Nibble(0x11, 0x11, 0x0, 0x0);
    Nibble(0x110, 0x110, 0x5, 0x5);
  }

  lemma Number1()
    ensures Wrap(300933633) == 300933633
  {
    hide Wrap;
    Digits();
    Nibble(0x0, 0x0, 0x1, 0x1); Nibble(0x1, 0x1, 0x1, 0x1); Nibble(0x11, 0x11, 0xE, 0xE);
    Nibble(0x11E, 0x11E, 0xF, 0xF); Nibble(0x11EF, 0x11EF, 0xE, 0xE); Nibble(0x11EFE, 0x11EFE, 0x2, 0x2);
    Nibble(0x11EFE2, 0x11EFE2, 0x0, 0x0); Nibble(0x11EFE20, 0x11EFE20, 0x1, 0x1);
  }

  lemma Number2()
    ensures Wrap(1838352333) == 1838352333
  {
    hide Wrap;
    Digits();
    Nibble(0x0, 0x0, 0x6, 0x6); Nibble(0x6, 0x6, 0xD, 0xD); Nibble(0x6D, 0x6D, 0x9, 0x9);
    Nibble(0x6D9, 0x6D9, 0x3, 0x3); Nibble(0x6D93, 0x6D93, 0x0, 0x0); Nibble(0x6D930, 0x6D930, 0x7, 0x7);
    Nibble(0x6D9307, 0x6D9307, 0xC, 0xC); Nibble(0x6D9307C, 0x6D9307C, 0xD, 0xD);
  }

  lemma Number397()
    ensures Wrap(61989553) == 61989553
  {
    hide Wrap;
    Digits();
    Nibble(0x0, 0x0, 0x3, 0x3); Nibble(0x3, 0x3, 0xB, 0xB); Nibble(0x3B, 0x3B, 0x1, 0x1);
    Nibble(0x3B1, 0x3B1, 0xE, 0xE); Nibble(0x3B1E, 0x3B1E, 0x2, 0x2); Nibble(0x3B1E2, 0x3B1E2, 0xB, 0xB);
    Nibble(0x3B1E2B, 0x3B1E2B, 0x1, 0x1);
  }

  lemma Number398()
    ensures Wrap(3769009341) == 3769009341
  {
    hide Wrap;
    Digits();
    Nibble(0x0, 0x0, 0xE, 0xE); Nibble(0xE, 0xE, 0x0, 0x0); Nibble(0xE0, 0xE0, 0xA, 0xA);
    Nibble(0xE0A, 0xE0A, 0x6, 0x6); Nibble(0xE0A6, 0xE0A6, 0x8, 0x8); Nibble(0xE0A68, 0xE0A68, 0x4, 0x4);
    Nibble(0xE0A684, 0xE0A684, 0xB, 0xB); Nibble(0xE0A684B, 0xE0A684B, 0xD, 0xD);
  }

  lemma StartNumber(i: nat, power: nat, n: nat)
    requires Factor(i) == power && 4357 * power % 0x1_0000_0000 == n
    ensures Start(DEFAULT_SEED, i) == Wrap(n)
  {
    hide Start, Wrap, Power, Value;
    SeedValue();
    StartIsPower(DEFAULT_SEED, i);
    WrapMod(4357 * Power(69069, i));
    ModTimes(4357, Power(69069, i));
  }

  lemma SeedValue()
    ensures Value(Odd(DEFAULT_SEED)) == 4357
  {
    hide Wrap, Value;
    Number0();
    ValueWrap(4357);
    SeedIsOdd();
  }

  lemma SeedIsOdd()
    ensures Odd(DEFAULT_SEED) == 4357
  {
  }

  /** The words of the first block that the first outputs are made of, for the seed that is used unless another one is
      set. */
  lemma FirstWords()
    ensures Start(DEFAULT_SEED, 0) == 4357 && Start(DEFAULT_SEED, 1) == 300933633 && Start(DEFAULT_SEED, 2) == 1838352333
    ensures Start(DEFAULT_SEED, 397) == 61989553 && Start(DEFAULT_SEED, 398) == 3769009341
  {
    hide Start, Wrap, Factor;
    SmallPowers();
    Power397();
    Power398();
    Number0();
    Number1();
    Number2();
    Number397();
    Number398();
    StartNumber(0, 1, 4357);
    StartNumber(1, 69069, 300933633);
    StartNumber(2, 475559465, 1838352333);
    StartNumber(397, 1719184061, 61989553);
    StartNumber(398, 3658043993, 3769009341);
  }

  lemma SmallPowers()
    ensures Factor(0) == 1 && Factor(1) == 69069 && Factor(2) == 475559465
  {
  }

  /** With them the first two outputs. */
  lemma FirstOutputs()
    ensures Output(DEFAULT_SEED, 0) == 3510405877 && Output(DEFAULT_SEED, 1) == 4290933890
  {
    hide Start;
    FirstWords();
    FirstBlock();
    hide Word;
    assert 0 + M == M && N + 0 == N;
    WordRecurs(DEFAULT_SEED, 0);
    WordRecurs(DEFAULT_SEED, 1);
  }

  lemma FirstBlock()
    ensures forall i: nat :: i < N ==> Word(DEFAULT_SEED, i) == Start(DEFAULT_SEED, i)
  {
    hide Start, Twist, MixBits;
  }

  class Generator {
    const state: array<bv32>
    var next: nat
    var left: int
    ghost var seed: bv32    // what the current sequence started from
    ghost var base: nat     // the block holds words base..base + N - 1 of that sequence
    ghost var calls: nat    // how many outputs it has given

    ghost predicate Valid()
      reads this, state
    {
      && state.Length == N + 1
      && (left == -1 ==> seed == DEFAULT_SEED && calls == 0)
      && (left != -1 ==> HoldsBlock() && InPlace())
    }

    ghost predicate HoldsBlock()
      requires state.Length == N + 1
      reads this, state
    {
      forall i :: 0 <= i < N ==> state[i] == Word(seed, base + i)
    }

    /** Before the first reload nothing of the block is to be given out; afterwards its first `next` words
        have been. */
    ghost predicate InPlace()
      reads this
    {
      if base == 0 then left == 0 && calls == 0
      else 1 <= next <= N && left == N - next && calls == base + next - N
    }

    /** The state at program start: not seeded. */
    constructor ()
      ensures Valid() && fresh(state) && seed == DEFAULT_SEED && calls == 0
    {
      state := new bv32[N + 1](_ => 0);
      next, left := 0, -1;
      seed, base, calls := DEFAULT_SEED, 0, 0;
    }

    /** seedMT. */
    method Seed(newSeed: bv32)
      requires state.Length == N + 1
      modifies this, state
      ensures Valid() && seed == newSeed && calls == 0 && base == 0 && left == 0
    {
      hide Congruential, Odd;
      var x: bv32 := Odd(newSeed);
      left := 0;
      state[0] := x;
      var j := 1;
      while j < N
        invariant 1 <= j <= N && left == 0
        invariant x == Start(newSeed, j - 1)
        invariant forall i :: 0 <= i < j ==> state[i] == Start(newSeed, i)
      {
        x := Congruential(x);
        state[j] := x;
        j := j + 1;
      }
      seed, base, calls := newSeed, 0, 0;
    }

    /** The first phase of the reload: the words that combine only with old ones. */
    method ReloadLow() returns (s0: bv32, s1: bv32)
      requires state.Length == N + 1 && HoldsBlock()
      modifies state
      ensures forall i :: 0 <= i < N - M ==> state[i] == Word(seed, base + N + i)
      ensures forall i :: N - M <= i < N ==> state[i] == Word(seed, base + i)
      ensures s0 == Word(seed, base + N - M) && s1 == Word(seed, base + N - M + 1)
    {
      hide Reload, Word;
      s0, s1 := state[0], state[1];
      for p := 0 to N - M
        invariant forall i :: 0 <= i < p ==> state[i] == Word(seed, base + N + i)
        invariant forall i :: p <= i < N ==> state[i] == Word(seed, base + i)
        invariant s0 == Word(seed, base + p) && s1 == Word(seed, base + p + 1)
      {
        ReloadContinues(seed, base + p);
        state[p] := Reload(state[p + M], s0, s1);
        s0, s1 := s1, state[p + 2];
      }
    }

    /** The second phase: the words that combine with ones already replaced.  The last s1 is read from the
        spare word behind the block and thrown away. */
    method ReloadHigh(a0: bv32, a1: bv32) returns (s0: bv32)
      requires state.Length == N + 1
      requires forall i :: 0 <= i < N - M ==> state[i] == Word(seed, base + N + i)
      requires forall i :: N - M <= i < N ==> state[i] == Word(seed, base + i)
      requires a0 == Word(seed, base + N - M) && a1 == Word(seed, base + N - M + 1)
      modifies state
      ensures forall i :: 0 <= i < N - 1 ==> state[i] == Word(seed, base + N + i)
      ensures s0 == Word(seed, base + N - 1)
    {
      hide Reload, Word;
      s0 := a0;
      var s1 := a1;
      for p := N - M to N - 1
        invariant forall i :: 0 <= i < p ==> state[i] == Word(seed, base + N + i)
        invariant forall i :: p <= i < N ==> state[i] == Word(seed, base + i)
        invariant s0 == Word(seed, base + p) && (p < N - 1 ==> s1 == Word(seed, base + p + 1))
      {
        ReloadContinues(seed, base + p);
        assert state[p - (N - M)] == Word(seed, base + p + M);
        state[p] := Reload(state[p - (N - M)], s0, s1);
        s0, s1 := s1, state[p + 2];
      }
    }

    /** reloadMT: replaces the block by the next one and gives out its first word. */
    method ReloadBlock() returns (y: bv32)
      requires state.Length == N + 1 && (left >= -1 ==> HoldsBlock())
      modifies this, state
      ensures state.Length == N + 1 && HoldsBlock() && next == 1 && left == N - 1 && calls == old(calls)
      ensures if old(left) < -1 then seed == DEFAULT_SEED && base == N else seed == old(seed) && base == old(base) + N
      ensures y == Temper(Word(seed, base))
    {
      hide Reload, Word, Temper;
      if left < -1 {
        ghost var given := calls;
        Seed(DEFAULT_SEED);
        calls := given;
      }
      left, next := N - 1, 1;
      var s0, s1 := ReloadLow();
      s0 := ReloadHigh(s0, s1);
      s1 := state[0];
      ReloadContinues(seed, base + N - 1);
      state[N - 1] := Reload(state[M - 1], s0, s1);
      base := base + N;
      y := Temper(s1);
    }

    /** randomMT: the n-th call after seeding gives the n-th tempered word of the recurrence; a generator that
        was never seeded behaves as if seeded with 4357. */
    method Random() returns (y: bv32)
      requires Valid()
      modifies this, state
      ensures Valid() && seed == old(seed) && calls == old(calls) + 1 && left >= 0
      ensures y == Output(seed, old(calls))
    {
      hide Reload, Word, Temper;
      left := left - 1;
      if left < 0 {
        y := ReloadBlock();
      } else {
        y := Temper(state[next]);
        next := next + 1;
      }
      calls := calls + 1;
    }
  }
}

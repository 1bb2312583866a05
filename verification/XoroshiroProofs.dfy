/** The generator's step is linear and invertible, its jump is a polynomial in the step, and its seeding
    loses nothing. */
module XoroshiroProofs {
  import opened Xoroshiro

  // ----- calculating with exclusive or -----

  lemma XAssoc(a: bv64, b: bv64, c: bv64)
    ensures X(X(a, b), c) == X(a, X(b, c))
  {
  }

  lemma XComm(a: bv64, b: bv64)
    ensures X(a, b) == X(b, a)
  {
  }

  lemma XCancel(a: bv64, b: bv64)
    ensures X(X(a, b), b) == a
  {
  }

  lemma XSwap(a: bv64, b: bv64, c: bv64, d: bv64)
    ensures X(X(a, b), X(c, d)) == X(X(a, c), X(b, d))
  {
    XAssoc(a, b, X(c, d));
    XAssoc(b, c, d);
    XComm(b, c);
    XAssoc(c, b, d);
    XAssoc(a, c, X(b, d));
  }

  // ----- the pieces of a step -----

  lemma Rotl55Linear(a: bv64, b: bv64)
    ensures Rotl55(X(a, b)) == X(Rotl55(a), Rotl55(b))
  {
  }

  lemma Rotl36Linear(a: bv64, b: bv64)
    ensures Rotl36(X(a, b)) == X(Rotl36(a), Rotl36(b))
  {
  }

  lemma Shl14Linear(a: bv64, b: bv64)
    ensures Shl14(X(a, b)) == X(Shl14(a), Shl14(b))
  {
  }

  lemma NextLinear(a: State, b: State)
    ensures Next(Xor(a, b)) == Xor(Next(a), Next(b))
  {
    var u, v := X(a.s1, a.s0), X(b.s1, b.s0);
    var ra, rb := Rotl55(a.s0), Rotl55(b.s0);
    XSwap(a.s1, b.s1, a.s0, b.s0);
    Rotl55Linear(a.s0, b.s0);
    Shl14Linear(u, v);
    Rotl36Linear(u, v);
    XSwap(ra, rb, u, v);
    XSwap(X(ra, u), X(rb, v), Shl14(u), Shl14(v));
  }

  // ----- a step undone -----

  function Rotl28(x: bv64): bv64 { (x << 28) | (x >> 36) }
  function Rotl9(x: bv64): bv64 { (x << 9) | (x >> 55) }

  function Previous(s: State): State {
    var t := Rotl28(s.s1);
    var s0 := Rotl9(X(X(s.s0, t), Shl14(t)));
    State(s0, X(t, s0))
  }

  lemma RotationsInvert(x: bv64)
    ensures Rotl28(Rotl36(x)) == x && Rotl36(Rotl28(x)) == x
    ensures Rotl9(Rotl55(x)) == x && Rotl55(Rotl9(x)) == x
  {
  }

  lemma XCancelTwo(r: bv64, t: bv64, h: bv64)
    ensures X(X(X(X(r, t), h), t), h) == r
  {
    var y := X(r, t);
    XAssoc(y, h, t);
    XComm(h, t);
    XAssoc(y, t, h);
    XCancel(r, t);
    XCancel(r, h);
  }

  /** Every state has exactly one predecessor. */
  lemma NextIsBijective(s: State)
    ensures Previous(Next(s)) == s && Next(Previous(s)) == s
  {
    PreviousAfterNext(s);
    NextAfterPrevious(s);
  }

  lemma PreviousAfterNext(s: State)
    ensures Previous(Next(s)) == s
  {
    var t := X(s.s1, s.s0);
    RotationsInvert(t);
    RotationsInvert(s.s0);
    XCancelTwo(Rotl55(s.s0), t, Shl14(t));
    XCancel(s.s1, s.s0);
  }

  lemma NextAfterPrevious(s: State)
    ensures Next(Previous(s)) == s
  {
    var t := Rotl28(s.s1);
    var w := X(X(s.s0, t), Shl14(t));
    RotationsInvert(s.s1);
    RotationsInvert(w);
    XCancel(t, Rotl9(w));
    XCancelTwo(s.s0, t, Shl14(t));
  }

  lemma NextOfZero()
    ensures Next(ZERO) == ZERO
  {
    assert X(0, 0) == 0 && Rotl55(0) == 0 && Rotl36(0) == 0 && Shl14(0) == 0;
  }

  /** Only the zero state steps to zero, so a generator that is not in it never falls into it. */
  lemma {:induction false} ZeroOnlyFromZero(s: State, n: nat)
    ensures NextN(s, n) == ZERO <==> s == ZERO
  {
    NextOfZero();
    if n > 0 {
      ZeroOnlyFromZero(s, n - 1);
      PreviousAfterNext(NextN(s, n - 1));
      PreviousAfterNext(ZERO);
    }
  }

  // ----- the jump is a polynomial in the step -----

  lemma StateXorLaws(a: State, b: State, c: State, d: State)
    ensures Xor(Xor(a, b), Xor(c, d)) == Xor(Xor(a, c), Xor(b, d))
    ensures Xor(ZERO, ZERO) == ZERO
  {
    assert X(0, 0) == 0;
    hide X;
    XSwap(a.s0, b.s0, c.s0, d.s0);
    XSwap(a.s1, b.s1, c.s1, d.s1);
  }

  lemma {:induction false} NextNLinear(a: State, b: State, n: nat)
    ensures NextN(Xor(a, b), n) == Xor(NextN(a, n), NextN(b, n))
  {
    hide Next, Xor;
    if n > 0 {
      NextNLinear(a, b, n - 1);
      NextLinear(NextN(a, n - 1), NextN(b, n - 1));
    }
  }

  lemma {:induction false} JumpSumLinear(a: State, b: State, n: nat)
    requires n <= 128
    ensures JumpSum(Xor(a, b), n) == Xor(JumpSum(a, n), JumpSum(b, n))
  {
    hide JumpBit, Xor, NextN;
    StateXorLaws(ZERO, ZERO, ZERO, ZERO);
    if n > 0 {
      JumpSumLinear(a, b, n - 1);
      NextNLinear(a, b, n - 1);
      StateXorLaws(JumpSum(a, n - 1), JumpSum(b, n - 1), NextN(a, n - 1), NextN(b, n - 1));
    }
  }

  lemma {:induction false} NextNCommutes(s: State, n: nat)
    ensures NextN(Next(s), n) == Next(NextN(s, n))
  {
    hide Next;
    if n > 0 {
      NextNCommutes(s, n - 1);
    }
  }

  lemma {:induction false} JumpSumCommutes(s: State, n: nat)
    requires n <= 128
    ensures JumpSum(Next(s), n) == Next(JumpSum(s, n))
  {
    NextOfZero();
    hide JumpBit, Xor, NextN, Next;
    if n > 0 {
      JumpSumCommutes(s, n - 1);
      NextNCommutes(s, n - 1);
      NextLinear(JumpSum(s, n - 1), NextN(s, n - 1));
    }
  }

  /** A jump is linear, keeps the zero state and commutes with drawing any number of values. */
  lemma {:induction false} JumpIsLinearAndCommutes(a: State, b: State, n: nat)
    ensures Jump(Xor(a, b)) == Xor(Jump(a), Jump(b))
    ensures Jump(NextN(a, n)) == NextN(Jump(a), n)
  {
    hide Xor, Next, JumpSum;
    JumpSumLinear(a, b, 128);
    if n > 0 {
      JumpIsLinearAndCommutes(a, b, n - 1);
      JumpSumCommutes(NextN(a, n - 1), 128);
    }
  }

  lemma {:induction false} JumpNCommutes(s: State, m: nat, n: nat)
    ensures JumpN(NextN(s, n), m) == NextN(JumpN(s, m), n)
  {
    hide Jump, NextN, Xor;
    if m > 0 {
      JumpNCommutes(s, m - 1, n);
      JumpIsLinearAndCommutes(JumpN(s, m - 1), ZERO, n);
    }
  }

  lemma {:induction false} JumpSumOfZero(n: nat)
    requires n <= 128
    ensures JumpSum(ZERO, n) == ZERO
  {
    hide JumpBit;
    if n > 0 {
      JumpSumOfZero(n - 1);
      ZeroOnlyFromZero(ZERO, n - 1);
      StateXorLaws(ZERO, ZERO, ZERO, ZERO);
    }
  }

  // ----- streams -----

  lemma {:induction false} JumpNAdds(s: State, m: nat, n: nat)
    ensures JumpN(JumpN(s, m), n) == JumpN(s, m + n)
  {
    hide Jump;
    if n > 0 {
      JumpNAdds(s, m, n - 1);
    }
  }

  /** The array for start `k + 1` is the array for start `k` moved by one, and drawing `n` values from a
      generator before or after it is handed on makes no difference. */
  lemma StreamsShift(seed: bv64, start: nat, i: nat, n: nat)
    ensures StreamState(seed, start + 1, i) == StreamState(seed, start, i + 1)
    ensures Jump(NextN(StreamState(seed, start, i), n)) == NextN(StreamState(seed, start, i + 1), n)
  {
    hide Jump, NextN, SeedState;
    JumpIsLinearAndCommutes(StreamState(seed, start, i), ZERO, n);
  }

  // ----- seeding -----

  function Unshift30(y: bv64): bv64 { y ^ (y >> 30) ^ (y >> 60) }
  function Unshift27(y: bv64): bv64 { y ^ (y >> 27) ^ (y >> 54) }
  function Unshift31(y: bv64): bv64 { y ^ (y >> 31) ^ (y >> 62) }

  /** The multipliers are odd; these are their inverses modulo 2^64. */
  function UnMixA(y: bv64): bv64 { Unshift30(y * 0x96DE1B173F119089) }
  function UnMixB(y: bv64): bv64 { Unshift27(y * 0x319642B2D24D8EC3) }

  function SeedOf(z: bv64): bv64 {
    UnMixA(UnMixB(Unshift31(z))) - 0x9E3779B97F4A7C15
  }

  lemma UnshiftsUndoSpelledOut(z: bv64)
    ensures Unshift30(z ^ (z >> 30)) == z && Unshift27(z ^ (z >> 27)) == z && Unshift31(z ^ (z >> 31)) == z
  {
  }

  lemma UnshiftsUndo(z: bv64)
    ensures Unshift30(Shift30(z)) == z && Unshift27(Shift27(z)) == z && Unshift31(Shift31(z)) == z
  {
    hide Unshift30, Unshift27, Unshift31;
    UnshiftsUndoSpelledOut(z);
  }

  lemma UnMixAUndoesProduct(z: bv64)
    ensures UnMixA(Shift30(z) * 0xBF58476D1CE4E5B9) == z
  {
    UnshiftsUndo(z);
    hide Shift30, Unshift30;
  }

  lemma UnMixBUndoesProduct(z: bv64)
    ensures UnMixB(Shift27(z) * 0x94D049BB133111EB) == z
  {
    UnshiftsUndo(z);
    hide Shift27, Unshift27;
  }

  lemma UnMixesUndo(z: bv64)
    ensures UnMixA(MixA(z)) == z && UnMixB(MixB(z)) == z
  {
    hide UnMixA, UnMixB, Shift30, Shift27;
    UnMixAUndoesProduct(z);
    UnMixBUndoesProduct(z);
  }

  /** The seed can be read back from the mixed word, so no two seeds give the same state. */
  lemma SplitMixIsInjective(seed: bv64)
    ensures SeedOf(SplitMix(seed)) == seed
  {
    hide UnMixA, UnMixB, MixA, MixB, Shift31, Unshift31;
    var z := seed + 0x9E3779B97F4A7C15;
    UnMixesUndo(z);
    UnMixesUndo(MixA(z));
    UnshiftsUndo(MixB(MixA(z)));
  }

  lemma ZeroSeed()
    ensures SplitMix(0x61C8864680B583EB) == 0
  {
    assert Shift30(0) == 0 && Shift27(0) == 0 && Shift31(0) == 0;
    assert MixA(0) == 0 && MixB(0) == 0;
    hide MixA, MixB, Shift31;
    assert (0x61C8864680B583EB as bv64) + 0x9E3779B97F4A7C15 == 0;
  }

  /** Exactly one seed gives the all-zero state, and that is the only seed whose generator ever reaches
      it; from it, stepping and jumping go nowhere. */
  lemma OnlyOneSeedIsDead(seed: bv64, n: nat)
    ensures SeedState(seed) == ZERO <==> seed == 0x61C8864680B583EB
    ensures NextN(SeedState(seed), n) == ZERO <==> seed == 0x61C8864680B583EB
    ensures NextN(ZERO, n) == ZERO && Jump(ZERO) == ZERO
  {
    ZeroSeed();
    SplitMixIsInjective(seed);
    SplitMixIsInjective(0x61C8864680B583EB);
    hide SplitMix, SeedOf, NextN, JumpSum;
    ZeroOnlyFromZero(SeedState(seed), n);
    ZeroOnlyFromZero(ZERO, n);
    JumpSumOfZero(128);
  }
}

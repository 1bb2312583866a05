/** The xoroshiro128+ generator: states advanced in place, jumps ahead, and seeding by SplitMix64. */
module Xoroshiro {
  datatype State = State(s0: bv64, s1: bv64)

  const ZERO := State(0, 0)

  /** Bitwise exclusive or, by name so that proofs can calculate with it. */
  function X(a: bv64, b: bv64): bv64 { a ^ b }

  function Xor(a: State, b: State): State {
    State(X(a.s0, b.s0), X(a.s1, b.s1))
  }

  // ----- one step -----

  function Rotl(x: bv64, k: bv32): bv64
    requires 0 < k < 64
  {
    (x << k) | (x >> (64 - k))
  }

  /** The rotations and the shift of a step, with their amounts filled in. */
  function Rotl55(x: bv64): bv64 { (x << 55) | (x >> 9) }
  function Rotl36(x: bv64): bv64 { (x << 36) | (x >> 28) }
  function Shl14(x: bv64): bv64 { x << 14 }

  lemma RotationsAreRotl(x: bv64)
    ensures Rotl(x, 55) == Rotl55(x) && Rotl(x, 36) == Rotl36(x)
  {
  }

  function Next(s: State): State {
    var t := X(s.s1, s.s0);
    State(X(X(Rotl55(s.s0), t), Shl14(t)), Rotl36(t))
  }

  function Output(s: State): bv64 {
    s.s0 + s.s1
  }

  function NextN(s: State, n: nat): State {
    if n == 0 then s else Next(NextN(s, n - 1))
  }

  // ----- the jump -----

  const JUMP: seq<bv64> := [0xBEAC0467EBA5FACB, 0xD86B048B86AA9922]

  predicate JumpBit(i: nat, b: nat)
    requires i < 2 && b < 64
  {
    JUMP[i] & ((1 as bv64) << b) != 0
  }

  /** The XOR of the states `b` steps ahead, over the set bits `b < n` of the 128-bit jump constant. */
  function JumpSum(s: State, n: nat): State
    requires n <= 128
  {
    if n == 0 then ZERO
    else if JumpBit((n - 1) / 64, (n - 1) % 64) then Xor(JumpSum(s, n - 1), NextN(s, n - 1))
    else JumpSum(s, n - 1)
  }

  function Jump(s: State): State {
    JumpSum(s, 128)
  }

  function JumpN(s: State, n: nat): State {
    if n == 0 then s else Jump(JumpN(s, n - 1))
  }

  // ----- seeding -----

  function Shift30(z: bv64): bv64 { z ^ (z >> 30) }
  function Shift27(z: bv64): bv64 { z ^ (z >> 27) }
  function Shift31(z: bv64): bv64 { z ^ (z >> 31) }

  function MixA(z: bv64): bv64 { Shift30(z) * 0xBF58476D1CE4E5B9 }
  function MixB(z: bv64): bv64 { Shift27(z) * 0x94D049BB133111EB }

  function SplitMix(seed: bv64): bv64 {
    Shift31(MixB(MixA(seed + 0x9E3779B97F4A7C15)))
  }

  function SeedState(seed: bv64): State {
    State(SplitMix(seed), SplitMix(seed))
  }

  // ----- the array methods -----

  /** Indices are signed; a negative one counts from the end of the array. */
  function Place(length: int, index: int): (i: nat)
    requires -length <= index < length
    ensures i < length
  {
    if index < 0 then index + length else index
  }

  method InitState(states: array<State>, index: int, seed: bv64)
    requires -states.Length <= index < states.Length
    modifies states
    ensures states[..] == old(states[..])[Place(states.Length, index) := SeedState(seed)]
  {
    hide MixA, MixB, Shift31;
    var i := Place(states.Length, index);
    var z := seed + 0x9E3779B97F4A7C15;
    z := MixA(z);
    z := MixB(z);
    z := Shift31(z);
    states[i] := states[i].(s0 := z);
    states[i] := states[i].(s1 := z);
  }

  method NextInPlace(states: array<State>, index: int) returns (result: bv64)
    requires -states.Length <= index < states.Length
    modifies states
    ensures var i := Place(states.Length, index);
      states[..] == old(states[..])[i := Next(old(states[i]))] && result == Output(old(states[i]))
  {
    hide X, Rotl55, Rotl36, Shl14, Output;
    var i := Place(states.Length, index);
    var s0 := states[i].s0;
    var s1 := states[i].s1;
    result := Output(State(s0, s1));
    s1 := X(s1, s0);
    states[i] := states[i].(s0 := X(X(Rotl55(s0), s1), Shl14(s1)));
    states[i] := states[i].(s1 := Rotl36(s1));
  }

  lemma JumpSumStep(s: State, i: nat, b: nat)
    requires i < 2 && b < 64
    ensures NextN(s, 64 * i + b + 1) == Next(NextN(s, 64 * i + b))
    ensures JumpSum(s, 64 * i + b + 1) ==
      if JumpBit(i, b) then Xor(JumpSum(s, 64 * i + b), NextN(s, 64 * i + b)) else JumpSum(s, 64 * i + b)
  {
    hide JumpBit, Next, Xor;
    assert (64 * i + b) / 64 == i && (64 * i + b) % 64 == b;
  }

  /** Accumulate over the bits of the two words of the jump constant while stepping the state in place. */
  method JumpInPlace(states: array<State>, index: int)
    requires -states.Length <= index < states.Length
    modifies states
    ensures var i := Place(states.Length, index);
      states[..] == old(states[..])[i := Jump(old(states[i]))]
  {
    hide X, Next, JumpBit;
    var at := Place(states.Length, index);
    var s0: bv64, s1: bv64 := 0, 0;
    ghost var start := states[at];
    for i := 0 to 2
      invariant State(s0, s1) == JumpSum(start, 64 * i)
      invariant states[..] == old(states[..])[at := NextN(start, 64 * i)]
    {
      for b := 0 to 64
        invariant State(s0, s1) == JumpSum(start, 64 * i + b)
        invariant states[..] == old(states[..])[at := NextN(start, 64 * i + b)]
      {
        assert states[at] == states[..][at];
        if JumpBit(i, b) {
          s0 := X(s0, states[at].s0);
          s1 := X(s1, states[at].s1);
        }
        JumpSumStep(start, i, b);
        var _ := NextInPlace(states, index);
      }
    }
    states[at] := states[at].(s0 := s0);
    states[at] := states[at].(s1 := s1);
  }

  /** The state of generator `i` when the first one is `start` subsequences into the stream of `seed`. */
  function StreamState(seed: bv64, start: nat, i: nat): State {
    JumpN(SeedState(seed), start + i)
  }

  method InitStatesCpu(states: array<State>, seed: bv64, start: nat)
    modifies states
    ensures forall i :: 0 <= i < states.Length ==> states[i] == StreamState(seed, start, i)
  {
    hide Jump, SplitMix, SeedState;
    var n := states.Length;
    if n >= 1 {
      InitState(states, 0, seed);
      for k := 0 to start
        invariant states[0] == JumpN(SeedState(seed), k)
      {
        JumpInPlace(states, 0);
        assert states[..][0] == states[0];
      }
      for i := 1 to n
        invariant forall j :: 0 <= j < i ==> states[j] == StreamState(seed, start, j)
      {
        states[i] := states[i - 1];
        ghost var before := states[..];
        JumpInPlace(states, i);
        assert forall j :: 0 <= j < i ==> states[j] == states[..][j] == before[j];
        assert states[i] == states[..][i];
      }
    }
  }
}

/**
 * A set of board squares held in one 64-bit word (`Bitset(u64)` in
 * src/bitset.rs). The word is modelled bit by bit: bit `s` is set exactly
 * when square `s` is a member.
 *
 * Rust updates the word through `&mut self`; every Bitset lives by value in a
 * slot of a Board array or in a local variable, so the model returns the new
 * word and the caller stores it back into that slot.
 */
module Bitsets {

  /** `1 << square` overflows a u64 unless the square is below 64. */
  predicate InRange(square: int) { 0 <= square < 64 }

  /** The 64 bits of a u64, least significant first. */
  type Word = b: seq<bool> | |b| == 64 witness seq(64, _ => false)

  datatype Bitset = Bitset(bits: Word) {

    /** `is_bit_set`: `self.0 & (1 << square) != 0`. */
    predicate IsBitSet(square: int)
      requires InRange(square)
    {
      bits[square]
    }

    /** `set_bit`: `self.0 |= 1 << square`. */
    function SetBit(square: int): (r: Bitset)
      requires InRange(square)
      ensures r.IsBitSet(square)
      ensures forall t :: InRange(t) && t != square ==> r.IsBitSet(t) == IsBitSet(t)
    {
      Bitset(bits[square := true])
    }

    /** `clear_bit`: `self.0 &= !(1 << square)`. */
    function ClearBit(square: int): (r: Bitset)
      requires InRange(square)
      ensures !r.IsBitSet(square)
      ensures forall t :: InRange(t) && t != square ==> r.IsBitSet(t) == IsBitSet(t)
    {
      Bitset(bits[square := false])
    }

    /** The bitwise OR `|` of two words, as `queen_moves` uses it. */
    function Union(other: Bitset): (r: Bitset)
      ensures forall t :: InRange(t) ==> r.IsBitSet(t) == (IsBitSet(t) || other.IsBitSet(t))
    {
      Bitset(seq(64, i requires 0 <= i < 64 => bits[i] || other.bits[i]))
    }

    /** The squares whose bits are set. */
    function Squares(): (s: set<int>)
      ensures forall t :: t in s <==> InRange(t) && IsBitSet(t)
    {
      set t | 0 <= t < 64 && IsBitSet(t)
    }
  }

  /** Bit `i` of a u64 value. */
  predicate WordBit(value: bv64, i: int)
    requires InRange(i)
  {
    (value >> i) & 1 == 1
  }

  /** `Bitset::new`: the set whose bits are those of `value`. */
  function New(value: bv64): (b: Bitset)
    ensures forall t :: InRange(t) ==> b.IsBitSet(t) == WordBit(value, t)
  {
    Bitset(seq(64, i requires 0 <= i < 64 => WordBit(value, i)))
  }

  /** The empty set, `Bitset::new(0)`. */
  function Empty(): (b: Bitset)
    ensures b.Squares() == {}
  {
    var b := New(0);
    assert forall t :: InRange(t) ==> !WordBit(0, t);
    b
  }

  /** Two sets are equal exactly when they agree on all 64 squares. */
  lemma Extensionality(a: Bitset, b: Bitset)
    requires forall t :: InRange(t) ==> a.IsBitSet(t) == b.IsBitSet(t)
    ensures a == b
  {
    assert forall i :: 0 <= i < 64 ==> a.bits[i] == a.IsBitSet(i) == b.IsBitSet(i) == b.bits[i];
  }

  /** `set_bit` adds exactly its square to the set. */
  lemma SetBitSquares(b: Bitset, s: int)
    requires InRange(s)
    ensures b.SetBit(s).Squares() == b.Squares() + {s}
  {
  }

  /** `set_bit` and `clear_bit` are each idempotent. */
  lemma SetClearIdempotent(b: Bitset, s: int)
    requires InRange(s)
    ensures b.SetBit(s).SetBit(s) == b.SetBit(s)
    ensures b.ClearBit(s).ClearBit(s) == b.ClearBit(s)
  {
  }
}

/** The sky generator's pseudo-random source (src/util.rs `next_random`): a 32-bit linear
    congruential generator stepped twice per draw, the draw packing the top halves of the
    two new states. */
module Prng {
  import opened Arith

  type u32 = x: int | 0 <= x < 0x1_0000_0000

  const LCG_MULTIPLIER: int := 134775813

  /** One step of the recurrence s |-> (s * 134775813 + 1) mod 2^32, computed as the source
      does in 64-bit arithmetic and masked to the low 32 bits. */
  function LcgStep(s: u32): u32 {
    (s * LCG_MULTIPLIER + 1) % U32_MODULUS
  }

  /** Advances `state` twice and returns (new state, draw). The draw's low 16 bits are the
      top 16 bits of the first new state, its high 16 bits those of the second. */
  function NextRandom(state: u32): (r: (u32, u32))
    ensures r.0 == LcgStep(LcgStep(state))
    ensures r.1 % 0x1_0000 == LcgStep(state) / 0x1_0000
    ensures r.1 / 0x1_0000 == LcgStep(LcgStep(state)) / 0x1_0000
  {
    var s1 := LcgStep(state);
    var low := s1 / 0x1_0000;                // *state >> 16
    var s2 := LcgStep(s1);
    var high := s2 - s2 % 0x1_0000;          // *state & 0xffff_0000
    PackHalves(low, s2);
    (s2, low + high)                         // the two halves share no bit, so | is +
  }

  /** Adding the top half of `s` (kept in place) to a 16-bit value packs the two. */
  lemma PackHalves(low: nat, s: nat)
    requires low < 0x1_0000
    ensures (low + (s - s % 0x1_0000)) % 0x1_0000 == low
    ensures (low + (s - s % 0x1_0000)) / 0x1_0000 == s / 0x1_0000
  {
    var q := s / 0x1_0000;
    assert s - s % 0x1_0000 == q * 0x1_0000;
    assert low + q * 0x1_0000 == q * 0x1_0000 + low;
  }

  /** The per-axis jitter `(next_random & 0x7) as i16 - 3` added after a correction. */
  function Jitter(draw: u32): (j: int)
    ensures -3 <= j <= 4
  {
    ((draw as bv32) & 0x7) as int - 3
  }
}

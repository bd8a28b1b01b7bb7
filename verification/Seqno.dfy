/** Wrapping 16-bit sequence numbers (src/duplicate_set.c, src/olsr_protocol.h). */
module Seqno {

  const U16: int := 0x1_0000
  const HALF: int := 0x8000

  // olsr_seqno_diff
  function Diff(reference: nat, other: nat): (r: int)
    ensures reference < U16 && other < U16 ==> -HALF <= r < HALF && (reference - other - r) % U16 == 0
  {
    var diff := reference - other;
    if diff >= HALF then diff - U16 else if diff < -HALF then diff + U16 else diff
  }

  // SEQNO_GREATER_THAN
  predicate Greater(s1: nat, s2: nat)
  {
    || (s1 > s2 && s1 - s2 <= 0xffff / 2)
    || (s2 > s1 && s2 - s1 > 0xffff / 2)
  }

  // The macro and the signed difference agree except for numbers half the range apart.
  lemma GreaterIsDiff(s1: nat, s2: nat)
    requires s1 < U16 && s2 < U16
    ensures Greater(s1, s2) <==> Diff(s1, s2) > 0 || s2 - s1 == HALF
  {
  }

  // The difference is the only small number congruent to the plain one.
  lemma DiffUnique(reference: nat, other: nat, d: int)
    requires reference < U16 && other < U16 && -HALF <= d < HALF && (reference - other - d) % U16 == 0
    ensures d == Diff(reference, other)
  {
  }
}

/** Runs of consecutive numbers: offsets, entries and jobs are numbered from zero. */
module Sequences {

  /** from, from + 1, ..., to - 1. */
  function Range(from: nat, to: nat): seq<nat>
    requires from <= to
  {
    if from == to then [] else Range(from, to - 1) + [to - 1]
  }

  /** 0, 1, ..., n - 1. */
  function FirstNumbers(n: nat): seq<nat> {
    Range(0, n)
  }

  lemma {:induction false} RangeIs(from: nat, to: nat)
    requires from <= to
    ensures |Range(from, to)| == to - from
    ensures forall i | 0 <= i < to - from :: Range(from, to)[i] == from + i
  {
    if from < to {
      RangeIs(from, to - 1);
    }
  }
}

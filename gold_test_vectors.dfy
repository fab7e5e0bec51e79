/**
 * The reference ("gold") test vectors, grouped by operation family, and the
 * facts about them that follow from their values alone.
 */
module GoldTestVectors {
  import opened Wrappers
  import opened Arith
  import opened Ialu
  import opened Vectors

  /** Groups of reference test vectors. */
  datatype Group = AddGroup | SubGroup | MulGroup | DivGroup

  /** Groups with their vectors, in the order they are run. */
  type Corpus = seq<(Group, seq<TestVector>)>

  const ADD_VECTORS: seq<TestVector> := [
    TestVector(op1 := Some(ALL_ONES), op2 := Some(ALL_ONES), cmd := Some(ADD), res := Some(MODULUS - 2)),
    TestVector(op1 := Some(0x5555_5555), op2 := Some(0xAAAA_AAAA), cmd := Some(ADD), res := Some(ALL_ONES)),
    TestVector(op1 := Some(0), op2 := Some(0), cmd := Some(ADD), res := Some(0)),
    TestVector(op1 := Some(0xAAAA_AAAA), op2 := Some(0x5555_5555), cmd := Some(ADD), res := Some(ALL_ONES))
  ]

  const SUB_VECTORS: seq<TestVector> := [
    TestVector(op1 := Some(0x5555_5555), op2 := Some(0xAAAA_AAAA), cmd := Some(SUB), res := Some(0xAAAA_AAAB)),
    TestVector(op1 := Some(ALL_ONES), op2 := Some(ALL_ONES), cmd := Some(SUB), res := Some(0)),
    TestVector(op1 := Some(0xAAAA_AAAA), op2 := Some(0x5555_5555), cmd := Some(SUB), res := Some(0x5555_5555)),
    TestVector(op1 := Some(0), op2 := Some(0), cmd := Some(SUB), res := Some(0))
  ]

  const MUL_VECTORS: seq<TestVector> := [
    TestVector(op1 := Some(ALL_ONES), op2 := Some(ALL_ONES), cmd := Some(MUL), rvmCmdVd := Some(1),
               res := Some(1), rvmResRdy := Some(1), delay := RVM_DELAY),
    TestVector(op1 := Some(0), op2 := Some(0), cmd := Some(MUL), rvmCmdVd := Some(1),
               res := Some(0), rvmResRdy := Some(1), delay := RVM_DELAY),
    TestVector(op1 := Some(0x5555_5555), op2 := Some(0xAAAA_AAAA), cmd := Some(MUL), rvmCmdVd := Some(1),
               res := Some(0x71C7_1C72), rvmResRdy := Some(1), delay := RVM_DELAY),
    TestVector(op1 := Some(ALL_ONES), op2 := Some(0), cmd := Some(MUL), rvmCmdVd := Some(1),
               res := Some(0), rvmResRdy := Some(1), delay := RVM_DELAY),
    TestVector(op1 := Some(0xAAAA_AAAA), op2 := Some(0x5555_5555), cmd := Some(MUL), rvmCmdVd := Some(1),
               res := Some(0x71C7_1C72), rvmResRdy := Some(1), delay := RVM_DELAY),
    TestVector(op1 := Some(0), op2 := Some(ALL_ONES), cmd := Some(MUL), rvmCmdVd := Some(1),
               res := Some(0), rvmResRdy := Some(1), delay := RVM_DELAY)
  ]

  const DIV_VECTORS: seq<TestVector> := [
    TestVector(op1 := Some(ALL_ONES), op2 := Some(ALL_ONES), cmd := Some(DIV), rvmCmdVd := Some(1),
               res := Some(1), rvmResRdy := Some(1), delay := RVM_DELAY),
    TestVector(op1 := Some(0), op2 := Some(0), cmd := Some(DIV), rvmCmdVd := Some(1),
               res := Some(ALL_ONES), rvmResRdy := Some(1)),
    TestVector(op1 := Some(0x5555_5555), op2 := Some(0xAAAA_AAAA), cmd := Some(DIV), rvmCmdVd := Some(1),
               res := Some(0), rvmResRdy := Some(1), delay := RVM_DELAY),
    TestVector(op1 := Some(ALL_ONES), op2 := Some(0), cmd := Some(DIV), rvmCmdVd := Some(1),
               res := Some(ALL_ONES), rvmResRdy := Some(1)),
    TestVector(op1 := Some(0xAAAA_AAAA), op2 := Some(0x5555_5555), cmd := Some(DIV), rvmCmdVd := Some(1),
               res := Some(2), rvmResRdy := Some(1), delay := RVM_DELAY),
    TestVector(op1 := Some(0), op2 := Some(ALL_ONES), cmd := Some(DIV), rvmCmdVd := Some(1),
               res := Some(0), rvmResRdy := Some(1), delay := RVM_DELAY),
    TestVector(op1 := Some(ALL_ONES), op2 := Some(1), cmd := Some(DIV), rvmCmdVd := Some(1),
               res := Some(ALL_ONES), rvmResRdy := Some(1), delay := RVM_DELAY),
    TestVector(op1 := Some(INT32_MIN_BITS), op2 := Some(ALL_ONES), cmd := Some(DIV), rvmCmdVd := Some(1),
               res := Some(0), rvmResRdy := Some(1), delay := RVM_DELAY),
    TestVector(op1 := Some(0x7FFF_FFFF), op2 := Some(1), cmd := Some(DIV), rvmCmdVd := Some(1),
               res := Some(0x7FFF_FFFF), rvmResRdy := Some(1), delay := RVM_DELAY)
  ]

  /** A set of reference test vectors for the IALU model, in run order. */
  const GOLD_TEST_VECTORS: Corpus :=
    [(AddGroup, ADD_VECTORS), (SubGroup, SUB_VECTORS), (MulGroup, MUL_VECTORS), (DivGroup, DIV_VECTORS)]

  /** The groups run in the order ADD, SUB, MUL, DIV, one entry each. */
  lemma GoldOrder()
    ensures |GOLD_TEST_VECTORS| == 4
    ensures GOLD_TEST_VECTORS[0] == (AddGroup, ADD_VECTORS) && GOLD_TEST_VECTORS[1] == (SubGroup, SUB_VECTORS)
    ensures GOLD_TEST_VECTORS[2] == (MulGroup, MUL_VECTORS) && GOLD_TEST_VECTORS[3] == (DivGroup, DIV_VECTORS)
  {
  }

  /** Every ADD vector is an ADD and expects the sum modulo 2^32. */
  lemma GoldAddSums()
    ensures forall v | v in ADD_VECTORS ::
      v.cmd == Some(ADD) && v.op1.Some? && v.op2.Some? && v.res == Some(Wrap(v.op1.value + v.op2.value))
  {
  }

  /** Every SUB vector is a SUB and expects the difference modulo 2^32. */
  lemma GoldSubDifferences()
    ensures forall v | v in SUB_VECTORS ::
      v.cmd == Some(SUB) && v.op1.Some? && v.op2.Some? && v.res == Some(Wrap(v.op1.value - v.op2.value))
  {
  }

  /** Every MUL vector expects the product modulo 2^32 (0x55555555 * 0xAAAAAAAA gives 0x71C71C72). */
  lemma GoldMulProducts()
    ensures forall v | v in MUL_VECTORS ::
      v.cmd == Some(MUL) && v.op1.Some? && v.op2.Some? && v.res == Some(Wrap(v.op1.value * v.op2.value))
  {
  }

  /**
   * The gold delays: a MUL or DIV waits RVM_DELAY ticks, as the command
   * table's comments give for the multi-cycle unit, except a DIV by zero,
   * which waits one tick as the tick's division-by-zero path completes.
   */
  lemma GoldDelays()
    ensures forall v | v in MUL_VECTORS :: v.delay == RVM_DELAY
    ensures forall v | v in DIV_VECTORS :: v.delay == if v.op2 == Some(0) then 1 else RVM_DELAY
  {
  }

  /** Every MUL and DIV vector raises rvmCmdVd and expects ready set. */
  lemma GoldMulDivHandshake()
    ensures forall v | v in MUL_VECTORS + DIV_VECTORS :: v.rvmCmdVd == Some(1) && v.rvmResRdy == Some(1)
  {
  }

  /**
   * Every DIV vector is a DIV. Those with a zero divisor expect all ones after the default
   * single tick; the others wait RVM_DELAY ticks.
   */
  lemma GoldDivByZero()
    ensures forall v | v in DIV_VECTORS :: v.cmd == Some(DIV) && v.op1.Some? && v.op2.Some?
    ensures forall v | v in DIV_VECTORS ::
      if v.op2 == Some(0) then v.res == Some(ALL_ONES) && v.delay == 1 else v.delay == RVM_DELAY
  {
  }

  /**
   * Every DIV vector with a nonzero divisor expects the UNSIGNED quotient.
   * The signed quotient the model computes differs from it exactly for the
   * vectors at index 4 (0xAAAAAAAA / 0x55555555) and 7 (0x80000000 / 0xFFFFFFFF,
   * the signed overflow whose result the code leaves undetermined).
   */
  lemma GoldDivUnsigned(overflow: U32)
    ensures forall i | 0 <= i < |DIV_VECTORS| && DIV_VECTORS[i].op2 != Some(0) ::
      DIV_VECTORS[i].res == Some(DIV_VECTORS[i].op1.value / DIV_VECTORS[i].op2.value)
    ensures forall i | 0 <= i < |DIV_VECTORS| && DIV_VECTORS[i].op2 != Some(0) ::
      (Int32Div(DIV_VECTORS[i].op1.value, DIV_VECTORS[i].op2.value, overflow) != DIV_VECTORS[i].res.value)
      <==> (i == 4 || (i == 7 && overflow != 0))
  {
  }
}

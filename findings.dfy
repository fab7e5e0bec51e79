/**
 * The gold MUL and DIV vectors corrected so that the model passes them:
 * each waits exactly the operation's latency (one tick when an operand is
 * zero, RVM_DELAY - 1 for equal operands, RVM_DELAY otherwise), the signed
 * quotient 0xAAAAAAAA / 0x55555555 is -1, and 0x80000000 / 0xFFFFFFFF
 * gives 0x80000000 (the overflow result of the RISC-V M extension's DIV).
 */
module Findings {
  import opened Wrappers
  import opened Arith
  import opened Ialu
  import opened IaluProps
  import opened Vectors
  import opened GoldTestVectors
  import opened Comparator
  import opened ComparatorProps
  import opened GoldOutcomes

  /** The quotient the RISC-V M extension gives for 0x80000000 / 0xFFFFFFFF. */
  const RISCV_DIV_OVERFLOW: U32 := INT32_MIN_BITS

  const CORRECTED_MUL_VECTORS: seq<TestVector> := [
    TestVector(op1 := Some(ALL_ONES), op2 := Some(ALL_ONES), cmd := Some(MUL), rvmCmdVd := Some(1),
               res := Some(1), rvmResRdy := Some(1), delay := RVM_DELAY - 1),
    TestVector(op1 := Some(0), op2 := Some(0), cmd := Some(MUL), rvmCmdVd := Some(1),
               res := Some(0), rvmResRdy := Some(1), delay := 1),
    TestVector(op1 := Some(0x5555_5555), op2 := Some(0xAAAA_AAAA), cmd := Some(MUL), rvmCmdVd := Some(1),
               res := Some(0x71C7_1C72), rvmResRdy := Some(1), delay := RVM_DELAY),
    TestVector(op1 := Some(ALL_ONES), op2 := Some(0), cmd := Some(MUL), rvmCmdVd := Some(1),
               res := Some(0), rvmResRdy := Some(1), delay := 1),
    TestVector(op1 := Some(0xAAAA_AAAA), op2 := Some(0x5555_5555), cmd := Some(MUL), rvmCmdVd := Some(1),
               res := Some(0x71C7_1C72), rvmResRdy := Some(1), delay := RVM_DELAY),
    TestVector(op1 := Some(0), op2 := Some(ALL_ONES), cmd := Some(MUL), rvmCmdVd := Some(1),
               res := Some(0), rvmResRdy := Some(1), delay := 1)
  ]

  const CORRECTED_DIV_VECTORS: seq<TestVector> := [
    TestVector(op1 := Some(ALL_ONES), op2 := Some(ALL_ONES), cmd := Some(DIV), rvmCmdVd := Some(1),
               res := Some(1), rvmResRdy := Some(1), delay := RVM_DELAY - 1),
    TestVector(op1 := Some(0), op2 := Some(0), cmd := Some(DIV), rvmCmdVd := Some(1),
               res := Some(ALL_ONES), rvmResRdy := Some(1)),
    TestVector(op1 := Some(0x5555_5555), op2 := Some(0xAAAA_AAAA), cmd := Some(DIV), rvmCmdVd := Some(1),
               res := Some(0), rvmResRdy := Some(1), delay := RVM_DELAY),
    TestVector(op1 := Some(ALL_ONES), op2 := Some(0), cmd := Some(DIV), rvmCmdVd := Some(1),
               res := Some(ALL_ONES), rvmResRdy := Some(1)),
    TestVector(op1 := Some(0xAAAA_AAAA), op2 := Some(0x5555_5555), cmd := Some(DIV), rvmCmdVd := Some(1),
               res := Some(ALL_ONES), rvmResRdy := Some(1), delay := RVM_DELAY),
    TestVector(op1 := Some(0), op2 := Some(ALL_ONES), cmd := Some(DIV), rvmCmdVd := Some(1),
               res := Some(0), rvmResRdy := Some(1), delay := 1),
    TestVector(op1 := Some(ALL_ONES), op2 := Some(1), cmd := Some(DIV), rvmCmdVd := Some(1),
               res := Some(ALL_ONES), rvmResRdy := Some(1), delay := RVM_DELAY),
    TestVector(op1 := Some(INT32_MIN_BITS), op2 := Some(ALL_ONES), cmd := Some(DIV), rvmCmdVd := Some(1),
               res := Some(RISCV_DIV_OVERFLOW), rvmResRdy := Some(1), delay := RVM_DELAY),
    TestVector(op1 := Some(0x7FFF_FFFF), op2 := Some(1), cmd := Some(DIV), rvmCmdVd := Some(1),
               res := Some(0x7FFF_FFFF), rvmResRdy := Some(1), delay := RVM_DELAY)
  ]

  const CORRECTED_TEST_VECTORS: Corpus :=
    [(AddGroup, ADD_VECTORS), (SubGroup, SUB_VECTORS), (MulGroup, CORRECTED_MUL_VECTORS), (DivGroup, CORRECTED_DIV_VECTORS)]

  /** A gold vector waiting the latency of its own operands. */
  function Retimed(v: TestVector): (r: TestVector)
    requires v.op1.Some? && v.op2.Some?
    ensures r.delay == Latency(v.op1.value, v.op2.value)
    ensures r.(delay := v.delay) == v
  {
    v.(delay := Latency(v.op1.value, v.op2.value))
  }

  /** The corrected MUL vectors differ from the gold ones in their delay only. */
  lemma CorrectedMulRetimed()
    ensures |CORRECTED_MUL_VECTORS| == |MUL_VECTORS|
    ensures forall i | 0 <= i < |MUL_VECTORS| ::
      MUL_VECTORS[i].op1.Some? && MUL_VECTORS[i].op2.Some? && CORRECTED_MUL_VECTORS[i] == Retimed(MUL_VECTORS[i])
  {
  }

  /**
   * The corrected DIV vectors differ from the gold ones in their delay,
   * and in the expected quotient of vectors 4 and 7 only.
   */
  lemma CorrectedDivRetimed()
    ensures |CORRECTED_DIV_VECTORS| == |DIV_VECTORS|
    ensures forall i | 0 <= i < |DIV_VECTORS| ::
      DIV_VECTORS[i].op1.Some? && DIV_VECTORS[i].op2.Some? &&
      CORRECTED_DIV_VECTORS[i].(res := DIV_VECTORS[i].res) == Retimed(DIV_VECTORS[i])
    ensures forall i | 0 <= i < |DIV_VECTORS| && i != 4 && i != 7 :: CORRECTED_DIV_VECTORS[i].res == DIV_VECTORS[i].res
  {
  }

  /** Every corrected MUL vector agrees with the model, whatever the overflow quotient. */
  lemma CorrectedMulConforms(divOverflow: U32)
    ensures forall i | 0 <= i < |CORRECTED_MUL_VECTORS| ::
      Conforms(TestConfig(divOverflow), MulGroup, CORRECTED_MUL_VECTORS[i])
  {
    var cfg := TestConfig(divOverflow);
    assert Conforms(cfg, MulGroup, CORRECTED_MUL_VECTORS[0]);
    assert Conforms(cfg, MulGroup, CORRECTED_MUL_VECTORS[1]);
    assert Conforms(cfg, MulGroup, CORRECTED_MUL_VECTORS[2]);
    assert Conforms(cfg, MulGroup, CORRECTED_MUL_VECTORS[3]);
    assert Conforms(cfg, MulGroup, CORRECTED_MUL_VECTORS[4]);
    assert Conforms(cfg, MulGroup, CORRECTED_MUL_VECTORS[5]);
  }

  /**
   * Every corrected DIV vector but the overflow one agrees with the model
   * whatever its overflow word; the overflow vector agrees exactly when that
   * word is the RISC-V one.
   */
  lemma CorrectedDivConforms(divOverflow: U32)
    ensures forall i | 0 <= i < |CORRECTED_DIV_VECTORS| && i != 7 ::
      Conforms(TestConfig(divOverflow), DivGroup, CORRECTED_DIV_VECTORS[i])
    ensures Conforms(TestConfig(divOverflow), DivGroup, CORRECTED_DIV_VECTORS[7]) <==> divOverflow == RISCV_DIV_OVERFLOW
  {
    var cfg := TestConfig(divOverflow);
    assert TruncDiv(ToSigned(ALL_ONES), ToSigned(ALL_ONES)) == 1;
    assert Conforms(cfg, DivGroup, CORRECTED_DIV_VECTORS[0]);
    assert Conforms(cfg, DivGroup, CORRECTED_DIV_VECTORS[1]);
    assert TruncDiv(ToSigned(0x5555_5555), ToSigned(0xAAAA_AAAA)) == 0;
    assert Conforms(cfg, DivGroup, CORRECTED_DIV_VECTORS[2]);
    assert Conforms(cfg, DivGroup, CORRECTED_DIV_VECTORS[3]);
    assert TruncDiv(ToSigned(0xAAAA_AAAA), ToSigned(0x5555_5555)) == -1;
    assert Conforms(cfg, DivGroup, CORRECTED_DIV_VECTORS[4]);
    assert TruncDiv(ToSigned(0), ToSigned(ALL_ONES)) == 0;
    assert Conforms(cfg, DivGroup, CORRECTED_DIV_VECTORS[5]);
    assert TruncDiv(ToSigned(ALL_ONES), ToSigned(1)) == -1;
    assert Conforms(cfg, DivGroup, CORRECTED_DIV_VECTORS[6]);
    assert MulDivResult(cfg, DIV, INT32_MIN_BITS, ALL_ONES) == divOverflow;
    assert TruncDiv(ToSigned(0x7FFF_FFFF), ToSigned(1)) == 0x7FFF_FFFF;
    assert Conforms(cfg, DivGroup, CORRECTED_DIV_VECTORS[8]);
  }

  /** The prelude and the ADD, SUB and corrected MUL groups pass, leaving the unit idle. */
  lemma CorrectedPrefix(divOverflow: U32, init: State) returns (s3: State)
    ensures GroupsFrom(TestConfig(divOverflow), Prelude(init), CORRECTED_TEST_VECTORS, 0)
         == GroupsFrom(TestConfig(divOverflow), s3, CORRECTED_TEST_VECTORS, 3)
    ensures s3.rstN != 0 && s3.rvmDelayCounter == 0
  {
    var cfg := TestConfig(divOverflow);
    var corpus := CORRECTED_TEST_VECTORS;
    GoldSingleCyclePrefix(divOverflow, init);
    var s1 := VectorsFrom(cfg, Prelude(init), AddGroup, ADD_VECTORS, 0).state;
    var s2 := VectorsFrom(cfg, s1, SubGroup, SUB_VECTORS, 0).state;
    CorrectedMulConforms(divOverflow);
    ConformingGroup(cfg, s2, MulGroup, CORRECTED_MUL_VECTORS, 0);
    s3 := VectorsFrom(cfg, s2, MulGroup, CORRECTED_MUL_VECTORS, 0).state;
    assert corpus[0] == (AddGroup, ADD_VECTORS) && corpus[1] == (SubGroup, SUB_VECTORS);
    assert corpus[2] == (MulGroup, CORRECTED_MUL_VECTORS);
    assert GroupsFrom(cfg, Prelude(init), corpus, 0) == GroupsFrom(cfg, s1, corpus, 1);
    assert GroupsFrom(cfg, s1, corpus, 1) == GroupsFrom(cfg, s2, corpus, 2);
    assert GroupsFrom(cfg, s2, corpus, 2) == GroupsFrom(cfg, s3, corpus, 3);
  }

  /**
   * The corrected corpus passes the comparator from any initial state of the
   * unit exactly when the model's overflow word is 0x80000000; with any
   * other word it stops at DIV vector 7 with that word as the result.
   */
  lemma CorrectedGoldPasses(divOverflow: U32, init: State)
    ensures TestRun(divOverflow, init, CORRECTED_TEST_VECTORS) == Passed <==> divOverflow == RISCV_DIV_OVERFLOW
    ensures divOverflow != RISCV_DIV_OVERFLOW ==>
      TestRun(divOverflow, init, CORRECTED_TEST_VECTORS) == Failed(DivGroup, 7, WrongRes(divOverflow))
  {
    var cfg := TestConfig(divOverflow);
    var corpus := CORRECTED_TEST_VECTORS;
    var s3 := CorrectedPrefix(divOverflow, init);
    CorrectedDivConforms(divOverflow);
    assert corpus[3] == (DivGroup, CORRECTED_DIV_VECTORS);
    if divOverflow == RISCV_DIV_OVERFLOW {
      ConformingGroup(cfg, s3, DivGroup, CORRECTED_DIV_VECTORS, 0);
      assert GroupsFrom(cfg, s3, corpus, 3).Going?;
    } else {
      var t := ConformingPrefix(cfg, s3, DivGroup, CORRECTED_DIV_VECTORS, 0, 7);
      var v := CORRECTED_DIV_VECTORS[7];
      assert MulDivResult(cfg, DIV, INT32_MIN_BITS, ALL_ONES) == divOverflow;
      MultiCycleVerdict(cfg, t, DivGroup, v);
      assert VectorOutcome(cfg, t, DivGroup, v) == Stop(WrongRes(divOverflow));
      assert VectorsFrom(cfg, t, DivGroup, CORRECTED_DIV_VECTORS, 7) == Halted(DivGroup, 7, WrongRes(divOverflow));
      assert GroupsFrom(cfg, s3, corpus, 3) == Halted(DivGroup, 7, WrongRes(divOverflow));
    }
  }
}

/**
 * The outcome of each gold vector under the model, computed rather than
 * assumed. ADD and SUB vectors all pass. Of the MUL and DIV vectors, those
 * that wait RVM_DELAY ticks for an operation that completes sooner (an
 * operand zero: one tick; equal operands: RVM_DELAY - 1 ticks) see ready
 * set before their last tick, and the DIV vector 0xAAAAAAAA / 0x55555555
 * expects the unsigned quotient where the model divides signed. The run
 * as a whole stops at the first MUL vector.
 */
module GoldOutcomes {
  import opened Wrappers
  import opened Arith
  import opened Ialu
  import opened IaluProps
  import opened Vectors
  import opened GoldTestVectors
  import opened Comparator
  import opened ComparatorProps

  /** Every ADD and SUB vector agrees with the model. */
  lemma GoldSingleCycleConforms(divOverflow: U32)
    ensures forall i | 0 <= i < |ADD_VECTORS| :: Conforms(TestConfig(divOverflow), AddGroup, ADD_VECTORS[i])
    ensures forall i | 0 <= i < |SUB_VECTORS| :: Conforms(TestConfig(divOverflow), SubGroup, SUB_VECTORS[i])
  {
  }

  /** Outcome of each MUL vector applied to an idle unit. */
  lemma GoldMulOutcomes(divOverflow: U32, s: State)
    requires s.rstN != 0 && s.rvmDelayCounter == 0
    ensures VectorOutcome(TestConfig(divOverflow), s, MulGroup, MUL_VECTORS[0])== Stop(ReadyTooEarly(30))
    ensures VectorOutcome(TestConfig(divOverflow), s, MulGroup, MUL_VECTORS[1])== Stop(ReadyTooEarly(0))
    ensures VectorOutcome(TestConfig(divOverflow), s, MulGroup, MUL_VECTORS[2]).Continue?
    ensures VectorOutcome(TestConfig(divOverflow), s, MulGroup, MUL_VECTORS[3])== Stop(ReadyTooEarly(0))
    ensures VectorOutcome(TestConfig(divOverflow), s, MulGroup, MUL_VECTORS[4]).Continue?
    ensures VectorOutcome(TestConfig(divOverflow), s, MulGroup, MUL_VECTORS[5])== Stop(ReadyTooEarly(0))
  {
    MulVector0(divOverflow, s);
    MulVector1(divOverflow, s);
    MulVector2(divOverflow, s);
    MulVector3(divOverflow, s);
    MulVector4(divOverflow, s);
    MulVector5(divOverflow, s);
  }

  /**
   * Outcome of each DIV vector applied to an idle unit. The vector
   * 0xAAAAAAAA / 0x55555555 gets the signed quotient -1 where it expects 2,
   * and 0x80000000 / 0xFFFFFFFF passes exactly when the undetermined
   * overflow quotient happens to be 0.
   */
  lemma GoldDivOutcomes(divOverflow: U32, s: State)
    requires s.rstN != 0 && s.rvmDelayCounter == 0
    ensures VectorOutcome(TestConfig(divOverflow), s, DivGroup, DIV_VECTORS[0])== Stop(ReadyTooEarly(30))
    ensures VectorOutcome(TestConfig(divOverflow), s, DivGroup, DIV_VECTORS[1]).Continue?
    ensures VectorOutcome(TestConfig(divOverflow), s, DivGroup, DIV_VECTORS[2]).Continue?
    ensures VectorOutcome(TestConfig(divOverflow), s, DivGroup, DIV_VECTORS[3]).Continue?
    ensures VectorOutcome(TestConfig(divOverflow), s, DivGroup, DIV_VECTORS[4])== Stop(WrongRes(ALL_ONES))
    ensures VectorOutcome(TestConfig(divOverflow), s, DivGroup, DIV_VECTORS[5])== Stop(ReadyTooEarly(0))
    ensures VectorOutcome(TestConfig(divOverflow), s, DivGroup, DIV_VECTORS[6]).Continue?
    ensures VectorOutcome(TestConfig(divOverflow), s, DivGroup, DIV_VECTORS[7]).Continue? <==> divOverflow == 0
    ensures divOverflow != 0 ==> VectorOutcome(TestConfig(divOverflow), s, DivGroup, DIV_VECTORS[7]) == Stop(WrongRes(divOverflow))
    ensures VectorOutcome(TestConfig(divOverflow), s, DivGroup, DIV_VECTORS[8]).Continue?
  {
    DivVector0(divOverflow, s);
    DivVector1(divOverflow, s);
    DivVector2(divOverflow, s);
    DivVector3(divOverflow, s);
    DivVector4(divOverflow, s);
    DivVector5(divOverflow, s);
    DivVector6(divOverflow, s);
    DivVector7(divOverflow, s);
    DivVector8(divOverflow, s);
  }

  lemma MulVector0(divOverflow: U32, s: State)
    requires s.rstN != 0 && s.rvmDelayCounter == 0
    ensures VectorOutcome(TestConfig(divOverflow), s, MulGroup, MUL_VECTORS[0])== Stop(ReadyTooEarly(30))
  {
    MultiCycleVerdict(TestConfig(divOverflow), s, MulGroup, MUL_VECTORS[0]);
  }

  lemma MulVector1(divOverflow: U32, s: State)
    requires s.rstN != 0 && s.rvmDelayCounter == 0
    ensures VectorOutcome(TestConfig(divOverflow), s, MulGroup, MUL_VECTORS[1])== Stop(ReadyTooEarly(0))
  {
    MultiCycleVerdict(TestConfig(divOverflow), s, MulGroup, MUL_VECTORS[1]);
  }

  lemma MulVector2(divOverflow: U32, s: State)
    requires s.rstN != 0 && s.rvmDelayCounter == 0
    ensures VectorOutcome(TestConfig(divOverflow), s, MulGroup, MUL_VECTORS[2]).Continue?
  {
    MultiCycleVerdict(TestConfig(divOverflow), s, MulGroup, MUL_VECTORS[2]);
  }

  lemma MulVector3(divOverflow: U32, s: State)
    requires s.rstN != 0 && s.rvmDelayCounter == 0
    ensures VectorOutcome(TestConfig(divOverflow), s, MulGroup, MUL_VECTORS[3])== Stop(ReadyTooEarly(0))
  {
    MultiCycleVerdict(TestConfig(divOverflow), s, MulGroup, MUL_VECTORS[3]);
  }

  lemma MulVector4(divOverflow: U32, s: State)
    requires s.rstN != 0 && s.rvmDelayCounter == 0
    ensures VectorOutcome(TestConfig(divOverflow), s, MulGroup, MUL_VECTORS[4]).Continue?
  {
    MultiCycleVerdict(TestConfig(divOverflow), s, MulGroup, MUL_VECTORS[4]);
  }

  lemma MulVector5(divOverflow: U32, s: State)
    requires s.rstN != 0 && s.rvmDelayCounter == 0
    ensures VectorOutcome(TestConfig(divOverflow), s, MulGroup, MUL_VECTORS[5])== Stop(ReadyTooEarly(0))
  {
    MultiCycleVerdict(TestConfig(divOverflow), s, MulGroup, MUL_VECTORS[5]);
  }

  lemma DivVector0(divOverflow: U32, s: State)
    requires s.rstN != 0 && s.rvmDelayCounter == 0
    ensures VectorOutcome(TestConfig(divOverflow), s, DivGroup, DIV_VECTORS[0])== Stop(ReadyTooEarly(30))
  {
    MultiCycleVerdict(TestConfig(divOverflow), s, DivGroup, DIV_VECTORS[0]);
  }

  lemma DivVector1(divOverflow: U32, s: State)
    requires s.rstN != 0 && s.rvmDelayCounter == 0
    ensures VectorOutcome(TestConfig(divOverflow), s, DivGroup, DIV_VECTORS[1]).Continue?
  {
    MultiCycleVerdict(TestConfig(divOverflow), s, DivGroup, DIV_VECTORS[1]);
  }

  lemma DivVector2(divOverflow: U32, s: State)
    requires s.rstN != 0 && s.rvmDelayCounter == 0
    ensures VectorOutcome(TestConfig(divOverflow), s, DivGroup, DIV_VECTORS[2]).Continue?
  {
    assert TruncDiv(ToSigned(0x5555_5555), ToSigned(0xAAAA_AAAA)) == 0;
    assert MulDivResult(TestConfig(divOverflow), DIV, 0x5555_5555, 0xAAAA_AAAA) == 0;
    MultiCycleVerdict(TestConfig(divOverflow), s, DivGroup, DIV_VECTORS[2]);
  }

  lemma DivVector3(divOverflow: U32, s: State)
    requires s.rstN != 0 && s.rvmDelayCounter == 0
    ensures VectorOutcome(TestConfig(divOverflow), s, DivGroup, DIV_VECTORS[3]).Continue?
  {
    MultiCycleVerdict(TestConfig(divOverflow), s, DivGroup, DIV_VECTORS[3]);
  }

  lemma DivVector4(divOverflow: U32, s: State)
    requires s.rstN != 0 && s.rvmDelayCounter == 0
    ensures VectorOutcome(TestConfig(divOverflow), s, DivGroup, DIV_VECTORS[4])== Stop(WrongRes(ALL_ONES))
  {
    assert TruncDiv(ToSigned(0xAAAA_AAAA), ToSigned(0x5555_5555)) == -1;
    assert MulDivResult(TestConfig(divOverflow), DIV, 0xAAAA_AAAA, 0x5555_5555) == ALL_ONES;
    MultiCycleVerdict(TestConfig(divOverflow), s, DivGroup, DIV_VECTORS[4]);
  }

  lemma DivVector5(divOverflow: U32, s: State)
    requires s.rstN != 0 && s.rvmDelayCounter == 0
    ensures VectorOutcome(TestConfig(divOverflow), s, DivGroup, DIV_VECTORS[5])== Stop(ReadyTooEarly(0))
  {
    MultiCycleVerdict(TestConfig(divOverflow), s, DivGroup, DIV_VECTORS[5]);
  }

  lemma DivVector6(divOverflow: U32, s: State)
    requires s.rstN != 0 && s.rvmDelayCounter == 0
    ensures VectorOutcome(TestConfig(divOverflow), s, DivGroup, DIV_VECTORS[6]).Continue?
  {
    assert TruncDiv(ToSigned(ALL_ONES), ToSigned(1)) == -1;
    assert MulDivResult(TestConfig(divOverflow), DIV, ALL_ONES, 1) == ALL_ONES;
    MultiCycleVerdict(TestConfig(divOverflow), s, DivGroup, DIV_VECTORS[6]);
  }

  lemma DivVector7(divOverflow: U32, s: State)
    requires s.rstN != 0 && s.rvmDelayCounter == 0
    ensures VectorOutcome(TestConfig(divOverflow), s, DivGroup, DIV_VECTORS[7]).Continue? <==> divOverflow == 0
    ensures divOverflow != 0 ==> VectorOutcome(TestConfig(divOverflow), s, DivGroup, DIV_VECTORS[7]) == Stop(WrongRes(divOverflow))
  {
    MultiCycleVerdict(TestConfig(divOverflow), s, DivGroup, DIV_VECTORS[7]);
  }

  lemma DivVector8(divOverflow: U32, s: State)
    requires s.rstN != 0 && s.rvmDelayCounter == 0
    ensures VectorOutcome(TestConfig(divOverflow), s, DivGroup, DIV_VECTORS[8]).Continue?
  {
    assert TruncDiv(ToSigned(0x7FFF_FFFF), ToSigned(1)) == 0x7FFF_FFFF;
    assert MulDivResult(TestConfig(divOverflow), DIV, 0x7FFF_FFFF, 1) == 0x7FFF_FFFF;
    MultiCycleVerdict(TestConfig(divOverflow), s, DivGroup, DIV_VECTORS[8]);
  }

  /** The prelude and the ADD and SUB groups pass, leaving the unit idle. */
  lemma GoldSingleCyclePrefix(divOverflow: U32, init: State)
    ensures var p1 := VectorsFrom(TestConfig(divOverflow), Prelude(init), AddGroup, ADD_VECTORS, 0);
      p1.Going? &&
      var p2 := VectorsFrom(TestConfig(divOverflow), p1.state, SubGroup, SUB_VECTORS, 0);
      p2.Going? && p2.state.rstN != 0 && p2.state.rvmDelayCounter == 0
  {
    var cfg := TestConfig(divOverflow);
    GoldSingleCycleConforms(divOverflow);
    ConformingGroup(cfg, Prelude(init), AddGroup, ADD_VECTORS, 0);
    var s1 := VectorsFrom(cfg, Prelude(init), AddGroup, ADD_VECTORS, 0).state;
    ConformingGroup(cfg, s1, SubGroup, SUB_VECTORS, 0);
  }

  /**
   * The comparator run on the gold corpus passes the eight ADD and SUB
   * vectors and then fails at the first MUL vector (0xFFFFFFFF * 0xFFFFFFFF,
   * equal operands): ready is set after its 31st tick (index 30) of 32,
   * whatever the initial state and the overflow quotient.
   */
  lemma GoldRunHalts(divOverflow: U32, init: State)
    ensures TestRun(divOverflow, init, GOLD_TEST_VECTORS) == Failed(MulGroup, 0, ReadyTooEarly(30))
  {
    var cfg := TestConfig(divOverflow);
    GoldOrder();
    GoldSingleCyclePrefix(divOverflow, init);
    var s1 := VectorsFrom(cfg, Prelude(init), AddGroup, ADD_VECTORS, 0).state;
    var s2 := VectorsFrom(cfg, s1, SubGroup, SUB_VECTORS, 0).state;
    MulVector0(divOverflow, s2);
    assert VectorsFrom(cfg, s2, MulGroup, MUL_VECTORS, 0) == Halted(MulGroup, 0, ReadyTooEarly(30));
    assert GroupsFrom(cfg, s2, GOLD_TEST_VECTORS, 2) == Halted(MulGroup, 0, ReadyTooEarly(30));
    assert GroupsFrom(cfg, s1, GOLD_TEST_VECTORS, 1) == GroupsFrom(cfg, s2, GOLD_TEST_VECTORS, 2);
    assert GroupsFrom(cfg, Prelude(init), GOLD_TEST_VECTORS, 0) == GroupsFrom(cfg, s1, GOLD_TEST_VECTORS, 1);
  }
}

/**
 * What the comparator run does: the prelude leaves the unit idle whatever
 * its initial state, a single-cycle vector passes exactly when it expects
 * the wrapped sum or difference, a multi-cycle vector passes exactly when
 * its delay is the operation's latency and it expects the model's result,
 * and a corpus of such vectors passes as a whole.
 */
module ComparatorProps {
  import opened Wrappers
  import opened Arith
  import opened Ialu
  import opened IaluProps
  import opened Vectors
  import opened GoldTestVectors
  import opened Comparator

  /** The prelude resets the unit from any initial state: res 0, ready set, counter 0, rvmCmdVd clear. */
  lemma PreludeIdle(divOverflow: U32, init: State)
    ensures Step(TestConfig(divOverflow), init.(rstN := 0)) == Ok(AfterReset(init.(rstN := 0)))
    ensures var s := Prelude(init);
      s.res == 0 && s.rvmResRdy == 1 && s.rvmDelayCounter == 0 && s.rvmCmdVd == 0 && s.rstN == 1
  {
  }

  /** The value an ADD or SUB stores. */
  function SingleResult(cmd: Cmd, a: U32, b: U32): U32
    requires cmd in {ADD, SUB}
  {
    if cmd == ADD then Wrap(a + b) else Wrap(a - b)
  }

  /** Repeated ADD/SUB ticks on held inputs leave the unit as it is. */
  lemma {:induction false} HeldSingleCycle(cfg: Config, t: State, i: nat, d: nat)
    requires i <= d && t.rstN != 0 && t.rvmCmdVd == 0 && t.cmd in {ADD, SUB}
    requires t.res == SingleResult(t.cmd, t.op1, t.op2)
    ensures TickLoop(cfg, t, i, d, false) == Continue(t)
    decreases d - i
  {
    if i < d {
      HeldSingleCycle(cfg, t, i + 1, d);
    }
  }

  /**
   * An ADD/SUB vector with at least one tick, run with rvmCmdVd clear,
   * passes exactly when it expects the wrapped sum or difference.
   */
  lemma SingleCycleVector(cfg: Config, s: State, g: Group, v: TestVector)
    requires !IsMulDiv(g) && HasInputs(g, v) && v.cmd.value in {ADD, SUB} && v.delay >= 1
    requires s.rstN != 0 && s.rvmCmdVd == 0
    ensures var r := SingleResult(v.cmd.value, v.op1.value, v.op2.value);
      VectorOutcome(cfg, s, g, v)
      == if v.res != Some(r) then Stop(WrongRes(r)) else Continue(ApplyInputs(s, g, v).(res := r))
  {
    var s1 := ApplyInputs(s, g, v);
    var r := SingleResult(v.cmd.value, v.op1.value, v.op2.value);
    assert Step(cfg, s1) == Ok(s1.(res := r));
    HeldSingleCycle(cfg, s1.(res := r), 1, v.delay);
  }

  /**
   * How the watched tick loop of a multi-cycle vector ends: still busy if
   * the delay is short of the latency, complete if it is equal, and a
   * ready-too-early failure at tick Latency - 1 if it is longer.
   */
  function WatchedEnd(cfg: Config, s1: State, d: nat): Outcome
    requires s1.cmd in {MUL, DIV} && d >= 1
  {
    var n := Latency(s1.op1, s1.op2);
    if d < n then Continue(Busy(s1, d))
    else if d == n then Continue(Done(cfg, s1))
    else Stop(ReadyTooEarly(n - 1))
  }

  lemma {:induction false} WatchedBusy(cfg: Config, s1: State, i: nat, d: nat)
    requires Issued(cfg, s1) && 1 <= i < Latency(s1.op1, s1.op2) && i <= d
    ensures TickLoop(cfg, Busy(s1, i), i, d, true) == WatchedEnd(cfg, s1, d)
    decreases d - i
  {
    if i < d {
      BusyTick(cfg, s1, i);
      if i + 1 < Latency(s1.op1, s1.op2) {
        WatchedBusy(cfg, s1, i + 1, d);
      }
    }
  }

  /** The watched tick loop of a freshly issued multi-cycle operation. */
  lemma WatchedTicks(cfg: Config, s1: State, d: nat)
    requires Issued(cfg, s1) && d >= 1
    ensures TickLoop(cfg, s1, 0, d, true) == WatchedEnd(cfg, s1, d)
  {
    IssueTick(cfg, s1);
    if 1 < Latency(s1.op1, s1.op2) {
      WatchedBusy(cfg, s1, 1, d);
    }
  }

  /**
   * A MUL/DIV vector applied to an idle unit (the "M" extension on, MUL not
   * fast): a delay longer than the latency fails with ready set too early;
   * a delay equal to it passes exactly when the vector expects the model's
   * result and ready set; a shorter delay sees the old res and ready low.
   */
  lemma MultiCycleVector(cfg: Config, s: State, g: Group, v: TestVector)
    requires cfg.rvmExt && !cfg.fastMul
    requires IsMulDiv(g) && HasInputs(g, v) && v.cmd.value in {MUL, DIV} && v.rvmCmdVd.value != 0
    requires v.delay >= 1 && s.rstN != 0 && s.rvmDelayCounter == 0
    ensures var n := Latency(v.op1.value, v.op2.value);
      var r := MulDivResult(cfg, v.cmd.value, v.op1.value, v.op2.value);
      var s1 := ApplyInputs(s, g, v);
      VectorOutcome(cfg, s, g, v)
      == if v.delay > n then Stop(ReadyTooEarly(n - 1))
         else if v.delay == n then
           (if v.res != Some(r) then Stop(WrongRes(r))
            else if v.rvmResRdy != Some(1) then Stop(WrongRdy(1))
            else Continue(Done(cfg, s1)))
         else
           (if v.res != Some(s.res) then Stop(WrongRes(s.res))
            else if v.rvmResRdy != Some(0) then Stop(WrongRdy(0))
            else Continue(Busy(s1, v.delay)))
  {
    WatchedTicks(cfg, ApplyInputs(s, g, v), v.delay);
  }

  /**
   * The verdict alone for a MUL/DIV vector whose delay is at least the
   * latency: too long a delay fails at tick Latency - 1; the exact delay
   * passes exactly when res and ready are as the model computes them.
   */
  lemma MultiCycleVerdict(cfg: Config, s: State, g: Group, v: TestVector)
    requires cfg.rvmExt && !cfg.fastMul
    requires IsMulDiv(g) && HasInputs(g, v) && v.cmd.value in {MUL, DIV} && v.rvmCmdVd.value != 0
    requires v.delay >= Latency(v.op1.value, v.op2.value) && s.rstN != 0 && s.rvmDelayCounter == 0
    ensures var n := Latency(v.op1.value, v.op2.value);
      v.delay > n ==> VectorOutcome(cfg, s, g, v) == Stop(ReadyTooEarly(n - 1))
    ensures var r := MulDivResult(cfg, v.cmd.value, v.op1.value, v.op2.value);
      v.delay == Latency(v.op1.value, v.op2.value) ==>
        (VectorOutcome(cfg, s, g, v).Continue? <==> v.res == Some(r) && v.rvmResRdy == Some(1))
        && (v.res != Some(r) ==> VectorOutcome(cfg, s, g, v) == Stop(WrongRes(r)))
  {
    MultiCycleVector(cfg, s, g, v);
  }

  /** A vector the model passes from an idle unit: the expectations of the model's own timing and results. */
  predicate Conforms(cfg: Config, g: Group, v: TestVector)
  {
    HasInputs(g, v) &&
    if IsMulDiv(g) then
      v.cmd.value in {MUL, DIV} && v.rvmCmdVd.value != 0
      && v.delay == Latency(v.op1.value, v.op2.value)
      && v.res == Some(MulDivResult(cfg, v.cmd.value, v.op1.value, v.op2.value))
      && v.rvmResRdy == Some(1)
    else
      v.cmd.value in {ADD, SUB} && v.delay >= 1
      && v.res == Some(SingleResult(v.cmd.value, v.op1.value, v.op2.value))
  }

  /** A conforming vector passes, and leaves the unit idle with reset still released. */
  lemma ConformingVector(cfg: Config, s: State, g: Group, v: TestVector) returns (next: State)
    requires cfg.rvmExt && !cfg.fastMul && Conforms(cfg, g, v)
    requires s.rstN != 0 && s.rvmDelayCounter == 0 && (!IsMulDiv(g) ==> s.rvmCmdVd == 0)
    ensures VectorOutcome(cfg, s, g, v) == Continue(next)
    ensures next.rstN == s.rstN && next.rvmDelayCounter == 0 && (!IsMulDiv(g) ==> next.rvmCmdVd == 0)
  {
    if IsMulDiv(g) {
      MultiCycleVector(cfg, s, g, v);
      next := Done(cfg, ApplyInputs(s, g, v));
    } else {
      SingleCycleVector(cfg, s, g, v);
      next := ApplyInputs(s, g, v).(res := SingleResult(v.cmd.value, v.op1.value, v.op2.value));
    }
  }

  /** A vector that passes hands the unit on to the next one. */
  lemma PassedVector(cfg: Config, s: State, g: Group, vs: seq<TestVector>, j: nat, next: State)
    requires j < |vs| && VectorOutcome(cfg, s, g, vs[j]) == Continue(next)
    ensures VectorsFrom(cfg, s, g, vs, j) == VectorsFrom(cfg, next, g, vs, j + 1)
  {
  }

  /**
   * Conforming vectors j .. k-1 of a group all pass: the run from vector j
   * goes on from vector k, on an idle unit with reset still released.
   */
  lemma {:induction false} ConformingPrefix(cfg: Config, s: State, g: Group, vs: seq<TestVector>, j: nat, k: nat)
    returns (t: State)
    requires cfg.rvmExt && !cfg.fastMul && j <= k <= |vs|
    requires forall i | j <= i < k :: Conforms(cfg, g, vs[i])
    requires s.rstN != 0 && s.rvmDelayCounter == 0 && (!IsMulDiv(g) ==> s.rvmCmdVd == 0)
    ensures VectorsFrom(cfg, s, g, vs, j) == VectorsFrom(cfg, t, g, vs, k)
    ensures t.rstN == s.rstN && t.rvmDelayCounter == 0 && (!IsMulDiv(g) ==> t.rvmCmdVd == 0)
    decreases k - j
  {
    if j == k {
      t := s;
    } else {
      var next := ConformingVector(cfg, s, g, vs[j]);
      PassedVector(cfg, s, g, vs, j, next);
      assert next.rstN != 0 && next.rvmDelayCounter == 0 && (!IsMulDiv(g) ==> next.rvmCmdVd == 0);
      t := ConformingPrefix(cfg, next, g, vs, j + 1, k);
      assert VectorsFrom(cfg, next, g, vs, j + 1) == VectorsFrom(cfg, t, g, vs, k);
    }
  }

  /** A group of conforming vectors passes, and leaves the unit idle with reset released. */
  lemma ConformingGroup(cfg: Config, s: State, g: Group, vs: seq<TestVector>, j: nat)
    requires cfg.rvmExt && !cfg.fastMul && j <= |vs|
    requires forall i | j <= i < |vs| :: Conforms(cfg, g, vs[i])
    requires s.rstN != 0 && s.rvmDelayCounter == 0 && (!IsMulDiv(g) ==> s.rvmCmdVd == 0)
    ensures VectorsFrom(cfg, s, g, vs, j).Going?
    ensures var t := VectorsFrom(cfg, s, g, vs, j).state;
      t.rstN == s.rstN && t.rvmDelayCounter == 0 && (!IsMulDiv(g) ==> t.rvmCmdVd == 0)
  {
    var t := ConformingPrefix(cfg, s, g, vs, j, |vs|);
  }

  /** Every vector conforms, and no ADD/SUB group follows a MUL/DIV group (which leaves rvmCmdVd set). */
  predicate CorpusConforms(cfg: Config, corpus: Corpus, k: nat)
  {
    (forall i, j | k <= i < |corpus| && 0 <= j < |corpus[i].1| :: Conforms(cfg, corpus[i].0, corpus[i].1[j]))
    && (forall i, i' | k <= i < i' < |corpus| && IsMulDiv(corpus[i].0) :: IsMulDiv(corpus[i'].0))
  }

  lemma {:induction false} ConformingGroups(cfg: Config, s: State, corpus: Corpus, k: nat)
    requires cfg.rvmExt && !cfg.fastMul && k <= |corpus| && CorpusConforms(cfg, corpus, k)
    requires s.rstN != 0 && s.rvmDelayCounter == 0
    requires k < |corpus| && !IsMulDiv(corpus[k].0) ==> s.rvmCmdVd == 0
    ensures GroupsFrom(cfg, s, corpus, k).Going?
    decreases |corpus| - k
  {
    if k < |corpus| {
      var g, vs := corpus[k].0, corpus[k].1;
      forall j | 0 <= j < |vs|
        ensures Conforms(cfg, g, vs[j])
      {
        assert Conforms(cfg, corpus[k].0, corpus[k].1[j]);
      }
      ConformingGroup(cfg, s, g, vs, 0);
      var t := VectorsFrom(cfg, s, g, vs, 0).state;
      assert GroupsFrom(cfg, s, corpus, k) == GroupsFrom(cfg, t, corpus, k + 1);
      if k + 1 < |corpus| && IsMulDiv(g) {
        assert IsMulDiv(corpus[k + 1].0);
      }
      ConformingGroups(cfg, t, corpus, k + 1);
    }
  }

  /** A conforming corpus passes the comparator whatever the unit's initial state. */
  lemma ConformingCorpusPasses(divOverflow: U32, init: State, corpus: Corpus)
    requires CorpusConforms(TestConfig(divOverflow), corpus, 0)
    ensures TestRun(divOverflow, init, corpus) == Passed
  {
    ConformingGroups(TestConfig(divOverflow), Prelude(init), corpus, 0);
  }
}

/**
 * Properties of one tick and of a multi-cycle operation run to completion.
 */
module IaluProps {
  import opened Arith
  import opened Ialu

  /** A reset tick clears the outputs and the counter, and touches nothing else. */
  lemma ResetTick(cfg: Config, s: State)
    requires s.rstN == 0
    ensures Step(cfg, s).Ok?
    ensures var t := Step(cfg, s).next;
      t.res == 0 && t.rvmResRdy == 1 && t.rvmDelayCounter == 0
      && t.rvmOp1 == s.rvmOp1 && t.rvmOp2 == s.rvmOp2 && t.rvmCmd == s.rvmCmd
      && t.op1 == s.op1 && t.op2 == s.op2 && t.cmd == s.cmd && t.rvmCmdVd == s.rvmCmdVd
  {
  }

  /**
   * NONE, ADD and SUB fail exactly when rvmCmdVd is set; otherwise they
   * update only res (NONE keeps it), never the ready flag, counter or latch.
   */
  lemma SingleCycleTick(cfg: Config, s: State)
    requires s.rstN != 0 && s.cmd in {NONE, ADD, SUB}
    ensures Step(cfg, s).Fail? <==> s.rvmCmdVd != 0
    ensures Step(cfg, s).Fail? ==> Step(cfg, s).fault == UnexpectedCmdValid
    ensures Step(cfg, s).Ok? ==>
      var t := Step(cfg, s).next;
      t == s.(res := t.res)
      && (s.cmd == NONE ==> t.res == s.res)
      && (s.cmd == ADD ==> t.res == if s.op1 + s.op2 < MODULUS then s.op1 + s.op2 else s.op1 + s.op2 - MODULUS)
      && (s.cmd == SUB ==> t.res == if s.op2 <= s.op1 then s.op1 - s.op2 else s.op1 - s.op2 + MODULUS)
  {
    AddWraps(s.op1, s.op2);
    SubWraps(s.op1, s.op2);
  }

  /**
   * MUL and DIV: an error without the "M" extension; fast MUL completes in
   * the same tick whatever rvmCmdVd is; otherwise with rvmCmdVd clear
   * nothing changes.
   */
  lemma MulDivDispatch(cfg: Config, s: State)
    requires s.rstN != 0 && s.cmd in {MUL, DIV}
    ensures !cfg.rvmExt ==> Step(cfg, s) == Fail(MissingRvmExt)
    ensures cfg.rvmExt && s.cmd == MUL && cfg.fastMul ==>
      Step(cfg, s).Ok? && Step(cfg, s).next == s.(res := Step(cfg, s).next.res)
      && (s.op1 * s.op2 - Step(cfg, s).next.res) % MODULUS == 0
    ensures cfg.rvmExt && !(s.cmd == MUL && cfg.fastMul) && s.rvmCmdVd == 0 ==> Step(cfg, s) == Ok(s)
  {
  }

  /** The multi-cycle path: rvmCmdVd set on an extended unit, MUL not fast. */
  predicate OnMultiCycle(cfg: Config, s: State)
  {
    cfg.rvmExt && s.rstN != 0 && s.rvmCmdVd != 0
    && (s.cmd == DIV || (s.cmd == MUL && !cfg.fastMul))
  }

  /**
   * At counter 0 the latch takes the inputs; at a nonzero counter a tick
   * fails exactly when the inputs differ from the latch.
   */
  lemma LatchRule(cfg: Config, s: State)
    requires OnMultiCycle(cfg, s)
    ensures s.rvmDelayCounter == 0 ==>
      Step(cfg, s).Ok? && Step(cfg, s).next.rvmOp1 == s.op1
      && Step(cfg, s).next.rvmOp2 == s.op2 && Step(cfg, s).next.rvmCmd == s.cmd
    ensures s.rvmDelayCounter > 0 ==>
      (Step(cfg, s).Fail? <==> (s.rvmOp1, s.rvmOp2, s.rvmCmd) != (s.op1, s.op2, s.cmd))
    ensures Step(cfg, s).Fail? ==> Step(cfg, s).fault == OperandsChanged
  {
  }

  /**
   * A successful multi-cycle tick either counts (busy: the counter goes up
   * by one, ready drops, res is kept) or completes (counter 0, ready set,
   * res the result), and the counter stays below RVM_DELAY.
   */
  lemma MultiCycleTick(cfg: Config, s: State)
    requires OnMultiCycle(cfg, s) && s.rvmDelayCounter < RVM_DELAY
    ensures Step(cfg, s).Ok? ==>
      var t := Step(cfg, s).next;
      t.rvmDelayCounter < RVM_DELAY
      && ((t.rvmDelayCounter == s.rvmDelayCounter + 1 && t.rvmResRdy == 0 && t.res == s.res)
          || (t.rvmDelayCounter == 0 && t.rvmResRdy == 1 && t.res == MulDivResult(cfg, s.cmd, s.op1, s.op2)))
  {
  }

  /** Every tick keeps the delay counter within [0, RVM_DELAY - 1]. */
  lemma {:induction false} CounterBound(cfg: Config, s: State, n: nat)
    requires s.rvmDelayCounter < RVM_DELAY
    ensures Ticks(cfg, s, n).Ok? ==> Ticks(cfg, s, n).next.rvmDelayCounter < RVM_DELAY
  {
    if n > 0 {
      CounterBound(cfg, s, n - 1);
    }
  }

  /** n ticks with the inputs held. */
  function Ticks(cfg: Config, s: State, n: nat): TickResult
  {
    if n == 0 then Ok(s)
    else match Ticks(cfg, s, n - 1)
      case Fail(e) => Fail(e)
      case Ok(t) => Step(cfg, t)
  }

  /**
   * Ticks a multi-cycle operation takes from issue to ready: one when an
   * operand is zero (this covers division by zero), RVM_DELAY - 1 for equal
   * operands, RVM_DELAY otherwise.
   */
  function Latency(op1: U32, op2: U32): (n: nat)
    ensures 1 <= n <= RVM_DELAY
  {
    if op1 == 0 || op2 == 0 then 1
    else if op1 == op2 then RVM_DELAY - 1
    else RVM_DELAY
  }

  /**
   * The counter rule in closed form: a MUL/DIV tick at counter k keeps the
   * operation busy exactly when fewer than Latency ticks will have passed.
   */
  lemma BusyUntilLatency(cmd: Cmd, op1: U32, op2: U32, k: nat)
    requires cmd in {MUL, DIV}
    ensures StaysBusy(cmd, op1, op2, k) <==> k + 1 < Latency(op1, op2)
  {
  }

  /** A multi-cycle operation just issued: on its path, counter at 0. */
  predicate Issued(cfg: Config, s: State)
  {
    OnMultiCycle(cfg, s) && s.rvmDelayCounter == 0
  }

  /** The unit k ticks into the operation issued in s, while still busy. */
  function Busy(s: State, k: nat): State
  {
    s.(rvmOp1 := s.op1, rvmOp2 := s.op2, rvmCmd := s.cmd, rvmDelayCounter := k, rvmResRdy := 0)
  }

  /** The unit on the tick the operation issued in s completes. */
  function Done(cfg: Config, s: State): State
    requires s.cmd in {MUL, DIV}
  {
    s.(rvmOp1 := s.op1, rvmOp2 := s.op2, rvmCmd := s.cmd, rvmDelayCounter := 0, rvmResRdy := 1,
       res := MulDivResult(cfg, s.cmd, s.op1, s.op2))
  }

  /** The tick that issues an operation. */
  lemma IssueTick(cfg: Config, s: State)
    requires Issued(cfg, s)
    ensures Step(cfg, s) == Ok(if 1 < Latency(s.op1, s.op2) then Busy(s, 1) else Done(cfg, s))
  {
  }

  /** A busy tick: count on, or complete on the Latency-th tick. */
  lemma BusyTick(cfg: Config, s: State, k: nat)
    requires Issued(cfg, s) && 1 <= k < Latency(s.op1, s.op2)
    ensures Step(cfg, Busy(s, k)) == Ok(if k + 1 < Latency(s.op1, s.op2) then Busy(s, k + 1) else Done(cfg, s))
  {
  }

  /** Before the Latency-th tick the operation is busy: ready low, res kept. */
  lemma {:induction false} BusyPhase(cfg: Config, s: State, k: nat)
    requires Issued(cfg, s) && 1 <= k < Latency(s.op1, s.op2)
    ensures Ticks(cfg, s, k) == Ok(Busy(s, k))
    ensures Ticks(cfg, s, k).next.rvmResRdy == 0 && Ticks(cfg, s, k).next.res == s.res
  {
    if k == 1 {
      IssueTick(cfg, s);
    } else {
      BusyPhase(cfg, s, k - 1);
      BusyTick(cfg, s, k - 1);
    }
  }

  /**
   * An operation issued with the inputs held completes on exactly its
   * Latency-th tick: ready set, counter back to 0, res the MUL/DIV result.
   */
  lemma {:induction false} CompletesAtLatency(cfg: Config, s: State)
    requires Issued(cfg, s)
    ensures Ticks(cfg, s, Latency(s.op1, s.op2)) == Ok(Done(cfg, s))
    ensures var t := Ticks(cfg, s, Latency(s.op1, s.op2)).next;
      t.rvmResRdy == 1 && t.rvmDelayCounter == 0 && t.res == MulDivResult(cfg, s.cmd, s.op1, s.op2)
  {
    var n := Latency(s.op1, s.op2);
    if n == 1 {
      IssueTick(cfg, s);
    } else {
      BusyPhase(cfg, s, n - 1);
      BusyTick(cfg, s, n - 1);
    }
  }
}

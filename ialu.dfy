/**
 * The cycle-stepped model of the integer ALU. One call of `Tick` is one
 * clock edge: it reads the current inputs (op1, op2, cmd, rstN, rvmCmdVd)
 * and updates the registered outputs (res, rvmResRdy) and, for multi-cycle
 * MUL/DIV, the busy-operation latch and its delay counter.
 *
 * `Step` states what one tick does to a snapshot of the unit; the class
 * `IALU` updates its fields in place and is proved to agree with `Step`.
 */
module Ialu {
  import opened Wrappers
  import opened Arith

  /** Operation codes, with the numeric encoding of the hardware command bus. */
  datatype Cmd = NONE | ADD | SUB | MUL | DIV
  {
    function Code(): (n: nat)
      ensures n in {0, 4, 5, 15, 19}
      ensures (n < 15) == (this in {NONE, ADD, SUB})
    {
      match this
      case NONE => 0
      case ADD => 4
      case SUB => 5
      case MUL => 15
      case DIV => 19
    }
  }

  /** Decoding of a bus code; codes outside the encoding are not commands. */
  function CmdOfCode(n: int): (c: Option<Cmd>)
    ensures c.Some? <==> n in {0, 4, 5, 15, 19}
    ensures c.Some? ==> c.value.Code() == n
  {
    if n == 0 then Some(NONE)
    else if n == 4 then Some(ADD)
    else if n == 5 then Some(SUB)
    else if n == 15 then Some(MUL)
    else if n == 19 then Some(DIV)
    else None
  }

  /** Every command is recovered from its code, so distinct commands have distinct codes. */
  lemma CodeRoundTrip(c: Cmd)
    ensures CmdOfCode(c.Code()) == Some(c)
  {
  }

  /** Delay in execution of MUL/DIV operations, in ticks. */
  const RVM_DELAY: nat := 32

  /**
   * Construction parameters: the "M" extension, fast (combinational)
   * multiplication, and the word the platform's float-to-int32 conversion
   * yields for INT32_MIN / -1, which the code does not determine.
   */
  datatype Config = Config(rvmExt: bool, fastMul: bool, divOverflow: U32)
  {
    /** Fast multiplication requires the "M" extension. */
    predicate Valid()
    {
      rvmExt || !fastMul
    }
  }

  /** Inputs, registered outputs and the busy-operation latch of the unit. */
  datatype State = State(
    op1: U32, op2: U32, cmd: Cmd, rstN: int, rvmCmdVd: int,
    res: U32, rvmResRdy: Bit,
    rvmOp1: U32, rvmOp2: U32, rvmCmd: Cmd, rvmDelayCounter: nat)

  /** The assertion failures a tick can raise. */
  datatype Fault =
    | MissingRvmExt      // MUL or DIV on a unit built without the "M" extension
    | UnexpectedCmdValid // rvmCmdVd set with NONE, ADD or SUB
    | OperandsChanged    // inputs differ from the latch of an operation in flight

  datatype TickResult = Ok(next: State) | Fail(fault: Fault)

  /** The state a tick with reset asserted leaves: no arithmetic, the latch kept. */
  function AfterReset(s: State): (r: State)
    ensures r.res == 0 && r.rvmResRdy == 1 && r.rvmDelayCounter == 0
    ensures r.(res := s.res, rvmResRdy := s.rvmResRdy, rvmDelayCounter := s.rvmDelayCounter) == s
  {
    s.(res := 0, rvmResRdy := 1, rvmDelayCounter := 0)
  }

  /** Counter value below which a multi-cycle operation stays busy. */
  function BusyLimit(op1: U32, op2: U32): nat
  {
    if op1 == op2 then RVM_DELAY - 2 else RVM_DELAY - 1
  }

  /** Whether a multi-cycle tick keeps the operation busy rather than completing it. */
  predicate StaysBusy(cmd: Cmd, op1: U32, op2: U32, counter: nat)
  {
    var divisionByZero := cmd == DIV && op2 == 0;
    counter < BusyLimit(op1, op2) && !(op1 == 0 || op2 == 0) && !divisionByZero
  }

  /** The result a completed multi-cycle MUL or DIV stores. */
  function MulDivResult(cfg: Config, cmd: Cmd, op1: U32, op2: U32): (r: U32)
    requires cmd in {MUL, DIV}
    ensures cmd == MUL ==> (op1 * op2 - r) % MODULUS == 0
    ensures cmd == DIV && op2 == 0 ==> r == ALL_ONES
    ensures cmd == DIV && op2 != 0 && !IsInt32Overflow(op1, op2) ==>
              ToSigned(r) == TruncDiv(ToSigned(op1), ToSigned(op2))
  {
    if cmd == MUL then Wrap(op1 * op2)
    else if op2 == 0 then ALL_ONES
    else Int32Div(op1, op2, cfg.divOverflow)
  }

  /** One multi-cycle tick: latch at counter 0, check the latch, then count or complete. */
  function MultiCycle(cfg: Config, s: State): (r: TickResult)
    requires s.cmd in {MUL, DIV}
    ensures r.Fail? ==> r.fault == OperandsChanged && s.rvmDelayCounter != 0
    ensures r.Ok? ==> r.next.rvmOp1 == s.op1 && r.next.rvmOp2 == s.op2 && r.next.rvmCmd == s.cmd
    ensures r.Ok? ==> r.next.op1 == s.op1 && r.next.op2 == s.op2 && r.next.cmd == s.cmd
                      && r.next.rstN == s.rstN && r.next.rvmCmdVd == s.rvmCmdVd
    ensures r.Ok? ==> (r.next.rvmResRdy == 0) == StaysBusy(s.cmd, s.op1, s.op2, s.rvmDelayCounter)
  {
    var l := if s.rvmDelayCounter == 0 then s.(rvmOp1 := s.op1, rvmOp2 := s.op2, rvmCmd := s.cmd) else s;
    if l.rvmOp1 != s.op1 || l.rvmOp2 != s.op2 || l.rvmCmd != s.cmd then Fail(OperandsChanged)
    else if StaysBusy(s.cmd, s.op1, s.op2, s.rvmDelayCounter) then
      Ok(l.(rvmDelayCounter := s.rvmDelayCounter + 1, rvmResRdy := 0))
    else
      Ok(l.(rvmDelayCounter := 0, rvmResRdy := 1, res := MulDivResult(cfg, s.cmd, s.op1, s.op2)))
  }

  /**
   * One clock edge. A tick never changes the inputs, and keeps the delay
   * counter below RVM_DELAY.
   */
  function Step(cfg: Config, s: State): (r: TickResult)
    ensures r.Ok? ==> r.next.op1 == s.op1 && r.next.op2 == s.op2 && r.next.cmd == s.cmd
                      && r.next.rstN == s.rstN && r.next.rvmCmdVd == s.rvmCmdVd
    ensures r.Ok? && s.rvmDelayCounter < RVM_DELAY ==> r.next.rvmDelayCounter < RVM_DELAY
  {
    if s.rstN == 0 then Ok(AfterReset(s))
    else
      match s.cmd
      case NONE => if s.rvmCmdVd != 0 then Fail(UnexpectedCmdValid) else Ok(s)
      case ADD => if s.rvmCmdVd != 0 then Fail(UnexpectedCmdValid) else Ok(s.(res := Wrap(s.op1 + s.op2)))
      case SUB => if s.rvmCmdVd != 0 then Fail(UnexpectedCmdValid) else Ok(s.(res := Wrap(s.op1 - s.op2)))
      case MUL | DIV =>
        if !cfg.rvmExt then Fail(MissingRvmExt)
        else if s.cmd == MUL && cfg.fastMul then Ok(s.(res := Wrap(s.op1 * s.op2)))
        else if s.rvmCmdVd == 0 then Ok(s)
        else MultiCycle(cfg, s)
  }

  /** The integer ALU model, with its inputs, outputs and latch as mutable fields. */
  class IALU {
    const rvmExt: bool
    const fastMul: bool
    const divOverflow: U32

    // inputs
    var op1: U32
    var op2: U32
    var cmd: Cmd
    var rstN: int
    var rvmCmdVd: int
    // registered outputs
    var res: U32
    var rvmResRdy: Bit
    // busy-operation latch
    var rvmOp1: U32
    var rvmOp2: U32
    var rvmCmd: Cmd
    var rvmDelayCounter: nat

    function Cfg(): Config
    {
      Config(rvmExt, fastMul, divOverflow)
    }

    function Snapshot(): State
      reads this
    {
      State(op1, op2, cmd, rstN, rvmCmdVd, res, rvmResRdy, rvmOp1, rvmOp2, rvmCmd, rvmDelayCounter)
    }

    ghost predicate Valid()
      reads this
    {
      Cfg().Valid() && rvmDelayCounter < RVM_DELAY
    }

    /** The initial inputs, outputs and latch are arbitrary, the counter below RVM_DELAY. */
    constructor (rvmExt: bool, fastMul: bool, divOverflow: U32, init: State)
      requires rvmExt || !fastMul
      requires init.rvmDelayCounter < RVM_DELAY
      ensures Valid()
      ensures Cfg() == Config(rvmExt, fastMul, divOverflow) && Snapshot() == init
    {
      this.rvmExt := rvmExt;
      this.fastMul := fastMul;
      this.divOverflow := divOverflow;
      op1, op2, cmd, rstN, rvmCmdVd := init.op1, init.op2, init.cmd, init.rstN, init.rvmCmdVd;
      res, rvmResRdy := init.res, init.rvmResRdy;
      rvmOp1, rvmOp2, rvmCmd, rvmDelayCounter := init.rvmOp1, init.rvmOp2, init.rvmCmd, init.rvmDelayCounter;
    }

    /**
     * Update the unit on one clock edge. A failed assertion is returned as
     * a fault and leaves the unit as it was.
     */
    method Tick() returns (fault: Option<Fault>)
      requires Valid()
      modifies this
      ensures Valid()
      ensures fault.None? ==> Step(Cfg(), old(Snapshot())) == Ok(Snapshot())
      ensures fault.Some? ==> Step(Cfg(), old(Snapshot())) == Fail(fault.value) && Snapshot() == old(Snapshot())
    {
      var result: int;
      if rstN == 0 {
        rvmResRdy := 1;
        rvmDelayCounter := 0;
        result := 0;
      } else {
        if cmd == NONE {
          if rvmCmdVd != 0 { return Some(UnexpectedCmdValid); }
          result := res;
        } else if cmd == ADD {
          if rvmCmdVd != 0 { return Some(UnexpectedCmdValid); }
          result := op1 + op2;
        } else if cmd == SUB {
          if rvmCmdVd != 0 { return Some(UnexpectedCmdValid); }
          result := op1 - op2;
        } else {
          // MUL or DIV
          if !rvmExt { return Some(MissingRvmExt); }
          if cmd == MUL && fastMul {
            result := op1 * op2;
          } else if rvmCmdVd != 0 {
            fault, result := RvmTick();
            if fault.Some? { return; }
          } else {
            result := res;
          }
        }
      }
      res := Wrap(result);
      return None;
    }

    /**
     * The multi-cycle unit's share of a tick (MUL/DIV with rvmCmdVd set): latches,
     * counts and completes, and returns the value res takes on the clock edge.
     */
    method RvmTick() returns (fault: Option<Fault>, result: int)
      requires Valid() && cmd in {MUL, DIV}
      modifies this
      ensures Valid() && res == old(res)
      ensures fault.None? ==> MultiCycle(Cfg(), old(Snapshot())) == Ok(Snapshot().(res := Wrap(result)))
      ensures fault.Some? ==> MultiCycle(Cfg(), old(Snapshot())) == Fail(fault.value) && Snapshot() == old(Snapshot())
    {
      if rvmDelayCounter == 0 {
        rvmOp1, rvmOp2, rvmCmd := op1, op2, cmd;
      }
      // the operands and opcode of an operation in flight must not change
      if rvmOp1 != op1 || rvmOp2 != op2 || rvmCmd != cmd { return Some(OperandsChanged), 0; }
      var isDivisionByZero := cmd == DIV && op2 == 0;
      var isOpsEqual := op1 == op2;
      if rvmDelayCounter < (if isOpsEqual then RVM_DELAY - 2 else RVM_DELAY - 1)
         && !(op1 == 0 || op2 == 0) && !isDivisionByZero
      {
        rvmDelayCounter := rvmDelayCounter + 1;
        rvmResRdy := 0;
        result := res;
      } else {
        rvmDelayCounter := 0;
        rvmResRdy := 1;
        if cmd == MUL {
          result := op1 * op2;
        } else if op2 == 0 {
          result := MODULUS - 1;
        } else {
          result := Int32Div(op1, op2, divOverflow);
        }
      }
      fault := None;
    }

    method SetInputOp1(value: U32)
      requires Valid()
      modifies this
      ensures Valid() && Snapshot() == old(Snapshot()).(op1 := value)
    {
      op1 := value;
    }

    method SetInputOp2(value: U32)
      requires Valid()
      modifies this
      ensures Valid() && Snapshot() == old(Snapshot()).(op2 := value)
    {
      op2 := value;
    }

    method SetInputCmd(value: Cmd)
      requires Valid()
      modifies this
      ensures Valid() && Snapshot() == old(Snapshot()).(cmd := value)
    {
      cmd := value;
    }

    method SetInputRstN(value: int)
      requires Valid()
      modifies this
      ensures Valid() && Snapshot() == old(Snapshot()).(rstN := value)
    {
      rstN := value;
    }

    method SetInputRvmCmdVd(value: int)
      requires Valid()
      modifies this
      ensures Valid() && Snapshot() == old(Snapshot()).(rvmCmdVd := value)
    {
      rvmCmdVd := value;
    }

    /** Reading an output changes nothing, so repeated reads agree. */
    method GetOutputRes() returns (value: U32)
      ensures value == Snapshot().res
    {
      value := res;
    }

    method GetOutputRvmResRdy() returns (value: Bit)
      ensures value == Snapshot().rvmResRdy
    {
      value := rvmResRdy;
    }
  }
}

/**
 * The model-only comparator: reset the model once, then apply each vector of
 * a corpus group by group, tick it `delay` times, and check the outputs.
 * The run stops at the first failed check, as an assertion would.
 *
 * The functions below state the run; `RunTests` performs it on an `IALU`
 * object and is proved to agree with them.
 */
module Comparator {
  import opened Wrappers
  import opened Arith
  import opened Ialu
  import opened Vectors
  import opened GoldTestVectors

  /** Why a check fails. */
  datatype Failure =
    | MissingInput            // a required vector field is absent
    | ModelFault(fault: Fault) // the model's own assertion fired during a tick
    | ReadyTooEarly(tick: nat) // ready was set after this tick, before the last
    | WrongRes(got: U32)       // res differs from the expected value
    | WrongRdy(ready: Bit)     // ready differs from the expected value

  /** The result of one vector: the unit afterwards, or the failed check. */
  datatype Outcome = Continue(state: State) | Stop(failure: Failure)

  /** A run part-way through a corpus: still going, or halted at a vector. */
  datatype Progress = Going(state: State) | Halted(group: Group, index: nat, failure: Failure)

  datatype Report = Passed | Failed(group: Group, index: nat, failure: Failure)

  /** The comparator builds the model with the "M" extension and without fast multiplication. */
  function TestConfig(divOverflow: U32): Config
  {
    Config(true, false, divOverflow)
  }

  predicate IsMulDiv(g: Group)
  {
    g == MulGroup || g == DivGroup
  }

  /** The fields a vector of the group must give. */
  predicate HasInputs(g: Group, v: TestVector)
  {
    v.op1.Some? && v.op2.Some? && v.cmd.Some? && (IsMulDiv(g) ==> v.rvmCmdVd.Some?)
  }

  /** The unit after the vector's inputs are placed on it (rvmCmdVd only for MUL/DIV groups). */
  function ApplyInputs(s: State, g: Group, v: TestVector): (r: State)
    requires HasInputs(g, v)
    ensures r.op1 == v.op1.value && r.op2 == v.op2.value && r.cmd == v.cmd.value
    ensures r.rvmCmdVd == if IsMulDiv(g) then v.rvmCmdVd.value else s.rvmCmdVd
    ensures r.(op1 := s.op1, op2 := s.op2, cmd := s.cmd, rvmCmdVd := s.rvmCmdVd) == s
  {
    var t := s.(op1 := v.op1.value, op2 := v.op2.value, cmd := v.cmd.value);
    if IsMulDiv(g) then t.(rvmCmdVd := v.rvmCmdVd.value) else t
  }

  /**
   * Ticks i .. delay-1 of a vector. With `watch`, ready must stay low after
   * every tick but the last.
   */
  function TickLoop(cfg: Config, s: State, i: nat, delay: nat, watch: bool): (r: Outcome)
    requires i <= delay
    ensures r.Stop? ==> r.failure.ModelFault? || r.failure.ReadyTooEarly?
    ensures r.Stop? && r.failure.ReadyTooEarly? ==> watch && i <= r.failure.tick < delay - 1
    ensures r.Continue? && s.rvmDelayCounter < RVM_DELAY ==> r.state.rvmDelayCounter < RVM_DELAY
    decreases delay - i
  {
    if i == delay then Continue(s)
    else match Step(cfg, s)
      case Fail(e) => Stop(ModelFault(e))
      case Ok(t) =>
        if watch && i < delay - 1 && t.rvmResRdy != 0 then Stop(ReadyTooEarly(i))
        else TickLoop(cfg, t, i + 1, delay, watch)
  }

  /** One vector: inputs, ticks, then res (and for MUL/DIV the ready flag) compared. */
  function VectorOutcome(cfg: Config, s: State, g: Group, v: TestVector): (r: Outcome)
    ensures !HasInputs(g, v) ==> r == Stop(MissingInput)
    ensures r.Continue? ==> v.res == Some(r.state.res) && (IsMulDiv(g) ==> v.rvmResRdy == Some(r.state.rvmResRdy as int))
    ensures r.Stop? && r.failure.ReadyTooEarly? ==> IsMulDiv(g) && r.failure.tick < v.delay - 1
    ensures r.Continue? && s.rvmDelayCounter < RVM_DELAY ==> r.state.rvmDelayCounter < RVM_DELAY
  {
    if !HasInputs(g, v) then Stop(MissingInput)
    else match TickLoop(cfg, ApplyInputs(s, g, v), 0, v.delay, IsMulDiv(g))
      case Stop(f) => Stop(f)
      case Continue(t) =>
        if Some(t.res) != v.res then Stop(WrongRes(t.res))
        else if IsMulDiv(g) && Some(t.rvmResRdy as int) != v.rvmResRdy then Stop(WrongRdy(t.rvmResRdy))
        else Continue(t)
  }

  /** Vectors j .. of one group, in list order. */
  function VectorsFrom(cfg: Config, s: State, g: Group, vs: seq<TestVector>, j: nat): (r: Progress)
    requires j <= |vs|
    ensures r.Halted? ==> r.group == g && j <= r.index < |vs|
    ensures r.Halted? ==> VectorOutcome(cfg, s, g, vs[j]).Stop? || r.index > j
    decreases |vs| - j
  {
    if j == |vs| then Going(s)
    else match VectorOutcome(cfg, s, g, vs[j])
      case Stop(f) => Halted(g, j, f)
      case Continue(t) => VectorsFrom(cfg, t, g, vs, j + 1)
  }

  /** Groups k .. of the corpus, in corpus order. */
  function GroupsFrom(cfg: Config, s: State, corpus: Corpus, k: nat): (r: Progress)
    requires k <= |corpus|
    ensures r.Halted? ==> exists n | k <= n < |corpus| :: corpus[n].0 == r.group && r.index < |corpus[n].1|
    decreases |corpus| - k
  {
    if k == |corpus| then Going(s)
    else match VectorsFrom(cfg, s, corpus[k].0, corpus[k].1, 0)
      case Halted(g, j, f) => Halted(g, j, f)
      case Going(t) => GroupsFrom(cfg, t, corpus, k + 1)
  }

  /** The unit after the prelude: one tick with reset asserted, then rvmCmdVd cleared and reset released. */
  function Prelude(init: State): (r: State)
    ensures forall cfg: Config :: Step(cfg, init.(rstN := 0)) == Ok(r.(rstN := 0, rvmCmdVd := init.rvmCmdVd))
    ensures r.rstN == 1 && r.rvmCmdVd == 0
  {
    AfterReset(init.(rstN := 0)).(rvmCmdVd := 0, rstN := 1)
  }

  /** The whole comparator run from an arbitrary initial unit. */
  function TestRun(divOverflow: U32, init: State, corpus: Corpus): (r: Report)
    ensures r.Failed? ==> exists n | 0 <= n < |corpus| :: corpus[n].0 == r.group && r.index < |corpus[n].1|
    ensures |corpus| == 0 ==> r == Passed
  {
    match GroupsFrom(TestConfig(divOverflow), Prelude(init), corpus, 0)
    case Going(_) => Passed
    case Halted(g, j, f) => Failed(g, j, f)
  }

  /** Apply one vector to the model and check it; `failure` is the first failed check, if any. */
  method CheckVector(ialu: IALU, g: Group, v: TestVector) returns (failure: Option<Failure>)
    requires ialu.Valid()
    modifies ialu
    ensures ialu.Valid()
    ensures VectorOutcome(ialu.Cfg(), old(ialu.Snapshot()), g, v)
            == if failure.Some? then Stop(failure.value) else Continue(ialu.Snapshot())
  {
    if !HasInputs(g, v) {
      return Some(MissingInput);
    }
    ialu.SetInputOp1(v.op1.value);
    ialu.SetInputOp2(v.op2.value);
    ialu.SetInputCmd(v.cmd.value);
    if IsMulDiv(g) {
      ialu.SetInputRvmCmdVd(v.rvmCmdVd.value);
    }
    ghost var applied := ialu.Snapshot();
    assert applied == ApplyInputs(old(ialu.Snapshot()), g, v);
    var watch := IsMulDiv(g);
    for i := 0 to v.delay
      invariant ialu.Valid()
      invariant TickLoop(ialu.Cfg(), applied, 0, v.delay, watch) == TickLoop(ialu.Cfg(), ialu.Snapshot(), i, v.delay, watch)
    {
      var fault := ialu.Tick();
      if fault.Some? {
        return Some(ModelFault(fault.value));
      }
      if watch && i < v.delay - 1 {
        var rdy := ialu.GetOutputRvmResRdy();
        if rdy != 0 {
          return Some(ReadyTooEarly(i));
        }
      }
    }
    var res := ialu.GetOutputRes();
    if Some(res) != v.res {
      return Some(WrongRes(res));
    }
    if IsMulDiv(g) {
      var rdy := ialu.GetOutputRvmResRdy();
      if Some(rdy as int) != v.rvmResRdy {
        return Some(WrongRdy(rdy));
      }
    }
    return None;
  }

  /**
   * Build the model (the "M" extension on, fast multiplication off) from an
   * arbitrary initial unit, run the prelude, then every vector of every group.
   */
  method RunTests(corpus: Corpus, init: State, divOverflow: U32) returns (report: Report)
    requires init.rvmDelayCounter < RVM_DELAY
    ensures report == TestRun(divOverflow, init, corpus)
  {
    var ialu := new IALU(true, false, divOverflow, init);
    ghost var cfg := ialu.Cfg();
    ialu.SetInputRstN(0);
    var resetFault := ialu.Tick();
    ialu.SetInputRvmCmdVd(0);
    ialu.SetInputRstN(1);
    ghost var start := ialu.Snapshot();
    assert start == Prelude(init);
    for k := 0 to |corpus|
      invariant ialu.Valid() && ialu.Cfg() == cfg
      invariant GroupsFrom(cfg, start, corpus, 0) == GroupsFrom(cfg, ialu.Snapshot(), corpus, k)
    {
      var (g, vs) := corpus[k];
      ghost var groupStart := ialu.Snapshot();
      for j := 0 to |vs|
        invariant ialu.Valid() && ialu.Cfg() == cfg
        invariant VectorsFrom(cfg, groupStart, g, vs, 0) == VectorsFrom(cfg, ialu.Snapshot(), g, vs, j)
      {
        var failure := CheckVector(ialu, g, vs[j]);
        if failure.Some? {
          return Failed(g, j, failure.value);
        }
      }
    }
    return Passed;
  }
}

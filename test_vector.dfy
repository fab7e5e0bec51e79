/**
 * A test vector: inputs to apply, outputs to expect, and how many ticks to
 * wait before checking them. Every field but `delay` may be absent; `delay`
 * defaults to one tick. A vector is a value and never changes once built.
 */
module Vectors {
  import opened Wrappers
  import opened Arith
  import opened Ialu

  datatype TestVector = TestVector(
    // inputs
    op1: Option<U32> := None,
    op2: Option<U32> := None,
    cmd: Option<Cmd> := None,
    rstN: Option<int> := None,
    rvmCmdVd: Option<int> := None,
    // expected outputs
    res: Option<U32> := None,
    rvmResRdy: Option<int> := None,
    // ticks before the outputs are checked
    delay: nat := 1)
}

# SCR1 integer ALU golden model, in Dafny

This project models the Python golden model of the SCR1 core's integer ALU
(IALU), along with the self-test that checks it against a table of reference
("gold") test vectors, and proves properties of both.

The IALU takes two 32-bit operands `op1` and `op2`, a command `cmd`
(NONE, ADD, SUB, MUL or DIV), an active-low reset `rst_n` and a MUL/DIV
command-valid strobe `rvm_cmd_vd`. It drives the result `res` and the
MUL/DIV ready flag `rvm_res_rdy`.

- ADD and SUB complete on every clock tick and wrap around modulo 2^32.
- MUL and DIV need the RISC-V "M" extension. Without fast multiplication
  they run on a multi-cycle unit. The unit latches its operands when an
  operation starts, lowers ready while it counts, and raises ready with the
  result when it completes.
- The latency of a multi-cycle operation depends on the operands:
  - 1 tick when either operand is zero (this covers division by zero);
  - 31 ticks when the operands are equal;
  - 32 ticks (`RVM_DELAY`) otherwise.
- DIV is a signed, truncating division. Division by zero gives all ones.

The model is built from these modules:

- `Arith` (`arith.dfy`): 32-bit wrap-around, the two's-complement reading of
  a word, and the signed truncating quotient.
- `Ialu` (`ialu.dfy`):
  - `Step` is the pure specification of one tick.
  - The class `Ialu.IALU` keeps the unit's inputs, outputs and latch as
    mutable fields. Its `Tick` method updates them in place and is proved to
    agree with `Step`.
  - An assertion failure in the model becomes a `Fault` result, and the unit
    is left unchanged.
- `IaluProps` (`ialu_props.dfy`): what a tick does in each mode, the bound on
  the delay counter, and the exact latency at which a held multi-cycle
  operation completes.
- `Vectors` (`test_vector.dfy`): a test vector. Every field is optional, and
  `delay` defaults to one tick.
- `GoldTestVectors` (`gold_test_vectors.dfy`): the gold corpus, plus what its
  expectations are, as arithmetic facts.
- `Comparator` (`comparator.dfy`): the self-test.
  - The functions `VectorOutcome`, `VectorsFrom`, `GroupsFrom` and `TestRun`
    state what the run does.
  - The methods `CheckVector` and `RunTests` perform it on an `IALU` object,
    in nested loops, and are proved to agree with those functions.
- `ComparatorProps` (`comparator_props.dfy`):
  - the outcome of any single-cycle vector and of any multi-cycle vector;
  - a corpus whose vectors all conform to the model passes.
- `GoldOutcomes` (`gold_outcomes.dfy`): the computed outcome of every gold
  vector, and of the gold run as a whole.
- `Findings` (`findings.dfy`): the gold corpus with its timing and its signed
  quotients corrected, proved to pass.

The INT32_MIN / -1 quotient is computed by a float division followed by a
float-to-int32 conversion that overflows. The source leaves its value
undetermined. The model makes it a configuration constant, `divOverflow`.
Every property of the unit and of the gold corpus is proved for every value
of it. The corrected corpus in `Findings` passes exactly when the word is
0x80000000, the RISC-V result for this case; with any other word it fails at
its DIV vector 7.

## Model

| member | source | states |
|---|---|---|
| Arith.Wrap | src/tb/scr1_pipe_ialu/ialu_model/ialu.py:155 | the stored result is the unbounded result modulo 2^32: unchanged in range, congruent otherwise |
| Arith.AddWraps | src/tb/scr1_pipe_ialu/ialu_model/ialu.py:91-93 | an ADD wraps at most once: the sum, or the sum minus 2^32 when it carries out |
| Arith.SubWraps | src/tb/scr1_pipe_ialu/ialu_model/ialu.py:95-97 | a SUB borrows at most once: the difference, or the difference plus 2^32 when negative |
| Arith.ToSigned | src/tb/scr1_pipe_ialu/ialu_model/ialu.py:149-151 | the int32 reading of a word lies in the int32 range, wraps back to the word, and is negative exactly when bit 31 is set |
| Arith.TruncDiv | src/tb/scr1_pipe_ialu/ialu_model/ialu.py:148-151 | the quotient rounds toward zero: the remainder is smaller than the divisor in magnitude and is zero or has the dividend's sign |
| Arith.TruncDivCorrect | src/tb/scr1_pipe_ialu/ialu_model/ialu.py:148-151 | the sign rule for the quotient of the magnitudes gives a truncated quotient |
| Arith.Int32Div | src/tb/scr1_pipe_ialu/ialu_model/ialu.py:148-151 | a DIV with a nonzero divisor stores the truncated signed quotient; INT32_MIN / -1 stores the platform's overflow word |
| Arith.QuotientFits | src/tb/scr1_pipe_ialu/ialu_model/ialu.py:148-151 | apart from INT32_MIN / -1, the signed quotient fits in int32, so re-encoding it loses nothing |
| Arith.Int32DivOfNonNegative | src/tb/scr1_pipe_ialu/ialu_model/ialu.py:148-151 | for operands below 2^31, signed and unsigned division agree |
| Ialu.Cmd.Code | src/tb/scr1_pipe_ialu/ialu_model/ialu.py:24-40 | the command codes are 0, 4, 5, 15 and 19, and the single-cycle commands are exactly those with a code below 15 |
| Ialu.CmdOfCode | src/tb/scr1_pipe_ialu/ialu_model/ialu.py:36-40 | a code decodes exactly when it is one of the five, and to the command with that code |
| Ialu.CodeRoundTrip | src/tb/scr1_pipe_ialu/ialu_model/ialu.py:36-40 | decoding the code of a command gives that command back, so the codes are distinct |
| Ialu.MulDivResult | src/tb/scr1_pipe_ialu/ialu_model/ialu.py:138-151 | on completion, MUL stores the product modulo 2^32, DIV by zero stores all ones, and any other DIV stores the truncated signed quotient |
| Ialu.AfterReset | src/tb/scr1_pipe_ialu/ialu_model/ialu.py:81-84 | a reset tick sets res 0, ready 1 and counter 0 and changes nothing else |
| Ialu.BusyLimit | src/tb/scr1_pipe_ialu/ialu_model/ialu.py:123-130 | the counter bound below which an operation stays busy: RVM_DELAY - 2 for equal operands, RVM_DELAY - 1 otherwise (stated in closed form by IaluProps.BusyUntilLatency) |
| Ialu.StaysBusy | src/tb/scr1_pipe_ialu/ialu_model/ialu.py:117-134 | whether a multi-cycle tick counts rather than completes: below the bound, no zero operand, no division by zero (stated in closed form by IaluProps.BusyUntilLatency) |
| Ialu.MultiCycle | src/tb/scr1_pipe_ialu/ialu_model/ialu.py:105-151 | a multi-cycle tick faults only mid-operation and only with OperandsChanged; otherwise the latch holds the inputs, the inputs are unchanged, and ready drops exactly when the operation stays busy |
| Ialu.Step | src/tb/scr1_pipe_ialu/ialu_model/ialu.py:79-155 | a tick never changes the inputs, and keeps the delay counter below RVM_DELAY |
| Ialu.IALU.constructor | src/tb/scr1_pipe_ialu/ialu_model/ialu.py:48-77 | builds the unit with the given "M"/fast-MUL options (fast MUL requires "M") and an arbitrary initial state whose counter is below RVM_DELAY |
| Ialu.IALU.Tick | src/tb/scr1_pipe_ialu/ialu_model/ialu.py:79-155 | the in-place tick does what Step does: the new fields are Step's next state, or a fault leaves every field unchanged; the invariant is kept |
| Ialu.IALU.RvmTick | src/tb/scr1_pipe_ialu/ialu_model/ialu.py:105-151 | the multi-cycle part of a tick latches, counts or completes as the MultiCycle step says, or faults with nothing changed |
| Ialu.IALU.SetInputOp1 | src/tb/scr1_pipe_ialu/ialu_model/ialu.py:159-161 | only op1 changes, to the given value |
| Ialu.IALU.SetInputOp2 | src/tb/scr1_pipe_ialu/ialu_model/ialu.py:163-165 | only op2 changes, to the given value |
| Ialu.IALU.SetInputCmd | src/tb/scr1_pipe_ialu/ialu_model/ialu.py:167-169 | only cmd changes, to the given value |
| Ialu.IALU.SetInputRstN | src/tb/scr1_pipe_ialu/ialu_model/ialu.py:177-179 | only rst_n changes, to the given value |
| Ialu.IALU.SetInputRvmCmdVd | src/tb/scr1_pipe_ialu/ialu_model/ialu.py:181-183 | only rvm_cmd_vd changes, to the given value |
| Ialu.IALU.GetOutputRes | src/tb/scr1_pipe_ialu/ialu_model/ialu.py:171-173 | returns the registered res |
| Ialu.IALU.GetOutputRvmResRdy | src/tb/scr1_pipe_ialu/ialu_model/ialu.py:185-187 | returns the registered ready flag |
| IaluProps.ResetTick | src/tb/scr1_pipe_ialu/ialu_model/ialu.py:81-84 | a reset tick never faults, sets res 0, ready 1 and counter 0, and keeps the latch and inputs |
| IaluProps.SingleCycleTick | src/tb/scr1_pipe_ialu/ialu_model/ialu.py:87-97 | NONE/ADD/SUB fault exactly when rvm_cmd_vd is set; otherwise only res changes (kept, wrapped sum, wrapped difference) |
| IaluProps.MulDivDispatch | src/tb/scr1_pipe_ialu/ialu_model/ialu.py:99-105 | MUL/DIV without "M" fault; a fast MUL stores the product the same tick, changing only res; with rvm_cmd_vd clear nothing changes |
| IaluProps.LatchRule | src/tb/scr1_pipe_ialu/ialu_model/ialu.py:106-115 | at counter 0 the latch takes the inputs; at a nonzero counter a tick faults exactly when the inputs differ from the latch |
| IaluProps.MultiCycleTick | src/tb/scr1_pipe_ialu/ialu_model/ialu.py:117-151 | a successful multi-cycle tick either counts up with ready low and res kept, or completes with counter 0, ready 1 and the result |
| IaluProps.CounterBound | src/tb/scr1_pipe_ialu/ialu_model/ialu.py:77 | any number of ticks keeps the counter in [0, RVM_DELAY) |
| IaluProps.Latency | src/tb/scr1_pipe_ialu/ialu_model/ialu.py:117-137 | a multi-cycle operation takes between 1 and RVM_DELAY ticks |
| IaluProps.BusyUntilLatency | src/tb/scr1_pipe_ialu/ialu_model/ialu.py:117-134 | a MUL/DIV tick at counter k stays busy exactly when k + 1 is below the operation's latency |
| IaluProps.IssueTick | src/tb/scr1_pipe_ialu/ialu_model/ialu.py:106-137 | the issuing tick latches and goes busy, or completes at once when the latency is 1 |
| IaluProps.BusyTick | src/tb/scr1_pipe_ialu/ialu_model/ialu.py:117-151 | each busy tick counts on, until the Latency-th tick completes the operation |
| IaluProps.BusyPhase | src/tb/scr1_pipe_ialu/ialu_model/ialu.py:117-137 | before the Latency-th tick the unit is busy: ready low, res unchanged |
| IaluProps.CompletesAtLatency | src/tb/scr1_pipe_ialu/ialu_model/ialu.py:79-155 | with inputs held, an issued operation completes on exactly its Latency-th tick with ready 1, counter 0 and the MUL/DIV result |
| GoldTestVectors.ADD_VECTORS | src/tb/scr1_pipe_ialu/ialu_model/gold_test_vectors.py:17-42 | the four ADD vectors, field for field |
| GoldTestVectors.SUB_VECTORS | src/tb/scr1_pipe_ialu/ialu_model/gold_test_vectors.py:43-68 | the four SUB vectors, field for field |
| GoldTestVectors.MUL_VECTORS | src/tb/scr1_pipe_ialu/ialu_model/gold_test_vectors.py:69-124 | the six MUL vectors, field for field |
| GoldTestVectors.DIV_VECTORS | src/tb/scr1_pipe_ialu/ialu_model/gold_test_vectors.py:125-205 | the nine DIV vectors, field for field |
| GoldTestVectors.GOLD_TEST_VECTORS | src/tb/scr1_pipe_ialu/ialu_model/gold_test_vectors.py:16-206 | the corpus: the four groups in the dictionary's order |
| GoldTestVectors.GoldOrder | src/tb/scr1_pipe_ialu/ialu_model/gold_test_vectors.py:16-206 | the corpus holds the ADD, SUB, MUL and DIV groups, in that order |
| GoldTestVectors.GoldAddSums | src/tb/scr1_pipe_ialu/ialu_model/gold_test_vectors.py:17-42 | every ADD vector expects the sum of its operands modulo 2^32 |
| GoldTestVectors.GoldSubDifferences | src/tb/scr1_pipe_ialu/ialu_model/gold_test_vectors.py:43-68 | every SUB vector expects the difference modulo 2^32 |
| GoldTestVectors.GoldMulProducts | src/tb/scr1_pipe_ialu/ialu_model/gold_test_vectors.py:69-124 | every MUL vector expects the product modulo 2^32 |
| GoldTestVectors.GoldDelays | src/tb/scr1_pipe_ialu/ialu_model/gold_test_vectors.py:69-205 | every MUL vector waits RVM_DELAY ticks; a DIV vector waits 1 tick for a zero divisor and RVM_DELAY otherwise |
| GoldTestVectors.GoldMulDivHandshake | src/tb/scr1_pipe_ialu/ialu_model/gold_test_vectors.py:69-205 | every MUL and DIV vector raises rvm_cmd_vd and expects ready set |
| GoldTestVectors.GoldDivByZero | src/tb/scr1_pipe_ialu/ialu_model/gold_test_vectors.py:125-205 | zero-divisor DIV vectors expect all ones after one tick; the others wait RVM_DELAY ticks |
| GoldTestVectors.GoldDivUnsigned | src/tb/scr1_pipe_ialu/ialu_model/gold_test_vectors.py:125-205 | the DIV vectors expect the unsigned quotient, which differs from the model's signed one exactly at indices 4 and (unless the overflow word is 0) 7 |
| Comparator.HasInputs | src/tb/scr1_pipe_ialu/ialu_model/test.py:17-34 | the fields a vector must give: op1, op2 and cmd, and rvm_cmd_vd for MUL/DIV groups |
| Comparator.ApplyInputs | src/tb/scr1_pipe_ialu/ialu_model/test.py:21-39 | placing a vector's inputs sets op1, op2, cmd and (MUL/DIV only) rvm_cmd_vd, and changes nothing else |
| Comparator.TickLoop | src/tb/scr1_pipe_ialu/ialu_model/test.py:41-44 | the tick loop fails only by a model fault or, when watched, by ready set at a tick before the last; it keeps the counter bound |
| Comparator.VectorOutcome | src/tb/scr1_pipe_ialu/ialu_model/test.py:15-47 | a missing input fails; a vector passes only if res (and for MUL/DIV ready) equals what it expects; ready-too-early only for MUL/DIV before the last tick |
| Comparator.VectorsFrom | src/tb/scr1_pipe_ialu/ialu_model/test.py:14-47 | a group's run halts only inside that group, at an index at or after the start, and at the start only if that vector fails |
| Comparator.GroupsFrom | src/tb/scr1_pipe_ialu/ialu_model/test.py:13-47 | the run halts only at a vector that exists in a group of the corpus |
| Comparator.Prelude | src/tb/scr1_pipe_ialu/ialu_model/test.py:6-11 | the prelude is one reset tick (Step's result with reset asserted) followed by rvm_cmd_vd cleared and reset released |
| Comparator.TestRun | src/tb/scr1_pipe_ialu/ialu_model/test.py:5-47 | a failure names a group and index that exist in the corpus; the empty corpus passes |
| Comparator.CheckVector | src/tb/scr1_pipe_ialu/ialu_model/test.py:15-47 | applying one vector to the object and ticking it `delay` times gives the outcome VectorOutcome states, and the object ends in that outcome's state |
| Comparator.RunTests | src/tb/scr1_pipe_ialu/ialu_model/test.py:5-47 | the imperative run (reset prelude, then every vector of every group) reports exactly TestRun |
| ComparatorProps.PreludeIdle | src/tb/scr1_pipe_ialu/ialu_model/test.py:6-11 | from any initial state the prelude leaves res 0, ready 1, counter 0, rvm_cmd_vd clear and reset released |
| ComparatorProps.HeldSingleCycle | src/tb/scr1_pipe_ialu/ialu_model/test.py:25-26 | repeated ADD/SUB ticks on held inputs leave the unit as it is |
| ComparatorProps.SingleCycleVector | src/tb/scr1_pipe_ialu/ialu_model/test.py:16-28 | an ADD/SUB vector passes exactly when it expects the wrapped sum or difference, and otherwise fails with the value the model computed |
| ComparatorProps.WatchedBusy | src/tb/scr1_pipe_ialu/ialu_model/test.py:41-44 | the watched loop, entered while busy, ends busy, done or ready-too-early according to the delay and the latency |
| ComparatorProps.WatchedTicks | src/tb/scr1_pipe_ialu/ialu_model/test.py:41-44 | the same, for the whole watched loop from the issuing tick |
| ComparatorProps.MultiCycleVector | src/tb/scr1_pipe_ialu/ialu_model/test.py:30-47 | a MUL/DIV vector fails with ready-too-early when its delay exceeds the latency; it passes with the exact delay iff it expects the model's result and ready; a short delay sees the old res and ready low |
| ComparatorProps.MultiCycleVerdict | src/tb/scr1_pipe_ialu/ialu_model/test.py:30-47 | the verdict alone, for a MUL/DIV vector whose delay is at least the latency |
| ComparatorProps.ConformingVector | src/tb/scr1_pipe_ialu/ialu_model/test.py:15-47 | a vector that agrees with the model passes and leaves the unit idle |
| ComparatorProps.PassedVector | src/tb/scr1_pipe_ialu/ialu_model/test.py:14 | a vector that passes hands its unit on to the next vector of the group |
| ComparatorProps.ConformingPrefix | src/tb/scr1_pipe_ialu/ialu_model/test.py:14-47 | a run of vectors that agree with the model passes, handing an idle unit to the first vector after them |
| ComparatorProps.ConformingGroup | src/tb/scr1_pipe_ialu/ialu_model/test.py:14-47 | a group of vectors that agree with the model passes and leaves the unit idle |
| ComparatorProps.ConformingGroups | src/tb/scr1_pipe_ialu/ialu_model/test.py:13-47 | a sequence of such groups, with no ADD/SUB group after a MUL/DIV group, passes |
| ComparatorProps.ConformingCorpusPasses | src/tb/scr1_pipe_ialu/ialu_model/test.py:5-47 | a conforming corpus passes from any initial state of the unit |
| GoldOutcomes.GoldSingleCycleConforms | src/tb/scr1_pipe_ialu/ialu_model/gold_test_vectors.py:17-68 | every ADD and SUB gold vector agrees with the model |
| GoldOutcomes.GoldMulOutcomes | src/tb/scr1_pipe_ialu/ialu_model/gold_test_vectors.py:69-124 | the outcome of each MUL gold vector: index 0 sees ready at tick 30, indices 1, 3 and 5 at tick 0, and indices 2 and 4 pass |
| GoldOutcomes.GoldDivOutcomes | src/tb/scr1_pipe_ialu/ialu_model/gold_test_vectors.py:125-205 | the outcome of each DIV gold vector: early ready at indices 0 and 5, a wrong quotient at index 4, index 7 passing iff the overflow word is 0, and the rest passing |
| GoldOutcomes.GoldSingleCyclePrefix | src/tb/scr1_pipe_ialu/ialu_model/test.py:5-28 | the prelude and the ADD and SUB groups pass, leaving the unit idle |
| GoldOutcomes.GoldRunHalts | src/tb/scr1_pipe_ialu/ialu_model/test.py:5-47 | the gold run fails at MUL vector 0, where ready is set after tick 30 of 32 |
| Findings.CorrectedMulRetimed | src/tb/scr1_pipe_ialu/ialu_model/gold_test_vectors.py:69-124 | the corrected MUL vectors are the gold ones, retimed |
| Findings.CorrectedDivRetimed | src/tb/scr1_pipe_ialu/ialu_model/gold_test_vectors.py:125-205 | the corrected DIV vectors are the gold ones retimed, with new quotients at indices 4 and 7 only |
| Findings.CorrectedMulConforms | src/tb/scr1_pipe_ialu/ialu_model/gold_test_vectors.py:69-124 | every corrected MUL vector agrees with the model |
| Findings.CorrectedDivConforms | src/tb/scr1_pipe_ialu/ialu_model/gold_test_vectors.py:125-205 | every corrected DIV vector but 7 agrees with the model for any overflow word; vector 7 agrees exactly when the word is 0x80000000 |
| Findings.CorrectedPrefix | src/tb/scr1_pipe_ialu/ialu_model/test.py:5-47 | on the corrected corpus the prelude and the ADD, SUB and MUL groups pass, leaving the unit idle |
| Findings.CorrectedGoldPasses | src/tb/scr1_pipe_ialu/ialu_model/test.py:5-47 | from any initial state, the corrected corpus passes exactly when the overflow word is 0x80000000, and otherwise fails at DIV vector 7 with that word as res |

## Left out

- Random initial state: the constructor (ialu.py:65-77) draws the inputs,
  outputs, latch and counter at random. The model takes them as an arbitrary
  `State` parameter, with the counter below RVM_DELAY.
- numpy's float division: ialu.py:148-151 divides two int32 values as floats
  and converts the quotient back to int32.
  - For every quotient other than INT32_MIN / -1, this is exact truncation
    toward zero, and the model computes it that way.
  - For INT32_MIN / -1 the conversion overflows and its value is
    platform-defined. The model takes it as the parameter `divOverflow`.
- Ialu.IALU.constructor: the assertion that fast multiplication requires
  the "M" extension (ialu.py:59-60) becomes a precondition.
- Ialu.IALU.SetInputOp1: the source accepts any Python int, but the model
  takes a 32-bit word. SetInputOp2 and the TestVector fields op1, op2 and res
  do the same. Every caller and every gold vector passes 32-bit values.
- TestVector's `delay` is a natural number, while the source's is any int.
  A negative delay, for which `range(DELAY)` runs no ticks, cannot be
  expressed. No gold vector has one.
- Ialu.IALU.SetInputCmd: takes a `Cmd`. A value outside the enumeration,
  which would match no case of `tick`, cannot be expressed.
- Ialu.IALU.Tick: Python's bare `raise` (ialu.py:100-101) and its failed
  `assert`s are returned as a `Fault` value, and the unit is left unchanged.
  The model does not distinguish exception types.
- `rst_n`, `rvm_cmd_vd` and `rvm_res_rdy` are read the way Python reads
  truthiness: zero against nonzero.
- The cocotb benches (ialu_test.py, ialu_test/basic_test.py,
  ialu_test/random_test.py) and runner.py drive the hardware simulator and
  generate random stimulus. They are not part of this model.
- runner.py:11 calls `ialu_model.test.run`, but test.py defines only
  `_test` (test.py:5). The model follows `_test`.
- The comparator in test.py reads the gold table as a dictionary keyed by
  group. The model keeps it as a sequence of (group, vectors) pairs in the
  dictionary's insertion order.

## Findings

| source | as written | input that shows it | evidently intended | confidence | as-written member | corrected member |
|---|---|---|---|---|---|---|
| src/tb/scr1_pipe_ialu/ialu_model/gold_test_vectors.py:70-78 | the Cmd comments at ialu.py:32-33 give 32 ticks for a multi-cycle MUL and for DIV; the MUL/DIV vectors follow that, apart from the two zero-divisor DIV vectors (gold_test_vectors.py:135-142, 152-159), which wait 1 tick as the tick's division-by-zero path does (GoldTestVectors.GoldDelays); but the model at ialu.py:117-134 completes after 31 ticks for equal operands and after 1 tick for any zero operand, so test.py:43-44 sees ready set early | MUL 0xFFFFFFFF * 0xFFFFFFFF with delay 32: ready is 1 after tick 30, and the run stops there; likewise MUL 0 * 0 and DIV 0 / 0xFFFFFFFF at tick 0 | the vectors and the tick disagree, and the source does not say which is wrong; this model takes the tick as the reference and retimes each vector to its latency (31 for equal operands, 1 for a zero operand); the other possible fix is to drop the equal-operand and zero-operand shortcuts from the tick, after which the tick agrees with the vectors (not with the comments, since a DIV by zero still completes in 1 tick through its own path at ialu.py:117-119, 133) | medium, not executed | GoldOutcomes.GoldRunHalts | Findings.CorrectedGoldPasses |
| src/tb/scr1_pipe_ialu/ialu_model/gold_test_vectors.py:160-168 | the DIV vector expects the unsigned quotient 2, while the model divides the int32 readings | 0xAAAAAAAA / 0x55555555: the model stores 0xFFFFFFFF (-1431655766 / 1431655765 truncates to -1) | the signed quotient 0xFFFFFFFF | high, not executed | GoldOutcomes.GoldDivOutcomes | Findings.CorrectedDivConforms |
| src/tb/scr1_pipe_ialu/ialu_model/gold_test_vectors.py:187-195 | the vector expects 0 for INT32_MIN / -1, whose float-to-int32 conversion in the model has no defined value | 0x80000000 / 0xFFFFFFFF passes only if the platform's overflow word is 0 | 0x80000000, the overflow quotient of the RISC-V M extension's DIV | medium, not executed | GoldTestVectors.GoldDivUnsigned | Findings.CorrectedGoldPasses |

# opa-py-wasm: verified model

A Dafny model of the thread-safe evaluator for OPA policies compiled to Wasm: the instance pool
with its shutdown protocol, the policy facade with its versioned data and its epoch ticker, the
single instance with its guest heap, and the self-contained loops around them. All statements are
for every input, every run and every number of threads. Check it with
`dafny verify dfyconfig.toml`.

## How it is built

- `Pool`, `PoolInvariant`, `PoolTheorems`: `pool.py` as a step system. One queue operation, flag
  read, flag write, counter update, lock operation or instance close is one atomic step of one
  thread; a schedule is any interleaving. `EffectOf` gives the effect of each statement. History
  fields record the instances built, closed, lost by a full queue, and caught on their way back by
  `close()`. Safety is one inductive invariant made of conservation laws (`Sums`).
- `PoolSerial`, `PolicySerial`: what each operation achieves when its thread runs alone from any
  reachable state, as exact end states (`Does`: the thread's own steps, one operation), and `set_data`
  with other threads running between its statements.
- `PoolObject`: the non-blocking bodies (drain loop, `close()` under its lock, `_take_slot` after
  the draw, `_release`) as methods, with every other thread free to run between any two statements.
- `Policy`, `PolicyInvariant`, `PolicyTheorems`, `PolicyProgress`, `Ticker`: `policy.py` around the pool and the
  ticker. A policy step is one statement of the facade or one step of the pool or the ticker on the
  thread's behalf, so the pool's theorems carry over by projection.
- `Guest`, `SampleGuest`: the guest exports as function values with the contract of
  `docs/opa_abi.md` stated as `Lawful`, and a guest that meets it. `Instance`, `Reuse`: store, data
  manager and instance as classes over guest memory, a bump pointer, a deadline and a poison flag.
  `InstanceView` is the part of an instance the facade sees; the class methods are proved to have
  the effects that the facade's steps are built from.
- `CString`, `Instantiation`, `Sprintf`, `ExceptionChain`, `Registry`: one loop or one object each.
  `RaiseFrom` is what Python does to the links on `raise error from exc` in the handler of `exc`: set
  cause and context, and clear the first context link on the chain of `exc` that leads to the error.

## Where code and prose differ

The model follows the code.

- The heap is reset on the success path and before the guest is entered, not in a `finally` as
  docs/guide.md:370 and docs/opa_abi.md:91 say; a failed evaluation poisons instead.
- "At most `max_size` live instances" (pool.py:88) does not hold: `_release` gives the slot back
  before it closes the discarded instance. `LiveCanExceedMaxSize` is a run, `LiveBound` the exact count.
- The renderer of `sprintf` falls back to `str` on TypeError and ValueError only (builtins.py:104-107),
  so output is not "sensible for any JSON value" (builtins.py:53): Python raises OverflowError for
  character 0x110000 or an integer too large for a float. `EndsExactly` says when it fails,
  `EnoughOperandsCanFail` is such an input.
- Neither code nor docs rule out that a loan's body borrows again: builtins may be re-entrant
  (builtins.py:181), and with every instance on loan to evaluations that evaluate again from a builtin
  the policy waits for itself. `StuckExactly` and `PolicyStuckExactly` say exactly when,
  `NestedBorrowBlocks` and `NestedEvaluationBlocks` are runs; `close()` still frees it.
- "`close()` closes every instance" (pool.py:285) has one window: a release that read the flag as
  unset can put a healthy instance back after the drain. `DisposalCanMissOne` is a run,
  `DisposalExactly` says exactly when no run loses one.

## Model

| member | source | states |
|---|---|---|
| PoolInvariant.StepInv | opapywasm/pool.py:155-310 | every statement of every thread keeps ownership, lock and phase discipline, slot conservation, creation accounting, the wake-up guarantee and the disposal bookkeeping |
| PoolTheorems.ExclusiveOwnership | opapywasm/pool.py:155-252 | in every reachable state an instance exists iff it is in exactly one place: one queue position, one thread's hands, closed, or lost by a full queue; none is closed twice |
| PoolTheorems.SlotConservation | opapywasm/pool.py:176-252 | while open, idle slots plus slots in hand equal max_size, no put finds the queue full and nothing is dropped; loans never exceed max_size, open or closed |
| PoolTheorems.CreationAccounting | opapywasm/pool.py:232-261 | created never exceeds max_size plus recreated, and lags the instances built by exactly those in flight, through failures, discards and close |
| PoolTheorems.LiveBound | opapywasm/pool.py:238-245 | open or closed, the live instances are exactly those built and neither closed nor lost, and exactly max_size plus those about to be closed minus the vacant slots and the slots shutdown has retired (none while open); so max_size is exceeded iff the former outnumber the latter |
| PoolTheorems.LiveCanExceedMaxSize | opapywasm/pool.py:242-243 | a run with max_size + 1 live instances |
| PoolTheorems.NoLostWakeUp | opapywasm/pool.py:189-210 | once the flag is set, an empty queue means some thread that can move still has its wake sentinel to post |
| PoolTheorems.DrainTerminates | opapywasm/pool.py:299-305 | after the flag is set the drain removes at most max_size plus one slot per thread, in any continuation, however many operations start |
| PoolTheorems.DrainMeasureStep | opapywasm/pool.py:299-305 | queue length plus puts still ahead never rises in a closed pool and falls with every drained slot |
| PoolTheorems.ShutdownQuiesces | opapywasm/pool.py:282-310 | in a closed pool every run is bounded by the work at its start plus four steps per operation started, and can be stuck only when every thread has left: no waiter blocks forever, under any scheduler, without relying on a timeout |
| PoolTheorems.StuckExactly | opapywasm/pool.py:155-252 | with any set of loans suspended because their body borrows again: while another operation is in progress, none can take its next step without a timeout iff the pool is open, the queue empty and they all wait on it; then all max_size slots are on loan to suspended threads; so a closed pool is never stuck |
| PoolTheorems.NeverStuck | opapywasm/pool.py:155-252 | with no borrow nested in a loan, open or closed, some operation can move while any is in progress; an empty open queue means a thread with a slot in hand that can move |
| PoolTheorems.NestedBorrowBlocks | opapywasm/pool.py:176-203 | a run in which a pool of one slot is stuck because its borrower borrows again |
| PoolTheorems.NoAdmissionAfterClose | opapywasm/pool.py:186-203 | once the flag is set the number of threads building, refreshing or on loan never rises, and only discards that had already read the flag as unset still count as recreations |
| PoolTheorems.DisposalAtQuiescence | opapywasm/pool.py:282-310 | when all threads have left a closed pool, every instance is closed except those being returned when the flag was set and put back after the drain; those sit in the queue or were lost |
| PoolTheorems.DisposalExactly | opapywasm/pool.py:236-245 | at the step that sets the flag: every continuation ends with all instances closed iff no release has read the flag as unset and still has its put ahead |
| PoolTheorems.DisposalCanMissOne | opapywasm/pool.py:236-245 | a run that ends with close() returned, all threads gone and an instance never closed |
| PoolObject.OpaInstancePool.constructor | opapywasm/pool.py:105-129 | a pool of max_size placeholders is the initial state |
| PoolObject.OpaInstancePool.CheckDrawn | opapywasm/pool.py:189-203 | under any interference, a slot drawn from a pool that stays open is admitted; one drawn after the flag is set never leads to a loan, and a real instance drawn that way is closed by the same call |
| PoolObject.OpaInstancePool.Release | opapywasm/pool.py:232-245 | under any interference, a bad instance, or any instance released into a closed pool, is closed by the same call, and a discard counted if the pool is still open; a healthy one is last in the queue on return unless close() came in between and it was closed or lost |
| PoolObject.OpaInstancePool.PutBack | opapywasm/pool.py:245-252 | the instance is last in the queue, or the pool is closed and the queue was full |
| PoolObject.OpaInstancePool.Discard | opapywasm/pool.py:238-243 | the instance is closed by the same call, and the recreation is counted when the flag was read as unset |
| PoolObject.OpaInstancePool.DrainOne | opapywasm/pool.py:300-305 | one turn ends the drain on an empty queue or lowers the drain measure, whatever others do |
| PoolObject.OpaInstancePool.Drain | opapywasm/pool.py:299-305 | the drain loop terminates under any interference and ends on an empty queue |
| PoolObject.OpaInstancePool.CloseLocked | opapywasm/pool.py:293-310 | close() returns with the flag set, a drain completed and the wake sentinel posted |
| PoolSerial.BorrowReuses | opapywasm/pool.py:162-172 | alone on an open pool with an idle instance at the head of the queue: that instance is lent and nothing else changes |
| PoolSerial.BorrowBuilds | opapywasm/pool.py:254-261 | with a placeholder at the head: one new instance is built, counted and lent |
| PoolSerial.BorrowSurvivesFactory | opapywasm/pool.py:232-235 | a factory that fails leaves the pool as it was, the placeholder at the end of the queue |
| PoolSerial.BorrowGivesUp | opapywasm/pool.py:162-186 | a closed pool refuses and an empty one, but no other, may time out, with nothing changed |
| PoolSerial.WaiterIsWoken | opapywasm/pool.py:189-203 | a waiter woken in a closed pool leaves a sentinel behind for the next |
| PoolSerial.ReturnRequeues | opapywasm/pool.py:245-252 | a healthy instance goes to the end of an open pool's queue and nothing else changes |
| PoolSerial.DiscardReplaces | opapywasm/pool.py:238-243 | a bad one is closed, replaced by a placeholder and counted |
| PoolSerial.ReturnAfterClose | opapywasm/pool.py:236-243 | in a closed pool every instance that comes back is closed, and none counted |
| PoolSerial.CloseDisposes | opapywasm/pool.py:293-310 | the first close() sets the flag, closes exactly the idle instances and leaves one sentinel in the queue |
| PoolSerial.CloseAgain | opapywasm/pool.py:293-310 | a later close() changes nothing |
| Ticker.OneTickerThread | opapywasm/runtime.py:124-158 | at most one ticker thread is ever started by any racing callers; after any close() has returned none starts in any continuation, the stop event stays set and no handle remains |
| Ticker.EnsureStarts | opapywasm/runtime.py:124-134 | once a call of ensure_running has returned, in any continuation, the one ticker thread is running or the ticker has been told to stop |
| Ticker.EnsureAlone | opapywasm/runtime.py:124-134 | on a new ticker one call starts the thread and changes nothing else |
| Ticker.TickerStep | opapywasm/runtime.py:124-158 | every statement keeps the lock discipline and the start/stop ordering that this rests on |
| PolicyInvariant.StepInv | opapywasm/policy.py:163-333 | every step of the facade, the pool or the ticker keeps the whole invariant: stage coupling, active count, stop decision, published documents, instance states |
| PolicyTheorems.TickerSafety | opapywasm/policy.py:277-333 | once any thread has decided to stop the ticker, no thread holds a loan or is past the pool's entry check, now or in any continuation |
| PolicyTheorems.TickerRunsDuringLoans | opapywasm/instance.py:106-111 | with deadlines configured, whenever a loan is out the one ticker thread is running and not asked to stop, started by the probe or by the first build |
| PolicyTheorems.NoTickerWithoutDeadlines | opapywasm/instance.py:110-111 | without deadlines no ticker thread is ever started |
| PolicyTheorems.TickerNotLeftRunning | opapywasm/policy.py:315-333 | policy closed, nothing active, no thread between decision and factory close: the stop has been requested |
| PolicyProgress.PolicyStuckExactly | opapywasm/policy.py:163-333 | with any set of evaluations suspended in a host builtin that evaluates on the same policy: across the pool's queue and lock, the ticker's lock and the facade, no other operation in progress can take its next step without a timeout iff they are all borrows waiting on the empty queue of an open pool; then pool_size instances are on loan to suspended evaluations; so a closing policy is never stuck |
| PolicyProgress.PolicyNeverStuck | opapywasm/policy.py:163-333 | with no evaluation nested in a builtin, no deadlock in any reachable state, open or closed |
| PolicyProgress.NestedEvaluationBlocks | opapywasm/policy.py:277-282 | a run in which a policy with one instance is stuck because a builtin evaluates on it |
| PolicyProgress.ShutdownCompletes | opapywasm/policy.py:304-333 | once close() has set the pool's flag, a run is bounded by the work at its start plus a constant per operation begun, and can be stuck only with every thread outside, the policy marked closed, nothing active, the ticker told to stop and its handle taken |
| PolicyTheorems.DataFreshness | opapywasm/policy.py:215-258 | every evaluation ran against a published (document, version) pair no older than the version when its borrow began |
| PolicyTheorems.FreshAfterSetData | opapywasm/policy.py:172-186 | after any state, only evaluations of borrows already in progress there may run below that state's version |
| PolicySerial.SetDataPublishes | opapywasm/policy.py:182-191 | whatever other threads do between its statements: on a policy open at the check, set_data makes its document the published one under the next version; on a closed one it leaves without effect |
| PolicySerial.NoPublishingAfterClose | opapywasm/policy.py:182-191 | once the policy is closed, only calls already past their check can still publish |
| PolicyTheorems.ReloadMovesForward | opapywasm/pool.py:275-278 | an instance is reloaded only when behind, and always to a later version |
| PolicyTheorems.NoTornData | opapywasm/instance.py:138-153 | every unpoisoned instance was last loaded with exactly the document published under its version tag, and holds it whole, even while an evaluation runs on it, except during a reload, when the reloading thread alone has it |
| PolicyTheorems.QueuedInstancesArePristine | opapywasm/pool.py:236-245 | every instance in the idle queue is unpoisoned, carries no live deadline, has its heap at the checkpoint and its data region intact, and is in nobody's hands |
| PolicyTheorems.EvaluationsAreDisjoint | opapywasm/pool.py:155-174 | two threads inside the guest are always on different instances |
| PolicyTheorems.EvaluationIsAtomic | opapywasm/evaluator.py:143-170 | whatever other threads do between guest entry and its end, an evaluation changes its instance exactly as `Instance.PolicyInstance.Evaluate` is proved to: not at all on an answer, poisoned with the document still intact on a failure |
| PolicyTheorems.ReloadIsAtomic | opapywasm/pool.py:275-278 | whatever other threads do while a reload is half done, it changes its instance exactly as `Instance.PolicyInstance.ReloadData` is proved to, for the pair read under the data lock |
| PolicyTheorems.BuildsAsProved | opapywasm/policy.py:243-258 | the instance the pool receives from the factory is the one added to the instances, in the state proved of `Instance.Build`, with the pair read under the data lock |
| PolicyTheorems.PoisonedIsDiscarded | opapywasm/instance.py:148-181 | after a failure past guest entry or during a reload the instance is never queued, lent or returned again in any continuation |
| PolicySerial.EvaluateAlone | opapywasm/policy.py:277-282 | alone on an open policy with an idle instance: exactly one guest entry, on the document and version published when it began; the instance ends at the back of the queue, brought up to date; nothing else changes |
| PolicySerial.BorrowLends | opapywasm/pool.py:275-278 | an idle instance is lent with the published document, reloaded if and only if it is behind |
| PolicySerial.BorrowBuilds | opapywasm/policy.py:243-258 | a placeholder becomes a new instance with the published pair, on loan, with the ticker started if deadlines need it |
| PolicySerial.EvaluateRefused | opapywasm/pool.py:162-163 | a closed pool turns an evaluation away before anything has changed |
| PolicySerial.AnswerReturns | opapywasm/policy.py:277-282 | an answered evaluation is one guest entry, and the instance goes back as it was |
| PolicySerial.RejectionReturns | opapywasm/evaluator.py:131-134 | a rejected input never enters the guest, and the instance goes back as it was |
| PolicySerial.FailureDiscards | opapywasm/instance.py:174-181 | a failure in the guest gets the instance closed, counted and replaced by a placeholder |
| PolicySerial.ReloadFailureDiscards | opapywasm/instance.py:148-153 | so does a failed reload, without a guest entry |
| PolicySerial.BuildFailureRestores | opapywasm/pool.py:232-235 | a failed build leaves the policy as it was |
| PolicySerial.CloseAlone | opapywasm/policy.py:304-320 | the first close() closes the pool with its idle instances, marks the policy closed, and stops the ticker itself iff no evaluation is active |
| PolicyTheorems.PoolProjection | opapywasm/policy.py:277-282 | every run of the policy is, for its pool, a run of the pool |
| PolicyTheorems.PolicyPoolIsReachable | opapywasm/policy.py:82-88 | so every theorem about reachable pools holds inside every reachable policy |
| Instance.Store.WriteBytes | opapywasm/memory.py:93-101 | a written buffer lies between the old and the new heap pointer, inside memory, holds the data, and nothing below the old pointer changes |
| Instance.Store.HeapPtrSet | opapywasm/abi.py:290-291 | the setter traps exactly when the epoch has reached the deadline in force, and otherwise moves the pointer and nothing else |
| Instance.DataManager.constructor | opapywasm/data.py:48-58 | starts with no document and the checkpoint at the initial heap pointer |
| Instance.DataManager.ToOpaValue | opapywasm/memory.py:218-226 | a parsed document's whole representation lies between the old and the new heap pointer |
| Instance.DataManager.LoadData | opapywasm/data.py:81-110 | success leaves exactly the new document intact with the heap at its end, and that end within the document's own allocation cost above the initial heap, whatever was loaded before; failure leaves no document; a willing guest and an admissible document succeed |
| Instance.DataManager.ResetHeapToCheckpoint | opapywasm/data.py:70-79 | the heap pointer goes back to the checkpoint and memory is untouched |
| Instance.PolicyInstance.ReloadData | opapywasm/instance.py:138-153 | the version moves only together with the document; any failure poisons; a willing guest fails an admissible document only 2^40 ticks or more after the deadline was last put off |
| Instance.PolicyInstance.CallEval | opapywasm/evaluator.py:155-163 | with the input buffer and the data region below the heap base, the answer is the policy's decision on document and input, and the data region is not written |
| Instance.PolicyInstance.RunGuest | opapywasm/evaluator.py:138-170 | the recipe answers with the decision, restores the heap to the checkpoint, leaves only the far-future deadline and never writes the data region; armed first and relative to the current epoch, it has no answer once its own budget is used up, and with a willing guest answers whenever it is not, whatever deadline it found |
| Instance.PolicyInstance.Evaluate | opapywasm/instance.py:166-181 | rejected exactly on a bad or oversize input, with the instance unharmed; answers are the decision on the loaded document; every other end poisons; no answer is oversize or comes after the tick budget, and a willing guest fails only by using that up |
| Instance.Build | opapywasm/instance.py:49-111 | a built instance is pristine and carries the initial document and version; with a willing guest and an admissible document it is built unless that takes 2^40 ticks |
| Reuse.Session | opapywasm/evaluator.py:131-170 | through any sequence of loads and evaluations, each answer depends only on the last loaded document and the question; answers come only within the budget; the sequence ends early only on poison, and with a willing guest only when a query outlasts its budget or a load comes 2^40 ticks after the last disarm; however long it is, the heap pointer ends within the allocation cost of the last document alone, so nothing leaks |
| Reuse.ReusedLikeFresh | opapywasm/data.py:81-110 | an instance with any unpoisoned past and a fresh one loaded with only the last document, on different memories and clocks, give the same answer; with a willing guest and both in time, both answer |
| SampleGuest.ContractIsSatisfiable | docs/opa_abi.md:93-112 | some guest meets the assumed contract, never fails and allocates at known costs |
| CString.ReadCString | opapywasm/memory.py:108-141 | returns exactly the bytes before the first NUL iff that NUL is inside memory at an offset below the cap |
| CString.ReadJsonCString | opapywasm/memory.py:200-214 | a string of n bytes is accepted iff terminated in memory, n below the cap, n within the limit and well formed |
| Instantiation.Instantiate | opapywasm/runtime.py:272-338 | a cap below 2 pages is refused, no attempt exceeds a configured cap, without one the ceiling is 16384 pages; the attempts are the doubling schedule up to the first that does not overflow or to the ceiling, the outcome is that of the last; a module needing `need` pages is instantiated iff it fits; every store opened is closed except the one kept |
| Instantiation.RetryIsTight | opapywasm/runtime.py:320-333 | for a module needing `need` pages: success iff need fits the ceiling, the size found is below twice the need, a retry after k attempts only if 2^k pages were too few |
| Sprintf.Format | opapywasm/builtins.py:64-80 | the loop computes the rendering of the scanned tokens; it raises the renderer's error iff some operand is refused for its verb, "not enough arguments" iff none is refused and there are fewer operands than operand-taking verbs, and gives text otherwise |
| Sprintf.ScanIsTheTokenisation | opapywasm/builtins.py:44-67 | the scan is the one and only split into leftmost non-overlapping matches of the verb pattern |
| Sprintf.VerbLengthExact | opapywasm/builtins.py:44 | skipping flags finds the match at a position iff the pattern matches there, and then in one way only |
| Sprintf.ScanLosesNothing | opapywasm/builtins.py:67-79 | literals and verbs in order concatenate back to the format |
| Sprintf.EndsExactly | opapywasm/builtins.py:71-78 | the three ends of a rendering, each by an exact condition on verbs, operands and renderer |
| Sprintf.RaisesTheFirst | opapywasm/builtins.py:74-78 | the error that surfaces is that of the first operand refused, even when later operands are missing |
| Sprintf.SurplusIsIgnored | opapywasm/builtins.py:71-78 | the operands used are exactly the first as many as there are verbs other than the double percent |
| Sprintf.EnoughOperandsCanFail | opapywasm/builtins.py:104-107 | formatting character number 0x110000 fails with exactly the operand needed, and fails the same way where a second operand is missing |
| Sprintf.EscapeRoundTrip | opapywasm/builtins.py:71-73 | doubling every percent sign and formatting with no operands gives the string back |
| Sprintf.PlainLaw | opapywasm/builtins.py:67-79 | text without a percent sign is passed on |
| Sprintf.VerbLaw | opapywasm/builtins.py:44-78 | each verb of the pattern, with any flags, is replaced by the renderer's text for the next operand, or fails for want of one |
| Sprintf.PercentLaw | opapywasm/builtins.py:71-73 | a double percent sign becomes one and takes no operand |
| Sprintf.StrayLaw | opapywasm/builtins.py:44 | a percent sign with flags and then neither flag nor conversion is passed on |
| Sprintf.VerbsExactly | opapywasm/builtins.py:44 | the verbs are exactly a percent sign, characters of the flag class and one of the conversion class |
| ExceptionChain.FindTyped | opapywasm/evaluator.py:57-71 | terminates on every finite graph, cycles included; returns the first SDK error on the path, and none only if the whole path has none |
| ExceptionChain.IsEpochInterrupt | opapywasm/evaluator.py:39-54 | true iff the message of some exception on the path, in lower case, contains "interrupt" or "epoch" |
| ExceptionChain.MentionsExactly | opapywasm/evaluator.py:50-52 | a message counts iff some part of it spells "interrupt" or "epoch" in any mix of cases |
| ExceptionChain.Translate | opapywasm/evaluator.py:174-186 | the SDK's own error is re-raised iff the path holds one; otherwise a timeout iff the guest was entered and the path mentions an interrupt; otherwise a plain failure |
| ExceptionChain.ReRaiseCycleExactly | opapywasm/evaluator.py:179-181 | after the re-raise the path from the recovered error runs through everything searched; it returns to that error iff the search did not enter it by the context link the interpreter clears, and otherwise ends there |
| ExceptionChain.ContextPathIsCut | opapywasm/evaluator.py:60-62 | an error that survived on context links alone is re-raised without a cycle |
| ExceptionChain.ReRaiseOfTwo | opapywasm/evaluator.py:60-62 | on a trap wrapping the error as its context the path ends, as its cause it is cyclic |
| Registry.BuiltinRegistry.Update | opapywasm/builtins.py:189-211 | exactly when a change is accepted, what the name is bound to then, that other names keep their binding, that an accepted change publishes a fresh dictionary, a rejected one changes nothing, and no existing dictionary is written |
| Registry.History | opapywasm/builtins.py:185-223 | after any history, every snapshot ever taken still shows the fold of the operations before it, and the live dictionary the fold of all |
| Registry.NamesAreIndependent | opapywasm/builtins.py:189-211 | what a name is bound to depends only on the operations on that name |
| Registry.LastWord | opapywasm/builtins.py:189-211 | through any history before and operations on other names after, the last operation on a name decides its binding |

## Left out

- Wasmtime: engine, linker, traps and the native free-list appear only as attempt outcomes, open or closed stores, and trapped or returned calls.
- The guest's own code: known only by the contract `Lawful`; free lists and heap stash are not modelled, and host builtins called during an evaluation count as part of it.
- JSON and YAML encoding, decoding and validation: documents are byte strings, "is it valid" is a parameter.
- `_format_verb`: Python's percent formatting is a parameter of the scanner that may render or raise.
- Wall-clock time: deadlines, budgets and idle time are in ticks of the engine's epoch; how many ticks a second has is not modelled. In the facade's steps a deadline is only live or far-future.
- Blocking inside `queue.get` and lock acquisition: a blocked thread is one with no enabled step; the imperative methods of `PoolObject` start after the blocking point.
- Instance.Store.HeapPtrSet: does not model traps other than deadline expiry, because the export only writes a global.
- `abi.py` export validation, `PolicyConfig` range checks, `_simplify_result`, `_resolve_entrypoint`, file and stream constructors, logging, error messages: flat branching or plumbing.
- The metadata probe of the policy constructor: only its call of ensure_running is kept, as an option of the initial state that no result relies on.
- `str.lower` outside ASCII: no other character folds into a letter sequence of the two words searched for.
- Asynchronous interrupts between statements, such as KeyboardInterrupt.

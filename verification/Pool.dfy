/**
 The instance pool as a step system. Any number of threads interleave `borrow`, `_take_slot`,
 `_release` and `close`; one queue operation, one read or write of the closed flag, one counter
 update, one lock operation or one instance close is one atomic step of one thread.
 */
module Pool {
  import opened Types

  type Inst = nat

  /** What the bounded idle queue holds: a lazy placeholder, an instance, or the close sentinel. */
  datatype Slot = Placeholder | Real(inst: Inst) | Sentinel

  /** Program counter of one thread: the statement of pool.py it is about to execute. */
  datatype Pc =
    | Idle
    // borrow and _take_slot
    | BorrowEntry               // about to read the flag on entry
    | Waiting                   // at the blocking queue get
    | Drew(slot: Slot)          // slot drawn, about to re-check the flag
    | DropDrawn(inst: Inst)     // rejected: about to close the drawn instance
    | Repost                    // rejected: about to post the wake sentinel
    | Building                  // inside the factory call
    | Built(inst: Inst)         // factory returned, creation not yet counted
    | Refreshing(inst: Inst)    // inside the staleness check and reload
    | Loaned(inst: Inst)        // the caller's with-block is running
    // _release
    | Restoring                 // no instance was built: about to put the placeholder back
    | Releasing(inst: Inst, bad: bool) // about to read the flag; bad = discarded or poisoned
    | Recreating(inst: Inst)    // flag read as unset, about to count the recreation
    | Vacating(inst: Inst)      // about to put the placeholder for a discarded instance
    | Disposing(inst: Inst)     // about to close the discarded instance
    | Returning(inst: Inst)     // flag read as unset, about to put the healthy instance
    // close
    | CloseEntry                // about to acquire the close lock
    | CloseCheck                // holding the lock, about to read the flag
    | CloseSet                  // about to set the flag
    | Draining                  // at the non-blocking get of the drain loop
    | DrainClosing(inst: Inst)  // about to close a drained instance
    | Posting                   // drain over, about to post the wake sentinel
    | Unlocking                 // about to release the lock

  /** Who acts is the thread; Event says how its next step resolves. */
  datatype Event =
    | StartBorrow
    | StartClose
    | Step
    | TimeOut
    | FactoryFails
    | RefreshFails(bad: bool)
    | EndLoan(bad: bool)

  /**
   Fields up to `threads` are the source's; the rest is history: how many instances the factory
   returned, how often each was closed, which were lost by a put into a full queue, which were on
   their way back when the flag was set, which came back after the drain, and how far close() got.
   */
  datatype State = State(
    maxSize: nat,
    idle: seq<Slot>,
    closed: bool,
    lock: Option<Tid>,
    created: nat,
    recreated: nat,
    threads: seq<Pc>,
    next: nat,
    closes: multiset<Inst>,
    dropped: set<Inst>,
    atRisk: set<Inst>,
    late: set<Inst>,
    drained: bool,
    posted: bool)

  function Init(threads: nat, maxSize: nat): State {
    State(maxSize, seq(maxSize, _ => Placeholder), false, None, 0, 0, seq(threads, _ => Idle),
          0, multiset{}, {}, {}, {}, false, false)
  }

  predicate Enabled(s: State, t: Tid, e: Event) {
    && t < |s.threads|
    && match s.threads[t]
       case Idle => e.StartBorrow? || e.StartClose?
       case Waiting => if s.idle == [] then e.TimeOut? else e.Step?
       case Building => e.Step? || e.FactoryFails?
       case Refreshing(_) => e.Step? || e.RefreshFails?
       case Loaned(_) => e.EndLoan?
       case CloseEntry => e.Step? && s.lock.None?
       case _ => e.Step?
  }

  /** The step's queue operation: none, a get, or a put_nowait whose queue.Full is swallowed. */
  datatype QueueOp = Keep | Take | Offer(slot: Slot)

  /** The step's other shared effect. */
  datatype SharedOp =
    | Nothing
    | Allocates           // the factory returns a fresh instance
    | CountsCreation
    | CountsRecreation
    | Closes(inst: Inst)
    | Locks
    | Unlocks
    | SetsFlag
    | EndsDrain
    | PostsWake

  datatype Effect = Effect(pc: Pc, queue: QueueOp, shared: SharedOp)

  /** What thread t's next statement does, statement by statement of pool.py. */
  function EffectOf(s: State, t: Tid, e: Event): Effect
    requires Enabled(s, t, e)
  {
    match s.threads[t]
    case Idle => Effect(if e.StartBorrow? then BorrowEntry else CloseEntry, Keep, Nothing)
    case BorrowEntry => Effect(if s.closed then Idle else Waiting, Keep, Nothing)
    case Waiting => if e.TimeOut? then Effect(Idle, Keep, Nothing) else Effect(Drew(s.idle[0]), Take, Nothing)
    case Drew(slot) =>
      if slot.Sentinel? || s.closed then
        Effect(if slot.Real? then DropDrawn(slot.inst) else Repost, Keep, Nothing)
      else
        Effect(if slot.Real? then Refreshing(slot.inst) else Building, Keep, Nothing)
    case DropDrawn(i) => Effect(Repost, Keep, Closes(i))
    case Repost => Effect(Idle, Offer(Sentinel), Nothing)
    case Building => if e.FactoryFails? then Effect(Restoring, Keep, Nothing) else Effect(Built(s.next), Keep, Allocates)
    case Built(i) => Effect(Refreshing(i), Keep, CountsCreation)
    case Refreshing(i) => Effect(if e.RefreshFails? then Releasing(i, e.bad) else Loaned(i), Keep, Nothing)
    case Loaned(i) => Effect(Releasing(i, e.bad), Keep, Nothing)
    case Restoring => Effect(Idle, Offer(Placeholder), Nothing)
    case Releasing(i, bad) =>
      Effect(if s.closed then Vacating(i) else if bad then Recreating(i) else Returning(i), Keep, Nothing)
    case Recreating(i) => Effect(Vacating(i), Keep, CountsRecreation)
    case Vacating(i) => Effect(Disposing(i), Offer(Placeholder), Nothing)
    case Disposing(i) => Effect(Idle, Keep, Closes(i))
    case Returning(i) => Effect(Idle, Offer(Real(i)), Nothing)
    case CloseEntry => Effect(CloseCheck, Keep, Locks)
    case CloseCheck => Effect(if s.closed then Unlocking else CloseSet, Keep, Nothing)
    case CloseSet => Effect(Draining, Keep, SetsFlag)
    case Draining =>
      if s.idle == [] then Effect(Posting, Keep, EndsDrain)
      else Effect(if s.idle[0].Real? then DrainClosing(s.idle[0].inst) else Draining, Take, Nothing)
    case DrainClosing(i) => Effect(Draining, Keep, Closes(i))
    case Posting => Effect(Unlocking, Offer(Sentinel), PostsWake)
    case Unlocking => Effect(Idle, Keep, Unlocks)
  }

  function IdleAfter(s: State, op: QueueOp): seq<Slot>
    requires op.Take? ==> s.idle != []
  {
    match op
    case Keep => s.idle
    case Take => s.idle[1..]
    case Offer(slot) => if |s.idle| < s.maxSize then s.idle + [slot] else s.idle
  }

  /** Instances whose release has read the flag as unset and is about to put them back. */
  function BeingReturned(threads: seq<Pc>): set<Inst> {
    set t | 0 <= t < |threads| && threads[t].Returning? :: threads[t].inst
  }

  function Next(s: State, t: Tid, e: Event): State
    requires Enabled(s, t, e)
  {
    var eff := EffectOf(s, t, e);
    var offersInst := eff.queue.Offer? && eff.queue.slot.Real?;
    State(
      s.maxSize,
      IdleAfter(s, eff.queue),
      s.closed || eff.shared.SetsFlag?,
      if eff.shared.Locks? then Some(t) else if eff.shared.Unlocks? then None else s.lock,
      if eff.shared.CountsCreation? then s.created + 1 else s.created,
      if eff.shared.CountsRecreation? then s.recreated + 1 else s.recreated,
      s.threads[t := eff.pc],
      if eff.shared.Allocates? then s.next + 1 else s.next,
      if eff.shared.Closes? then s.closes + multiset{eff.shared.inst} else s.closes,
      if offersInst && |s.idle| >= s.maxSize then s.dropped + {eff.queue.slot.inst} else s.dropped,
      if eff.shared.SetsFlag? then BeingReturned(s.threads) else s.atRisk,
      if offersInst && s.drained then s.late + {eff.queue.slot.inst} else s.late,
      s.drained || eff.shared.EndsDrain?,
      s.posted || eff.shared.PostsWake?)
  }

  /** A schedule is any finite interleaving: which thread moves and how its step resolves. */
  type Schedule = seq<(Tid, Event)>

  predicate Legal(s: State, run: Schedule)
    decreases |run|
  {
    run == [] || (Enabled(s, run[0].0, run[0].1) && Legal(Next(s, run[0].0, run[0].1), run[1..]))
  }

  function Run(s: State, run: Schedule): State
    requires Legal(s, run)
    decreases |run|
  {
    if run == [] then s else Run(Next(s, run[0].0, run[0].1), run[1..])
  }

  /** Reached by some run of some number of threads from a freshly constructed pool. */
  ghost predicate Reachable(s: State) {
    exists threads: nat, maxSize: nat, run: Schedule ::
      maxSize >= 1 && Legal(Init(threads, maxSize), run) && s == Run(Init(threads, maxSize), run)
  }
}

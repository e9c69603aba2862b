/** What the pool promises, over every run of every number of threads. */
module PoolTheorems {
  import opened Types
  import opened Sums
  import opened Pool
  import opened PoolInvariant

  // ---------------------------------------------------------------------------------------------
  // Ownership

  /** Where an instance can be. */
  datatype Place = InQueue(position: nat) | HeldBy(thread: Tid) | ClosedOnce | LostByFullQueue

  predicate IsAt(s: State, i: Inst, p: Place) {
    match p
    case InQueue(k) => k < |s.idle| && s.idle[k] == Real(i)
    case HeldBy(t) => t < |s.threads| && HasInst(s.threads[t]) && InstOf(s.threads[t]) == i
    case ClosedOnce => s.closes[i] == 1
    case LostByFullQueue => i in s.dropped
  }

  /**
   In every reachable state each instance the factory returned is in exactly one place: one queue
   position, one thread's hands, closed, or lost by a put into a full queue. So no two loans share
   an instance, and the pool closes none twice.
   */
  lemma ExclusiveOwnership(s: State, i: Inst)
    requires Reachable(s)
    ensures i < s.next <==> exists p :: IsAt(s, i, p)
    ensures forall p, q :: IsAt(s, i, p) && IsAt(s, i, q) ==> p == q
    ensures s.closes[i] <= 1
  {
    ReachableInv(s);
    assert Places(s, i) == (if i < s.next then 1 else 0);
    SumLower(IsInst(i), s.idle);
    SumLower(Holds(i), s.threads);
    if i < s.next {
      var p := FindPlace(s, i);
    }
    forall p, q | IsAt(s, i, p) && IsAt(s, i, q) ensures p == q {
      if p != q {
        TwoPlaces(s, i, p, q);
      }
    }
    forall p | IsAt(s, i, p) ensures i < s.next {
      OnePlace(s, i, p);
    }
  }

  lemma FindPlace(s: State, i: Inst) returns (p: Place)
    requires Places(s, i) >= 1 && s.closes[i] <= 1
    ensures IsAt(s, i, p)
  {
    SumLower(IsInst(i), s.idle);
    SumLower(Holds(i), s.threads);
    if s.closes[i] == 1 {
      p := ClosedOnce;
    } else if i in s.dropped {
      p := LostByFullQueue;
    } else if Sum(IsInst(i), s.idle) > 0 {
      var k := SumWitness(IsInst(i), s.idle);
      p := InQueue(k);
    } else {
      var t := SumWitness(Holds(i), s.threads);
      p := HeldBy(t);
    }
  }

  lemma OnePlace(s: State, i: Inst, p: Place)
    requires IsAt(s, i, p)
    ensures 0 <= Sum(IsInst(i), s.idle) && 0 <= Sum(Holds(i), s.threads)
    ensures p.InQueue? ==> 1 <= Sum(IsInst(i), s.idle)
    ensures p.HeldBy? ==> 1 <= Sum(Holds(i), s.threads)
  {
    SumLower(IsInst(i), s.idle);
    SumLower(Holds(i), s.threads);
    if p.InQueue? {
      assert IsInst(i)(s.idle[p.position]) == 1;
    } else if p.HeldBy? {
      assert Holds(i)(s.threads[p.thread]) == 1;
    }
  }

  lemma TwoPlaces(s: State, i: Inst, p: Place, q: Place)
    requires IsAt(s, i, p) && IsAt(s, i, q) && p != q
    ensures Places(s, i) >= 2
  {
    OnePlace(s, i, p);
    OnePlace(s, i, q);
    if p.InQueue? && q.InQueue? {
      var j, k := p.position, q.position;
      SumTwo(IsInst(i), s.idle, if j < k then j else k, if j < k then k else j);
    } else if p.HeldBy? && q.HeldBy? {
      var t, u := p.thread, q.thread;
      SumTwo(Holds(i), s.threads, if t < u then t else u, if t < u then u else t);
    }
  }

  // ---------------------------------------------------------------------------------------------
  // Slots, loans, creations

  /**
   While the pool is open, idle slots plus slots in hand equal max_size, so no put into an open
   pool finds the queue full. Simultaneous loans never exceed max_size, open or closed.
   */
  lemma SlotConservation(s: State)
    requires Reachable(s)
    ensures !s.closed ==> |s.idle| + Sum(InHand, s.threads) == s.maxSize
    ensures !s.closed ==> forall t :: 0 <= t < |s.threads| && InHand(s.threads[t]) == 1 ==> |s.idle| < s.maxSize
    ensures !s.closed ==> s.dropped == {}
    ensures Sum(OnLoan, s.threads) <= s.maxSize
  {
    ReachableInv(s);
    SumLower(SlotCapacity, s.idle);
    SumMonotone(OnLoan, Capacity, s.threads);
    if !s.closed {
      SumConstant(SlotCapacity, s.idle, 1);
      forall t | 0 <= t < |s.threads| ensures InHand(s.threads[t]) == Capacity(s.threads[t]) {
        assert PhaseOk(s, t);
      }
      SumMonotone(InHand, Capacity, s.threads);
      SumMonotone(Capacity, InHand, s.threads);
      forall t | 0 <= t < |s.threads| && InHand(s.threads[t]) == 1 ensures |s.idle| < s.maxSize {
        RoomWhileOpen(s, t);
      }
    }
  }

  /** Creations never outrun max_size plus recreations; the counter lags by exactly the creations in flight. */
  lemma CreationAccounting(s: State)
    requires Reachable(s)
    ensures s.created <= s.maxSize + s.recreated
    ensures s.next == s.created + Sum(Uncounted, s.threads)
    ensures s.next <= s.maxSize + s.recreated
  {
    ReachableInv(s);
    SumLower(Constructing, s.threads);
    SumMonotone(Uncounted, Constructing, s.threads);
  }

  function Holding(pc: Pc): int { if HasInst(pc) then 1 else 0 }

  /** Instances neither closed nor lost: queued or in some thread's hands. */
  function Live(s: State): int {
    Sum(SlotReal, s.idle) + Sum(Holding, s.threads)
  }

  /** Instances whose slot is already given up but whose close is still to come. */
  function Doomed(pc: Pc): int {
    if pc.Disposing? || pc.DropDrawn? || pc.DrainClosing? then 1 else 0
  }

  /** Slots in hand that carry no instance. */
  function EmptyHanded(pc: Pc): int {
    if pc == Drew(Placeholder) || pc.Building? || pc.Restoring? then 1 else 0
  }

  /** Slots, queued or in hand, that carry no instance. */
  function Vacancies(s: State): int {
    Sum(SlotVacant, s.idle) + Sum(EmptyHanded, s.threads)
  }

  /** Slots that shutdown has taken out of circulation: rejected, drained or dropped by a full queue. */
  function Retired(s: State): int {
    s.maxSize - Sum(SlotCapacity, s.idle) - Sum(Capacity, s.threads)
  }

  /**
   The live instances, counted exactly in every state, open or closed, in two ways: as instances
   built and neither closed nor lost, and slot by slot. So max_size is exceeded if and only if the
   instances about to be closed outnumber the slots that carry none, vacant or retired.
   */
  lemma LiveBound(s: State)
    requires Reachable(s)
    ensures Live(s) == s.next - |s.closes| - |s.dropped|
    ensures Live(s) == s.maxSize + Sum(Doomed, s.threads) - Vacancies(s) - Retired(s)
    ensures Vacancies(s) >= 0 && Retired(s) >= 0 && (!s.closed ==> Retired(s) == 0)
    ensures Live(s) > s.maxSize <==> Sum(Doomed, s.threads) > Vacancies(s) + Retired(s)
  {
    ReachableInv(s);
    SumLower(SlotVacant, s.idle);
    SumLower(EmptyHanded, s.threads);
    LiveSplit(s);
    var threads: nat, maxSize: nat, run: Schedule :|
      maxSize >= 1 && Legal(Init(threads, maxSize), run) && s == Run(Init(threads, maxSize), run);
    InitInv(threads, maxSize);
    SumZero(SlotReal, Init(threads, maxSize).idle);
    SumZero(Holding, Init(threads, maxSize).threads);
    LiveRun(Init(threads, maxSize), run);
  }

  lemma {:induction false} LiveRun(s: State, run: Schedule)
    requires Inv(s) && Legal(s, run) && Live(s) == s.next - |s.closes| - |s.dropped|
    ensures var s' := Run(s, run); Live(s') == s'.next - |s'.closes| - |s'.dropped|
    decreases |run|
  {
    if run == [] {
    } else {
      LiveStep(s, run[0].0, run[0].1);
      StepInv(s, run[0].0, run[0].1);
      LiveRun(Next(s, run[0].0, run[0].1), run[1..]);
    }
  }

  /** An instance becomes live by being built and stops being so by being closed or lost. */
  lemma LiveBalance(s: State, t: Tid, e: Event)
    requires Enabled(s, t, e)
    ensures QueueDelta(SlotReal, s, t, e) + ThreadDelta(Holding, s, t, e)
            + (if EffectOf(s, t, e).shared.Closes? then 1 else 0)
            + (if Loses(s, t, e) then 1 else 0)
         == (if EffectOf(s, t, e).shared.Allocates? then 1 else 0)
  {
  }

  /** The step puts an instance into a full queue. */
  predicate Loses(s: State, t: Tid, e: Event)
    requires Enabled(s, t, e)
  {
    EffectOf(s, t, e).queue.Offer? && EffectOf(s, t, e).queue.slot.Real? && |s.idle| >= s.maxSize
  }

  /** Only an instance in hand can be lost, so none is lost twice. */
  lemma LosesHeld(s: State, t: Tid, e: Event)
    requires Owned(s) && Enabled(s, t, e) && Loses(s, t, e)
    ensures EffectOf(s, t, e).queue.slot.inst !in s.dropped
  {
    Owns(s, t);
  }

  lemma LiveStep(s: State, t: Tid, e: Event)
    requires Owned(s) && Enabled(s, t, e) && Live(s) == s.next - |s.closes| - |s.dropped|
    ensures var s' := Next(s, t, e); Live(s') == s'.next - |s'.closes| - |s'.dropped|
  {
    LiveBalance(s, t, e);
    if Loses(s, t, e) {
      LosesHeld(s, t, e);
    }
    ThreadSum(Holding, s, t, e);
    QueueSum(SlotReal, s, t, e);
  }

  lemma LiveSplit(s: State)
    ensures Live(s) + Sum(SlotVacant, s.idle) + Sum(EmptyHanded, s.threads)
         == Sum(SlotCapacity, s.idle) + Sum(Capacity, s.threads) + Sum(Doomed, s.threads)
  {
    SumBalance(SlotReal, SlotVacant, SlotCapacity, NoSlot, s.idle);
    SumBalance(SlotCapacity, NoSlot, SlotReal, SlotVacant, s.idle);
    SumZero(NoSlot, s.idle);
    SumBalance(Holding, EmptyHanded, Capacity, Doomed, s.threads);
    SumBalance(Capacity, Doomed, Holding, EmptyHanded, s.threads);
  }

  function NoSlot(slot: Slot): int { 0 }

  // ---------------------------------------------------------------------------------------------
  // Shutdown: wake-up, drain, quiescence

  /** No lost wake-up: once the flag is set, an empty queue implies a wake sentinel still to be posted. */
  lemma NoLostWakeUp(s: State)
    requires Reachable(s) && s.closed
    ensures s.idle != [] || exists t :: 0 <= t < |s.threads| && PostAhead(s.threads[t]) && Enabled(s, t, Step)
  {
    ReachableInv(s);
    if s.idle == [] {
      var t :| 0 <= t < |s.threads| && PostAhead(s.threads[t]);
      assert Enabled(s, t, Step);
    }
  }

  /** The thread may still put one slot into the queue before it is done with this operation. */
  function PutAhead(pc: Pc): int {
    if pc.Waiting? || pc.Draining? || pc.DrainClosing? || pc.Posting? then 1 else InHand(pc)
  }

  function DrainMeasure(s: State): int {
    |s.idle| + Sum(PutAhead, s.threads)
  }

  predicate Drains(s: State, t: Tid) {
    t < |s.threads| && s.threads[t].Draining? && s.idle != []
  }

  lemma DrainMeasureStep(s: State, t: Tid, e: Event)
    requires Phased(s) && s.closed && Enabled(s, t, e)
    ensures DrainMeasure(Next(s, t, e)) + (if Drains(s, t) then 1 else 0) <= DrainMeasure(s)
  {
    assert PhaseOk(s, t);
    ThreadSum(PutAhead, s, t, e);
  }

  /** How many slots the drain loop removes in a run. */
  function DrainCount(s: State, run: Schedule): nat
    requires Legal(s, run)
    decreases |run|
  {
    if run == [] then 0
    else (if Drains(s, run[0].0) then 1 else 0) + DrainCount(Next(s, run[0].0, run[0].1), run[1..])
  }

  lemma {:induction false} DrainCountBound(s: State, run: Schedule)
    requires Inv(s) && s.closed && Legal(s, run)
    ensures DrainCount(s, run) + DrainMeasure(Run(s, run)) <= DrainMeasure(s)
    decreases |run|
  {
    if run == [] {
    } else {
      DrainMeasureStep(s, run[0].0, run[0].1);
      StepInv(s, run[0].0, run[0].1);
      DrainCountBound(Next(s, run[0].0, run[0].1), run[1..]);
    }
  }

  /**
   The drain loop terminates under any interference, with operations started without limit: from
   the moment the flag is set it removes at most max_size slots plus one per thread.
   */
  lemma DrainTerminates(s: State, run: Schedule)
    requires Reachable(s) && s.closed && Legal(s, run)
    ensures DrainCount(s, run) <= DrainMeasure(s) <= s.maxSize + |s.threads|
  {
    ReachableInv(s);
    DrainCountBound(s, run);
    RunInv(s, run);
    SumLower(PutAhead, Run(s, run).threads);
    SumMonotone(PutAhead, (pc: Pc) => 1, s.threads);
    SumConstant((pc: Pc) => 1, s.threads, 1);
  }

  /** Upper bound on the steps a thread still takes once the flag is set, each put charged for its slot. */
  function Rank(pc: Pc): int {
    match pc
    case Idle => 0
    case BorrowEntry => 1
    case Waiting => 4
    case Drew(_) => 5
    case DropDrawn(_) => 4
    case Repost => 3
    case Building => 9
    case Built(_) => 8
    case Refreshing(_) => 7
    case Loaned(_) => 6
    case Restoring => 3
    case Releasing(_, _) => 5
    case Recreating(_) => 5
    case Vacating(_) => 4
    case Disposing(_) => 1
    case Returning(_) => 3
    case CloseEntry => 3
    case CloseCheck => 2
    case CloseSet => 7
    case Draining => 5
    case DrainClosing(_) => 6
    case Posting => 4
    case Unlocking => 1
  }

  function Work(s: State): int {
    2 * |s.idle| + Sum(Rank, s.threads)
  }

  predicate Starts(e: Event) { e.StartBorrow? || e.StartClose? }

  function StartCount(run: Schedule): nat {
    if run == [] then 0 else (if Starts(run[0].1) then 1 else 0) + StartCount(run[1..])
  }

  /** In a closed pool every step that starts no new operation uses up work. */
  lemma WorkStep(s: State, t: Tid, e: Event)
    requires Phased(s) && s.closed && Enabled(s, t, e)
    ensures Work(Next(s, t, e)) + 1 <= Work(s) + (if Starts(e) then 4 else 0)
  {
    assert PhaseOk(s, t);
    ThreadSum(Rank, s, t, e);
  }

  lemma {:induction false} WorkBound(s: State, run: Schedule)
    requires Inv(s) && s.closed && Legal(s, run)
    ensures |run| + Work(Run(s, run)) <= Work(s) + 4 * StartCount(run)
    decreases |run|
  {
    if run == [] {
    } else {
      WorkStep(s, run[0].0, run[0].1);
      StepInv(s, run[0].0, run[0].1);
      WorkBound(Next(s, run[0].0, run[0].1), run[1..]);
    }
  }

  /** A step of an operation already begun, not relying on a borrow timeout. */
  ghost predicate CanMove(s: State, t: Tid) {
    exists e :: !Starts(e) && !e.TimeOut? && Enabled(s, t, e)
  }

  /** A thread with a slot in hand, or about to post the wake sentinel, is never blocked. */
  lemma SlotHolderMoves(s: State, u: Tid)
    requires u < |s.threads| && (InHand(s.threads[u]) == 1 || PostAhead(s.threads[u]))
    ensures CanMove(s, u)
  {
    assert Enabled(s, u, if s.threads[u].Loaned? then EndLoan(false) else Step);
  }

  /**
   Whom a waiter on an empty queue is waiting for: in an open pool a thread with a slot in hand, in
   a closed one a thread that is going to post the wake sentinel; either can move.
   */
  lemma WaiterHasHelper(s: State) returns (u: Tid)
    requires Inv(s) && s.idle == []
    ensures u < |s.threads| && CanMove(s, u)
    ensures if s.closed then PostAhead(s.threads[u]) else InHand(s.threads[u]) == 1
  {
    if s.closed {
      u :| 0 <= u < |s.threads| && PostAhead(s.threads[u]);
    } else {
      u := SumWitness(Capacity, s.threads);
      assert PhaseOk(s, u);
    }
    SlotHolderMoves(s, u);
  }

  /**
   A loan's body is client code and may borrow from the same pool. The inner borrow is then a thread
   of its own, and the outer one cannot end its loan until the inner one is over: outer is the set
   of threads suspended in this way.
   */
  predicate Suspended(s: State, outer: set<Tid>) {
    forall t :: t in outer ==> t < |s.threads| && s.threads[t].Loaned?
  }

  /** Some operation outside the suspended ones is in progress. */
  predicate Busy(s: State, outer: set<Tid>) {
    exists t :: 0 <= t < |s.threads| && t !in outer && !s.threads[t].Idle?
  }

  /** Some operation outside the suspended ones can take its next step. */
  ghost predicate Advances(s: State, outer: set<Tid>) {
    exists t :: 0 <= t < |s.threads| && t !in outer && CanMove(s, t)
  }

  /** Every operation that is not suspended waits on an empty queue, and nobody is going to close the pool. */
  predicate SelfBlocked(s: State, outer: set<Tid>) {
    && !s.closed && s.idle == []
    && forall t :: 0 <= t < |s.threads| && t !in outer ==> s.threads[t].Idle? || s.threads[t].Waiting?
  }

  /** A thread in the middle of an operation moves, or waits for a slot, or waits for the lock's holder to move. */
  lemma MovesOrWaits(s: State, outer: set<Tid>, t: Tid)
    requires Inv(s) && Suspended(s, outer) && t < |s.threads| && t !in outer && !s.threads[t].Idle?
    ensures Advances(s, outer) || (s.threads[t].Waiting? && s.idle == [])
  {
    if s.threads[t].CloseEntry? && s.lock.Some? {
      assert PhaseOk(s, s.lock.value);
      assert Enabled(s, s.lock.value, Step);
      assert CanMove(s, s.lock.value);
    } else if s.threads[t].Loaned? {
      assert Enabled(s, t, EndLoan(false));
      assert CanMove(s, t);
    } else if !s.threads[t].Waiting? || s.idle != [] {
      assert Enabled(s, t, Step);
      assert CanMove(s, t);
    }
  }

  /** The pool is blocked exactly when the operations not suspended all wait on an empty open queue. */
  lemma PoolMoves(s: State, outer: set<Tid>)
    requires Inv(s) && Suspended(s, outer) && Busy(s, outer)
    ensures Advances(s, outer) <==> !SelfBlocked(s, outer)
  {
    if !Advances(s, outer) {
      forall t | 0 <= t < |s.threads| && t !in outer && !s.threads[t].Idle?
        ensures s.threads[t].Waiting? && s.idle == []
      {
        MovesOrWaits(s, outer, t);
      }
      var u := WaiterHasHelper(s);
      assert s.closed ==> u !in outer;
    }
  }

  /** A pool that blocks itself has lent every slot, all to suspended threads. */
  lemma SelfBlockedIsFull(s: State, outer: set<Tid>)
    requires Reachable(s) && Suspended(s, outer) && SelfBlocked(s, outer)
    ensures Sum(OnLoan, s.threads) == s.maxSize
    ensures forall t :: 0 <= t < |s.threads| ==> (t in outer <==> s.threads[t].Loaned?)
  {
    SlotConservation(s);
    SumMonotone(InHand, OnLoan, s.threads);
  }

  /**
   Shutdown is live under every scheduler, fair or not: after the flag is set a run is no longer
   than a bound fixed at its start plus four steps per operation started later, and it can be
   stuck only when every thread has left the pool. So no waiter blocks forever, with or without a
   borrow timeout.
   */
  lemma ShutdownQuiesces(s: State, run: Schedule)
    requires Reachable(s) && s.closed && Legal(s, run)
    ensures |run| <= Work(s) + 4 * StartCount(run)
    ensures var s' := Run(s, run);
            (forall t :: 0 <= t < |s'.threads| ==> !CanMove(s', t)) ==>
              forall t :: 0 <= t < |s'.threads| ==> s'.threads[t].Idle?
  {
    ReachableInv(s);
    WorkBound(s, run);
    RunInv(s, run);
    var s' := Run(s, run);
    SumLower(Rank, s'.threads);
    if Busy(s', {}) {
      PoolMoves(s', {});
    }
  }

  /**
   Exactly when the pool is stuck. Provided some operation that is not suspended is in progress,
   none of them can take its next step (without a timeout) if and only if the pool is open, its
   queue is empty, and they all wait on it; then all max_size slots are on loan to suspended
   threads. So a closed pool is never stuck, and close() frees a pool blocked by its own clients.
   */
  lemma StuckExactly(s: State, outer: set<Tid>)
    requires Reachable(s) && Suspended(s, outer) && Busy(s, outer)
    ensures !Advances(s, outer) <==> SelfBlocked(s, outer)
    ensures !Advances(s, outer) ==> Sum(OnLoan, s.threads) == s.maxSize && !s.closed
  {
    ReachableInv(s);
    PoolMoves(s, outer);
    if SelfBlocked(s, outer) {
      SelfBlockedIsFull(s, outer);
    }
  }

  /**
   With no borrow nested in a loan of the same pool it never deadlocks, open or closed, and no
   waiter is on its own: while any operation is in progress some operation can take its next step
   without a timeout, and while the queue of an open pool is empty some thread with a slot in hand
   can.
   */
  lemma NeverStuck(s: State)
    requires Reachable(s)
    ensures Busy(s, {}) ==> Advances(s, {})
    ensures s.idle == [] && !s.closed ==>
              exists u :: 0 <= u < |s.threads| && InHand(s.threads[u]) == 1 && CanMove(s, u)
  {
    ReachableInv(s);
    if s.idle == [] {
      var u := WaiterHasHelper(s);
    }
    if Busy(s, {}) {
      PoolMoves(s, {});
    }
  }

  /** Past the re-check of the flag: building, refreshing, on loan. */
  function Admitted(pc: Pc): int {
    if pc.Building? || pc.Built? || pc.Refreshing? || pc.Loaned? then 1 else 0
  }

  function Recounting(pc: Pc): int { if pc.Recreating? then 1 else 0 }

  /**
   Once the flag is set, no further borrower is ever admitted, and only the discards that had read
   the flag as unset still count as recreations.
   */
  lemma {:induction false} NoAdmissionAfterClose(s: State, run: Schedule)
    requires s.closed && Legal(s, run)
    ensures Sum(Admitted, Run(s, run).threads) <= Sum(Admitted, s.threads)
    ensures Run(s, run).recreated + Sum(Recounting, Run(s, run).threads) == s.recreated + Sum(Recounting, s.threads)
    decreases |run|
  {
    if run == [] {
    } else {
      AdmissionStep(s, run[0].0, run[0].1);
      NoAdmissionAfterClose(Next(s, run[0].0, run[0].1), run[1..]);
    }
  }

  lemma AdmissionStep(s: State, t: Tid, e: Event)
    requires s.closed && Enabled(s, t, e)
    ensures Next(s, t, e).closed
    ensures Sum(Admitted, Next(s, t, e).threads) <= Sum(Admitted, s.threads)
    ensures Next(s, t, e).recreated + Sum(Recounting, Next(s, t, e).threads) == s.recreated + Sum(Recounting, s.threads)
  {
    ThreadSum(Admitted, s, t, e);
    ThreadSum(Recounting, s, t, e);
  }

  predicate Quiescent(s: State) {
    forall t :: 0 <= t < |s.threads| ==> s.threads[t].Idle?
  }

  /**
   Disposal: once close() has returned and every borrow has ended, each created instance has been
   closed, unless its healthy release had read the flag as unset before close() set it and put it
   back after the drain was over; that instance sits in the queue or was lost by a full queue.
   */
  lemma DisposalAtQuiescence(s: State, i: Inst)
    requires Reachable(s) && s.closed && Quiescent(s) && i < s.next
    ensures s.closes[i] == 1 || (i in s.atRisk && i in s.late)
    ensures s.closes[i] == 1 <==> !(Real(i) in s.idle || i in s.dropped)
    ensures s.atRisk == {} ==> forall j :: 0 <= j < s.next ==> s.closes[j] == 1
  {
    ReachableInv(s);
    assert s.posted;
    forall j: Inst | j < s.next
      ensures s.closes[j] == 1 || (j in s.atRisk && j in s.late)
      ensures s.closes[j] == 1 <==> !(Real(j) in s.idle || j in s.dropped)
    {
      ExclusiveOwnership(s, j);
      var p :| IsAt(s, j, p);
      if Real(j) in s.idle {
        var k :| 0 <= k < |s.idle| && s.idle[k] == Real(j);
        assert IsAt(s, j, InQueue(k));
      }
      assert s.closes[j] == 1 ==> IsAt(s, j, ClosedOnce);
      assert j in s.dropped ==> IsAt(s, j, LostByFullQueue);
    }
  }

  predicate AllClosed(s: State) {
    forall i :: 0 <= i < s.next ==> s.closes[i] == 1
  }

  /** However the run goes on, once every thread has left, every instance is closed. */
  ghost predicate AlwaysDisposes(s: State) {
    forall run :: Legal(s, run) && Quiescent(Run(s, run)) ==> AllClosed(Run(s, run))
  }

  lemma {:induction false} AtRiskIsFixed(s: State, run: Schedule)
    requires Inv(s) && s.closed && Legal(s, run)
    ensures Run(s, run).atRisk == s.atRisk
    decreases |run|
  {
    if run == [] {
    } else {
      assert PhaseOk(s, run[0].0);
      StepInv(s, run[0].0, run[0].1);
      AtRiskIsFixed(Next(s, run[0].0, run[0].1), run[1..]);
    }
  }

  lemma {:induction false} RunAppend(s: State, run: Schedule, t: Tid, e: Event)
    requires Legal(s, run) && Enabled(Run(s, run), t, e)
    ensures Legal(s, run + [(t, e)]) && Run(s, run + [(t, e)]) == Next(Run(s, run), t, e)
    decreases |run|
  {
    if run == [] {
      assert run + [(t, e)] == [(t, e)];
    } else {
      assert (run + [(t, e)])[1..] == run[1..] + [(t, e)];
      RunAppend(Next(s, run[0].0, run[0].1), run[1..], t, e);
    }
  }

  lemma {:induction false} RunConcat(s: State, first: Schedule, second: Schedule)
    requires Legal(s, first) && Legal(Run(s, first), second)
    ensures Legal(s, first + second) && Run(s, first + second) == Run(Run(s, first), second)
    decreases |first|
  {
    if first == [] {
      assert first + second == second;
    } else {
      assert (first + second)[1..] == first[1..] + second;
      RunConcat(Next(s, first[0].0, first[0].1), first[1..], second);
    }
  }

  lemma ReachableRun(s: State, run: Schedule)
    requires Reachable(s) && Legal(s, run)
    ensures Reachable(Run(s, run))
  {
    var threads: nat, maxSize: nat, before: Schedule :|
      maxSize >= 1 && Legal(Init(threads, maxSize), before) && s == Run(Init(threads, maxSize), before);
    RunConcat(Init(threads, maxSize), before, run);
  }

  lemma ReachableStep(s: State, t: Tid, e: Event)
    requires Reachable(s) && Enabled(s, t, e)
    ensures Reachable(Next(s, t, e))
  {
    RunAppend(s, [], t, e);
    ReachableRun(s, [] + [(t, e)]);
  }

  /** A thread other than u that can move without starting anything, in a closed pool where u stalls. */
  lemma MoveAround(s: State, u: Tid) returns (t: Tid, e: Event)
    requires Inv(s) && s.closed && u < |s.threads| && s.threads[u].Returning?
    requires exists v :: 0 <= v < |s.threads| && v != u && !s.threads[v].Idle?
    ensures t != u && !Starts(e) && Enabled(s, t, e)
  {
    var v :| 0 <= v < |s.threads| && v != u && !s.threads[v].Idle?;
    t, e := v, if s.threads[v].Loaned? then EndLoan(true) else Step;
    if s.threads[v].Waiting? && s.idle == [] {
      t :| 0 <= t < |s.threads| && PostAhead(s.threads[t]);
    } else if s.threads[v].CloseEntry? && s.lock.Some? {
      t := s.lock.value;
      assert PhaseOk(s, t);
    }
  }

  /** Everyone but the stalled thread u can leave a closed pool. */
  lemma {:induction false} QuiesceAround(s: State, u: Tid) returns (run: Schedule)
    requires Inv(s) && s.closed && u < |s.threads| && s.threads[u].Returning?
    ensures Legal(s, run) && |Run(s, run).threads| == |s.threads| && Run(s, run).threads[u] == s.threads[u]
    ensures forall t :: 0 <= t < |s.threads| && t != u ==> Run(s, run).threads[t].Idle?
    decreases Work(s)
  {
    if exists t :: 0 <= t < |s.threads| && t != u && !s.threads[t].Idle? {
      var t, e := MoveAround(s, u);
      var s' := Next(s, t, e);
      StepInv(s, t, e);
      WorkStep(s, t, e);
      SumLower(Rank, s'.threads);
      assert s'.threads[u] == s.threads[u];
      var rest := QuiesceAround(s', u);
      run := [(t, e)] + rest;
      assert run[1..] == rest;
    } else {
      run := [];
    }
  }

  /**
   Exactly when close() disposes of every instance: at the step that sets the flag, every
   continuation ends with all instances closed if and only if no release has read the flag as
   unset and still has its instance to put back.
   */
  lemma DisposalExactly(before: State, closer: Tid)
    requires Reachable(before) && closer < |before.threads| && before.threads[closer].CloseSet?
    ensures AlwaysDisposes(Next(before, closer, Step)) <==> BeingReturned(before.threads) == {}
  {
    var s := Next(before, closer, Step);
    ReachableStep(before, closer, Step);
    if BeingReturned(before.threads) == {} {
      forall run | Legal(s, run) && Quiescent(Run(s, run)) ensures AllClosed(Run(s, run)) {
        SafeClose(s, run);
      }
    } else {
      ReachableInv(s);
      var u :| 0 <= u < |before.threads| && before.threads[u].Returning?;
      assert s.threads[u] == before.threads[u];
      var run := MissedReturn(s, u);
    }
  }

  lemma SafeClose(s: State, run: Schedule)
    requires Reachable(s) && s.closed && s.atRisk == {} && Legal(s, run) && Quiescent(Run(s, run))
    ensures AllClosed(Run(s, run))
  {
    ReachableInv(s);
    AtRiskIsFixed(s, run);
    RunInv(s, run);
    ReachableRun(s, run);
    forall i | 0 <= i < Run(s, run).next ensures Run(s, run).closes[i] == 1 {
      DisposalAtQuiescence(Run(s, run), i);
    }
  }

  /** Stall the returning thread until everyone else has left: its instance is never closed. */
  lemma MissedReturn(s: State, u: Tid) returns (run: Schedule)
    requires Inv(s) && s.closed && u < |s.threads| && s.threads[u].Returning?
    ensures Legal(s, run) && Quiescent(Run(s, run)) && !AllClosed(Run(s, run))
  {
    var others := QuiesceAround(s, u);
    RunInv(s, others);
    var stalled := Run(s, others);
    Owns(stalled, u);
    RunAppend(s, others, u, Step);
    run := others + [(u, Step)];
    assert Run(s, run) == Next(stalled, u, Step);
    assert Run(s, run).closes == stalled.closes;
    var i := s.threads[u].inst;
    assert Run(s, run).closes[i] == 0 && i < Run(s, run).next;
  }

  // ---------------------------------------------------------------------------------------------
  // The two windows are real

  /** The run leads a two-thread, one-slot pool to s. */
  predicate Leads(run: Schedule, s: State) {
    Legal(Init(2, 1), run) && Run(Init(2, 1), run) == s
  }

  lemma Then(run: Schedule, s: State, t: Tid, e: Event, s': State) returns (run': Schedule)
    requires Leads(run, s) && Enabled(s, t, e) && Next(s, t, e) == s'
    ensures Leads(run', s')
  {
    RunAppend(Init(2, 1), run, t, e);
    run' := run + [(t, e)];
  }

  /** A two-thread, one-slot pool in the situations the witness runs below pass through. */
  function Snapshot(idle: seq<Slot>, t0: Pc, t1: Pc, next: nat, created: nat): State {
    State(1, idle, false, None, created, 0, [t0, t1], next, multiset{}, {}, {}, {}, false, false)
  }

  /** Thread t passes the entry check of an open pool. */
  lemma EnterBorrow(run: Schedule, s: State, t: Tid) returns (run': Schedule)
    requires Leads(run, s) && t < |s.threads| && s.threads[t].Idle? && !s.closed
    ensures Leads(run', s.(threads := s.threads[t := Waiting]))
  {
    var s1 := s.(threads := s.threads[t := BorrowEntry]);
    run' := Then(run, s, t, StartBorrow, s1);
    assert s1.threads[t := Waiting] == s.threads[t := Waiting];
    run' := Then(run', s1, t, Step, s.(threads := s.threads[t := Waiting]));
  }

  /** Thread t draws the only slot, a placeholder, and starts building. */
  lemma DrawPlaceholder(run: Schedule, s: State, t: Tid) returns (run': Schedule)
    requires Leads(run, s) && t < |s.threads| && s.threads[t].Idle? && s.idle == [Placeholder] && !s.closed
    ensures Leads(run', s.(idle := [], threads := s.threads[t := Building]))
  {
    run' := EnterBorrow(run, s, t);
    var s2 := s.(threads := s.threads[t := Waiting]);
    var s3 := s.(idle := [], threads := s.threads[t := Drew(Placeholder)]);
    assert s2.threads[t := Drew(Placeholder)] == s3.threads;
    run' := Then(run', s2, t, Step, s3);
    assert s3.threads[t := Building] == s.threads[t := Building];
    run' := Then(run', s3, t, Step, s.(idle := [], threads := s.threads[t := Building]));
  }

  /** Thread 0 builds instance 0 and has it on loan. */
  lemma FirstLoan() returns (run: Schedule)
    ensures Leads(run, Snapshot([], Loaned(0), Idle, 1, 1))
  {
    var s := Snapshot([Placeholder], Idle, Idle, 0, 0);
    assert Init(2, 1) == s;
    run := DrawPlaceholder([], s, 0);
    var s5 := Snapshot([], Built(0), Idle, 1, 0);
    run := Then(run, s.(idle := [], threads := s.threads[0 := Building]), 0, Step, s5);
    var s6 := Snapshot([], Refreshing(0), Idle, 1, 1);
    run := Then(run, s5, 0, Step, s6);
    run := Then(run, s6, 0, Step, Snapshot([], Loaned(0), Idle, 1, 1));
  }

  /** "Every instance is closed once close() has returned" is false: this run leaves instance 0 open. */
  lemma DisposalCanMissOne() returns (s: State)
    ensures Reachable(s) && s.closed && Quiescent(s) && s.next == 1 && s.closes[0] == 0
  {
    var run := FirstLoan();
    var s1 := Snapshot([], Releasing(0, false), Idle, 1, 1);
    run := Then(run, Snapshot([], Loaned(0), Idle, 1, 1), 0, EndLoan(false), s1);
    var s2 := Snapshot([], Returning(0), Idle, 1, 1);
    run := Then(run, s1, 0, Step, s2);
    var s3 := Snapshot([], Returning(0), CloseEntry, 1, 1);
    run := Then(run, s2, 1, StartClose, s3);
    var s4 := Snapshot([], Returning(0), CloseCheck, 1, 1).(lock := Some(1));
    run := Then(run, s3, 1, Step, s4);
    var s5 := s4.(threads := [Returning(0), CloseSet]);
    run := Then(run, s4, 1, Step, s5);
    s := CloseAroundReturn(run, s5);
  }

  lemma CloseAroundReturn(run5: Schedule, s5: State) returns (s: State)
    requires Leads(run5, s5) && s5 == Snapshot([], Returning(0), CloseSet, 1, 1).(lock := Some(1))
    ensures Reachable(s) && s.closed && Quiescent(s) && s.next == 1 && s.closes[0] == 0
  {
    var s6 := s5.(closed := true, atRisk := {0}, threads := [Returning(0), Draining]);
    assert BeingReturned(s5.threads) == {0} by { assert s5.threads[0].Returning?; }
    var run := Then(run5, s5, 1, Step, s6);
    var s7 := s6.(drained := true, threads := [Returning(0), Posting]);
    run := Then(run, s6, 1, Step, s7);
    s := PostThenReturn(run, s7);
  }

  lemma PostThenReturn(run7: Schedule, s7: State) returns (s: State)
    requires Leads(run7, s7)
    requires s7 == Snapshot([], Returning(0), Posting, 1, 1).(
                     lock := Some(1), closed := true, atRisk := {0}, drained := true)
    ensures Reachable(s) && s.closed && Quiescent(s) && s.next == 1 && s.closes[0] == 0
  {
    var s8 := s7.(posted := true, idle := [Sentinel], threads := [Returning(0), Unlocking]);
    var run := Then(run7, s7, 1, Step, s8);
    var s9 := s8.(lock := None, threads := [Returning(0), Idle]);
    run := Then(run, s8, 1, Step, s9);
    s := s9.(dropped := {0}, late := {0}, threads := [Idle, Idle]);
    run := Then(run, s9, 0, Step, s);
  }

  /** The discarded instance's slot is back in the queue while its close is still to come. */
  lemma SlotBeforeClose() returns (run: Schedule)
    ensures Leads(run, Snapshot([Placeholder], Disposing(0), Idle, 1, 1).(recreated := 1))
  {
    run := FirstLoan();
    var s1 := Snapshot([], Releasing(0, true), Idle, 1, 1);
    run := Then(run, Snapshot([], Loaned(0), Idle, 1, 1), 0, EndLoan(true), s1);
    var s2 := Snapshot([], Recreating(0), Idle, 1, 1);
    run := Then(run, s1, 0, Step, s2);
    var s3 := s2.(recreated := 1, threads := [Vacating(0), Idle]);
    run := Then(run, s2, 0, Step, s3);
    run := Then(run, s3, 0, Step, Snapshot([Placeholder], Disposing(0), Idle, 1, 1).(recreated := 1));
  }

  /** "At most max_size live instances" is false: the slot is given up before the instance is closed. */
  lemma LiveCanExceedMaxSize() returns (s: State)
    ensures Reachable(s) && !s.closed && Live(s) == s.maxSize + 1
  {
    var s4 := Snapshot([Placeholder], Disposing(0), Idle, 1, 1).(recreated := 1);
    var run := SlotBeforeClose();
    run := DrawPlaceholder(run, s4, 1);
    s := s4.(idle := [], next := 2, threads := [Disposing(0), Built(1)]);
    run := Then(run, s4.(idle := [], threads := s4.threads[1 := Building]), 1, Step, s);
    assert s.threads[1..] == [Built(1)];
    assert Sum(Holding, s.threads) == 1 + Sum(Holding, s.threads[1..]);
  }
  /** A pool of one slot whose borrower borrows again, inside its loan, is stuck. */
  lemma NestedBorrowBlocks() returns (s: State)
    ensures Reachable(s) && s.threads == [Loaned(0), Waiting]
    ensures Suspended(s, {0}) && Busy(s, {0}) && SelfBlocked(s, {0})
  {
    var run := FirstLoan();
    var s1 := Snapshot([], Loaned(0), Idle, 1, 1);
    run := EnterBorrow(run, s1, 1);
    s := s1.(threads := s1.threads[1 := Waiting]);
    assert !s.threads[1].Idle?;
  }
}

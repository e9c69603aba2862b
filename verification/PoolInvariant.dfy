/** The inductive invariant of the pool protocol, one conservation or ordering law at a time. */
module PoolInvariant {
  import opened Types
  import opened Sums
  import opened Pool

  // ---------------------------------------------------------------------------------------------
  // Weights

  /** 1 when the thread has instance i in hand. */
  function Holds(i: Inst): Pc -> int {
    pc => if HasInst(pc) && InstOf(pc) == i then 1 else 0
  }

  predicate HasInst(pc: Pc) {
    match pc
    case Drew(slot) => slot.Real?
    case DropDrawn(_) => true
    case Built(_) => true
    case Refreshing(_) => true
    case Loaned(_) => true
    case Releasing(_, _) => true
    case Recreating(_) => true
    case Vacating(_) => true
    case Disposing(_) => true
    case Returning(_) => true
    case DrainClosing(_) => true
    case _ => false
  }

  function InstOf(pc: Pc): Inst
    requires HasInst(pc)
  {
    if pc.Drew? then pc.slot.inst else pc.inst
  }

  function IsInst(i: Inst): Slot -> int {
    slot => if slot == Real(i) then 1 else 0
  }

  /** How many places instance i is in: queue positions, hands, closes, drops. */
  function Places(s: State, i: Inst): int {
    Sum(IsInst(i), s.idle) + Sum(Holds(i), s.threads) + s.closes[i] + (if i in s.dropped then 1 else 0)
  }

  function SlotCapacity(slot: Slot): int { if slot.Sentinel? then 0 else 1 }
  function SlotVacant(slot: Slot): int { if slot.Placeholder? then 1 else 0 }
  function SlotReal(slot: Slot): int { if slot.Real? then 1 else 0 }

  /** The thread has drawn a slot and not yet put one back. */
  function InHand(pc: Pc): int {
    match pc
    case Drew(_) => 1
    case DropDrawn(_) => 1
    case Repost => 1
    case _ => Capacity(pc)
  }

  /** The thread has drawn a placeholder or an instance that it may still use or put back. */
  function Capacity(pc: Pc): int {
    match pc
    case Drew(slot) => SlotCapacity(slot)
    case Building => 1
    case Built(_) => 1
    case Refreshing(_) => 1
    case Loaned(_) => 1
    case Restoring => 1
    case Releasing(_, _) => 1
    case Recreating(_) => 1
    case Vacating(_) => 1
    case Returning(_) => 1
    case _ => 0
  }

  function OnLoan(pc: Pc): int { if pc.Loaned? then 1 else 0 }

  /** A slot in hand whose next use, if any, builds an instance. */
  function Vacant(pc: Pc): int {
    match pc
    case Drew(slot) => SlotVacant(slot)
    case Building => 1
    case Built(_) => 1
    case Restoring => 1
    case Vacating(_) => 1
    case _ => 0
  }

  function Constructing(pc: Pc): int { if pc.Building? || pc.Built? then 1 else 0 }
  function Uncounted(pc: Pc): int { if pc.Built? then 1 else 0 }

  // ---------------------------------------------------------------------------------------------
  // The invariant

  /** Each instance the factory returned is in exactly one place; no other instance is anywhere. */
  ghost predicate Owned(s: State) {
    forall i: Inst :: Places(s, i) == (if i < s.next then 1 else 0)
  }

  predicate Critical(pc: Pc) {
    pc.CloseCheck? || pc.CloseSet? || pc.Draining? || pc.DrainClosing? || pc.Posting? || pc.Unlocking?
  }

  /** What the closed flag and close()'s progress say about where a thread can be. */
  predicate PhaseOk(s: State, t: Tid)
    requires t < |s.threads|
  {
    var pc := s.threads[t];
    && (Critical(pc) <==> s.lock == Some(t))
    && (pc.CloseSet? ==> !s.closed)
    && (pc.Draining? || pc.DrainClosing? ==> s.closed && !s.drained)
    && (pc.Posting? ==> s.drained && !s.posted)
    && (pc.Unlocking? ==> s.posted)
    && (pc.DropDrawn? || pc.Repost? || pc == Drew(Sentinel) ==> s.closed)
  }

  predicate Phased(s: State) {
    && (forall t :: 0 <= t < |s.threads| ==> PhaseOk(s, t))
    && (s.lock.Some? ==> s.lock.value < |s.threads|)
    && (s.posted ==> s.drained)
    && (s.drained ==> s.closed)
    && (s.closed && !s.posted ==>
          s.lock.Some? && var pc := s.threads[s.lock.value]; pc.Draining? || pc.DrainClosing? || pc.Posting?)
    && (!s.closed ==> Sentinel !in s.idle)
  }

  /** Slots are conserved while open, and close() adds at most its own sentinel. */
  predicate Conserved(s: State) {
    && |s.idle| <= s.maxSize
    && Sum(SlotCapacity, s.idle) + Sum(Capacity, s.threads) <= s.maxSize
    && (!s.closed ==> Sum(SlotCapacity, s.idle) + Sum(Capacity, s.threads) == s.maxSize)
    && |s.idle| + Sum(InHand, s.threads) <= s.maxSize + (if s.posted then 1 else 0)
  }

  /** Creations are paid for by slots and recreations. */
  predicate Accounted(s: State) {
    && s.next == s.created + Sum(Uncounted, s.threads)
    && s.created + Sum(Constructing, s.threads) <= s.maxSize + s.recreated
    && (!s.closed ==> s.created + Sum(SlotVacant, s.idle) + Sum(Vacant, s.threads) == s.maxSize + s.recreated)
  }

  /** Once the flag is set the thread is going to post the wake sentinel. */
  predicate PostAhead(pc: Pc) {
    pc.Drew? || pc.DropDrawn? || pc.Repost? || pc.Draining? || pc.DrainClosing? || pc.Posting?
  }

  ghost predicate Wakeful(s: State) {
    s.closed && s.idle == [] ==> exists t :: 0 <= t < |s.threads| && PostAhead(s.threads[t])
  }

  /** After the drain, only instances that were being returned when the flag was set come back. */
  ghost predicate Disposed(s: State) {
    && s.dropped <= s.late <= s.atRisk
    && (!s.drained ==> s.late == {})
    && (!s.posted ==> s.dropped == {})
    && (s.closed ==> forall t :: 0 <= t < |s.threads| && s.threads[t].Returning? ==> s.threads[t].inst in s.atRisk)
    && (s.drained ==> forall k :: 0 <= k < |s.idle| && s.idle[k].Real? ==> s.idle[k].inst in s.late)
  }

  ghost predicate Inv(s: State) {
    && s.maxSize >= 1
    && Owned(s)
    && Phased(s)
    && Conserved(s)
    && Accounted(s)
    && Wakeful(s)
    && Disposed(s)
  }

  // ---------------------------------------------------------------------------------------------
  // Every step moves one program counter and touches the queue at most once

  /** What a step adds to a weighting of the queue. */
  function QueueDelta(w: Slot -> int, s: State, t: Tid, e: Event): int
    requires Enabled(s, t, e)
  {
    match EffectOf(s, t, e).queue
    case Keep => 0
    case Take => -w(s.idle[0])
    case Offer(slot) => if |s.idle| < s.maxSize then w(slot) else 0
  }

  /** What a step adds to a weighting of the threads. */
  function ThreadDelta(w: Pc -> int, s: State, t: Tid, e: Event): int
    requires Enabled(s, t, e)
  {
    w(EffectOf(s, t, e).pc) - w(s.threads[t])
  }

  lemma ThreadSum(w: Pc -> int, s: State, t: Tid, e: Event)
    requires Enabled(s, t, e)
    ensures Sum(w, Next(s, t, e).threads) == Sum(w, s.threads) + ThreadDelta(w, s, t, e)
  {
    SumUpdate(w, s.threads, t, EffectOf(s, t, e).pc);
  }

  lemma QueueSum(w: Slot -> int, s: State, t: Tid, e: Event)
    requires Enabled(s, t, e)
    ensures Sum(w, Next(s, t, e).idle) == Sum(w, s.idle) + QueueDelta(w, s, t, e)
  {
    if EffectOf(s, t, e).queue.Offer? {
      SumAppend(w, s.idle, EffectOf(s, t, e).queue.slot);
    }
  }

  // ---------------------------------------------------------------------------------------------
  // Establishment and preservation

  lemma InitInv(threads: nat, maxSize: nat)
    requires maxSize >= 1
    ensures Inv(Init(threads, maxSize))
  {
    var s := Init(threads, maxSize);
    forall i: Inst ensures Places(s, i) == 0 {
      SumZero(IsInst(i), s.idle);
      SumZero(Holds(i), s.threads);
    }
    SumConstant(SlotCapacity, s.idle, 1);
    SumConstant(SlotVacant, s.idle, 1);
    SumZero(Capacity, s.threads);
    SumZero(InHand, s.threads);
    SumZero(Vacant, s.threads);
    SumZero(Constructing, s.threads);
    SumZero(Uncounted, s.threads);
  }

  lemma Owns(s: State, t: Tid)
    requires Owned(s) && t < |s.threads| && HasInst(s.threads[t])
    ensures var i := InstOf(s.threads[t]);
            i < s.next && Sum(IsInst(i), s.idle) == 0 && Sum(Holds(i), s.threads) == 1
            && s.closes[i] == 0 && i !in s.dropped
  {
    var i := InstOf(s.threads[t]);
    SumLower(IsInst(i), s.idle);
    SumLower(Holds(i), s.threads);
    assert Holds(i)(s.threads[t]) == 1;
    assert Places(s, i) == (if i < s.next then 1 else 0);
  }

  /** An instance leaving one place enters exactly one other. */
  lemma InstanceBalance(s: State, t: Tid, e: Event, i: Inst)
    requires Enabled(s, t, e)
    ensures QueueDelta(IsInst(i), s, t, e) + ThreadDelta(Holds(i), s, t, e)
            + (if EffectOf(s, t, e).shared == Closes(i) then 1 else 0)
            + (if EffectOf(s, t, e).queue == Offer(Real(i)) && |s.idle| >= s.maxSize then 1 else 0)
         == (if EffectOf(s, t, e).shared.Allocates? && i == s.next then 1 else 0)
  {
  }

  lemma OwnedStep(s: State, t: Tid, e: Event)
    requires Owned(s) && Enabled(s, t, e)
    ensures Owned(Next(s, t, e))
  {
    var s' := Next(s, t, e);
    if HasInst(s.threads[t]) {
      Owns(s, t);
    }
    assert EffectOf(s, t, e).queue.Offer? && EffectOf(s, t, e).queue.slot.Real?
      ==> HasInst(s.threads[t]) && InstOf(s.threads[t]) == EffectOf(s, t, e).queue.slot.inst;
    forall i: Inst ensures Places(s', i) == (if i < s'.next then 1 else 0) {
      assert Places(s, i) == (if i < s.next then 1 else 0);
      InstanceBalance(s, t, e, i);
      ThreadSum(Holds(i), s, t, e);
      QueueSum(IsInst(i), s, t, e);
    }
  }

  lemma PhasedStep(s: State, t: Tid, e: Event)
    requires Phased(s) && Enabled(s, t, e)
    ensures Phased(Next(s, t, e))
  {
    var s' := Next(s, t, e);
    assert PhaseOk(s, t);
    forall u | 0 <= u < |s'.threads| ensures PhaseOk(s', u) {
      assert PhaseOk(s, u);
      if u != t {
        assert s'.threads[u] == s.threads[u];
      }
    }
  }

  /** In an open pool a thread holding a slot always finds room to put it back. */
  lemma RoomWhileOpen(s: State, t: Tid)
    requires Conserved(s) && t < |s.threads|
    ensures !s.posted && InHand(s.threads[t]) == 1 ==> |s.idle| < s.maxSize
  {
    SumLower(InHand, s.threads);
  }

  /** No step makes a usable slot; only a rejection, a drain or a full queue destroys one. */
  lemma CapacityBalance(s: State, t: Tid, e: Event)
    requires Phased(s) && Enabled(s, t, e)
    ensures QueueDelta(SlotCapacity, s, t, e) + ThreadDelta(Capacity, s, t, e) <= 0
    ensures !s.closed && (InHand(s.threads[t]) == 1 ==> |s.idle| < s.maxSize) ==>
              QueueDelta(SlotCapacity, s, t, e) + ThreadDelta(Capacity, s, t, e) == 0
  {
    assert PhaseOk(s, t);
  }

  /** Drawing moves a slot into a hand and putting moves it back; only close() adds one, its sentinel. */
  lemma HandBalance(s: State, t: Tid, e: Event)
    requires Enabled(s, t, e)
    ensures |Next(s, t, e).idle| - |s.idle| + ThreadDelta(InHand, s, t, e)
         <= (if EffectOf(s, t, e).shared.PostsWake? then 1 else 0)
  {
  }

  lemma ConservedStep(s: State, t: Tid, e: Event)
    requires Phased(s) && Conserved(s) && Enabled(s, t, e)
    ensures Conserved(Next(s, t, e))
  {
    assert PhaseOk(s, t);
    assert EffectOf(s, t, e).shared.PostsWake? <==> s.threads[t].Posting?;
    CapacityBalance(s, t, e);
    HandBalance(s, t, e);
    RoomWhileOpen(s, t);
    QueueSum(SlotCapacity, s, t, e);
    ThreadSum(Capacity, s, t, e);
    ThreadSum(InHand, s, t, e);
  }

  /** While open, vacancies plus creations minus recreations never change. */
  lemma CreationBalance(s: State, t: Tid, e: Event)
    requires Phased(s) && Enabled(s, t, e)
    ensures var shared := EffectOf(s, t, e).shared;
            var counted := if shared.CountsCreation? then 1 else 0;
            var recounted := if shared.CountsRecreation? then 1 else 0;
            && ThreadDelta(Uncounted, s, t, e) + counted == (if shared.Allocates? then 1 else 0)
            && (s.closed ==> ThreadDelta(Constructing, s, t, e) + counted <= recounted)
            && (!s.closed && (InHand(s.threads[t]) == 1 ==> |s.idle| < s.maxSize) ==>
                  QueueDelta(SlotVacant, s, t, e) + ThreadDelta(Vacant, s, t, e) + counted == recounted)
  {
    assert PhaseOk(s, t);
  }

  lemma AccountedStep(s: State, t: Tid, e: Event)
    requires Phased(s) && Conserved(s) && Accounted(s) && Enabled(s, t, e)
    ensures Accounted(Next(s, t, e))
  {
    var s' := Next(s, t, e);
    CreationBalance(s, t, e);
    RoomWhileOpen(s, t);
    ThreadSum(Uncounted, s, t, e);
    ThreadSum(Constructing, s, t, e);
    ThreadSum(Vacant, s, t, e);
    QueueSum(SlotVacant, s, t, e);
    SumLower(SlotVacant, s'.idle);
    SumMonotone(Constructing, Vacant, s'.threads);
  }

  lemma WakefulStep(s: State, t: Tid, e: Event)
    requires Phased(s) && Wakeful(s) && s.maxSize >= 1 && Enabled(s, t, e)
    ensures Wakeful(Next(s, t, e))
  {
    var s' := Next(s, t, e);
    if s'.closed && s'.idle == [] {
      if PostAhead(s'.threads[t]) {
      } else {
        assert PhaseOk(s, t);
        var u :| 0 <= u < |s.threads| && PostAhead(s.threads[u]);
        assert u != t;
        assert s'.threads[u] == s.threads[u];
      }
    }
  }

  lemma DisposedStep(s: State, t: Tid, e: Event)
    requires Phased(s) && Conserved(s) && Disposed(s) && Enabled(s, t, e)
    ensures Disposed(Next(s, t, e))
  {
    var s' := Next(s, t, e);
    assert PhaseOk(s, t);
    RoomWhileOpen(s, t);
    if s'.closed {
      forall u | 0 <= u < |s'.threads| && s'.threads[u].Returning?
        ensures s'.threads[u].inst in s'.atRisk
      {
        assert s'.threads[u] == s.threads[u];
      }
    }
  }

  lemma StepInv(s: State, t: Tid, e: Event)
    requires Inv(s) && Enabled(s, t, e)
    ensures Inv(Next(s, t, e))
  {
    OwnedStep(s, t, e);
    PhasedStep(s, t, e);
    ConservedStep(s, t, e);
    AccountedStep(s, t, e);
    WakefulStep(s, t, e);
    DisposedStep(s, t, e);
  }

  lemma {:induction false} RunInv(s: State, run: Schedule)
    requires Inv(s) && Legal(s, run)
    ensures Inv(Run(s, run))
    ensures Run(s, run).maxSize == s.maxSize && |Run(s, run).threads| == |s.threads|
    ensures s.closed ==> Run(s, run).closed
    decreases |run|
  {
    if run == [] {
    } else {
      StepInv(s, run[0].0, run[0].1);
      RunInv(Next(s, run[0].0, run[0].1), run[1..]);
    }
  }

  lemma ReachableInv(s: State)
    requires Reachable(s)
    ensures Inv(s)
  {
    var threads: nat, maxSize: nat, run: Schedule :|
      maxSize >= 1 && Legal(Init(threads, maxSize), run) && s == Run(Init(threads, maxSize), run);
    InitInv(threads, maxSize);
    RunInv(Init(threads, maxSize), run);
  }
}

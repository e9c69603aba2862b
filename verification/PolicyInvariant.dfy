/** The inductive invariant of the policy facade, on top of the pool's and the ticker's own. */
module PolicyInvariant {
  import opened Types
  import opened Sums
  import opened InstanceView
  import opened Policy
  import P = Pool
  import PI = PoolInvariant
  import T = Ticker

  // ---------------------------------------------------------------------------------------------
  // Where threads are

  predicate ClosePc(pc: P.Pc) {
    PI.Critical(pc) || pc.CloseEntry?
  }

  predicate BorrowPc(pc: P.Pc) {
    !pc.Idle? && !ClosePc(pc)
  }

  predicate EnsurePhase(p: T.Phase) {
    p.Resting? || p.EnsureEntry? || p.EnsureCheck? || p.EnsureStart?
  }

  predicate ClosePhase(p: T.Phase) {
    p.Resting? || p.CloseEntry? || p.CloseLock? || p.CloseTake? || p.CloseJoin?
  }

  /** The facade's stage says which pool operation and which ticker operation the thread is in. */
  predicate Coupled(stage: Stage, pc: P.Pc, phase: T.Phase, poolClosed: bool) {
    match stage
    case Borrowing(_, sub) =>
      && BorrowPc(pc)
      && (sub.Snapped? ==> pc.Building? || pc.Refreshing?)
      && (sub.Starting? ==> pc.Building? && EnsurePhase(phase))
      && (sub.Completed? ==> pc.Building?)
      && (sub.Reloading? ==> pc.Refreshing?)
      && (sub.InGuest? ==> pc.Loaned?)
      && (!sub.Starting? ==> phase.Resting?)
    case ClosingPool => ClosePc(pc) && phase.Resting?
    case Stopping => pc.Idle? && ClosePhase(phase)
    case Marking => pc.Idle? && phase.Resting? && poolClosed
    case _ => pc.Idle? && phase.Resting?
  }

  predicate Shaped(s: State) {
    && |s.stages| == |s.pool.threads| == |s.clock.threads|
    && forall t :: 0 <= t < |s.stages| ==>
         Coupled(s.stages[t], s.pool.threads[t], s.clock.threads[t], s.pool.closed)
  }

  /** How one pool step moves its thread, whatever the step. */
  lemma PoolMove(p: P.State, t: Tid, e: P.Event)
    requires PI.Phased(p) && P.Enabled(p, t, e)
    ensures var p' := P.Next(p, t, e);
            && p'.threads == p.threads[t := p'.threads[t]]
            && (p.closed ==> p'.closed)
            && (BorrowPc(p.threads[t]) ==> BorrowPc(p'.threads[t]) || p'.threads[t].Idle?)
            && (ClosePc(p.threads[t]) ==> ClosePc(p'.threads[t]) || (p'.threads[t].Idle? && p'.closed))
  {
    assert PI.PhaseOk(p, t);
  }

  /** A pool step that resolves a callback keeps its thread inside borrow. */
  lemma CallbackMove(p: P.State, t: Tid, e: P.Event)
    requires P.Enabled(p, t, e) && !Internal(p.threads[t]) && !p.threads[t].Idle?
    ensures BorrowPc(P.Next(p, t, e).threads[t])
  {
  }

  lemma MoverInPool(s: State, t: Tid, e: Event)
    requires Shaped(s) && PI.Phased(s.pool) && Enabled(s, t, e) && PoolEvent(e).Some?
    ensures Coupled(StageAfter(s, t, e), PoolAfter(s, t, e).threads[t], s.clock.threads[t], PoolAfter(s, t, e).closed)
  {
    var stage, pc, phase := s.stages[t], s.pool.threads[t], s.clock.threads[t];
    assert Coupled(stage, pc, phase, s.pool.closed);
    PoolMove(s.pool, t, PoolEvent(e).value);
    if !Internal(pc) && !pc.Idle? {
      CallbackMove(s.pool, t, PoolEvent(e).value);
    }
  }

  lemma MoverOutsidePool(s: State, t: Tid, e: Event)
    requires Shaped(s) && Enabled(s, t, e) && PoolEvent(e).None?
    ensures Coupled(StageAfter(s, t, e), s.pool.threads[t], ClockAfter(s, t, e).threads[t], s.pool.closed)
  {
    assert Coupled(s.stages[t], s.pool.threads[t], s.clock.threads[t], s.pool.closed);
  }

  lemma ShapedStep(s: State, t: Tid, e: Event)
    requires Shaped(s) && PI.Inv(s.pool) && T.TickerInv(s.clock) && Enabled(s, t, e)
    ensures Shaped(Next(s, t, e))
  {
    if PoolEvent(e).Some? {
      PoolMove(s.pool, t, PoolEvent(e).value);
      MoverInPool(s, t, e);
    } else {
      MoverOutsidePool(s, t, e);
    }
    if e.TickerStep? {
      T.TickerStep(s.clock, t, e.call);
    }
    OthersCoupled(s, t, PoolAfter(s, t, e), ClockAfter(s, t, e), StageAfter(s, t, e), Next(s, t, e));
  }

  /** Threads that did not move stay coupled. */
  lemma OthersCoupled(s: State, t: Tid, pool: P.State, clock: T.Clock, stage: Stage, s': State)
    requires Shaped(s) && t < |s.stages|
    requires s'.pool == pool && s'.clock == clock && s'.stages == s.stages[t := stage]
    requires |pool.threads| == |s.pool.threads| && |clock.threads| == |s.clock.threads|
    requires forall u :: 0 <= u < |s.stages| && u != t ==>
               pool.threads[u] == s.pool.threads[u] && clock.threads[u] == s.clock.threads[u]
    requires s.pool.closed ==> pool.closed
    requires Coupled(stage, pool.threads[t], clock.threads[t], pool.closed)
    ensures Shaped(s')
  {
  }

  // ---------------------------------------------------------------------------------------------
  // Who stops the ticker

  function Counted(stage: Stage): int {
    if stage.Entered? || stage.Borrowing? || stage.Exiting? then 1 else 0
  }

  /** Some thread has decided to stop the ticker, or has already done so. */
  ghost predicate Decided(s: State) {
    s.clock.stop || exists t :: 0 <= t < |s.stages| && s.stages[t].Stopping?
  }

  /** Inside borrow, beyond the entry check of the pool's flag. */
  predicate PastEntry(pc: P.Pc) {
    BorrowPc(pc) && !pc.BorrowEntry?
  }

  ghost predicate StopsRightly(s: State) {
    && s.active == Sum(Counted, s.stages)
    && (s.closed ==> s.pool.closed)
    && (Decided(s) ==> s.closed && forall t :: 0 <= t < |s.pool.threads| ==> !PastEntry(s.pool.threads[t]))
    && (s.closed && s.active == 0 ==> Decided(s))
  }

  /** Inside close(), before it marks the policy closed. */
  predicate WillMark(stage: Stage) { stage.ClosingPool? || stage.Marking? }

  /** A closed pool in a policy not yet marked closed has a close() still to mark it. */
  ghost predicate Marked(s: State) {
    s.pool.closed && !s.closed ==> exists t :: 0 <= t < |s.stages| && WillMark(s.stages[t])
  }

  // ---------------------------------------------------------------------------------------------
  // Which document

  predicate IsPublished(published: seq<Document>, doc: Document, ver: nat) {
    ver < |published| && published[ver] == doc
  }

  predicate SnapshotOk(published: seq<Document>, version: nat, stage: Stage) {
    stage.Borrowing? ==>
      && stage.since <= version
      && (stage.sub.Snapped? || stage.sub.Starting? || stage.sub.Completed? || stage.sub.Reloading? ==>
            IsPublished(published, stage.sub.doc, stage.sub.ver) && stage.since <= stage.sub.ver)
  }

  predicate EvaluationOk(published: seq<Document>, e: Evaluation) {
    IsPublished(published, e.doc, e.version) && e.since <= e.version
  }

  ghost predicate Documented(s: State) {
    && |s.published| == s.version + 1 && s.published[s.version] == s.data
    && (forall t :: 0 <= t < |s.stages| ==> SnapshotOk(s.published, s.version, s.stages[t]))
    && (forall k :: 0 <= k < |s.evals| ==> EvaluationOk(s.published, s.evals[k]))
  }

  // ---------------------------------------------------------------------------------------------
  // What state instances are in

  /** An instance that is not poisoned was last loaded with the document published under its version tag. */
  predicate Untorn(published: seq<Document>, v: View) {
    !v.poisoned ==> IsPublished(published, v.doc, v.version)
  }

  /** The thread is reloading instance i. */
  predicate Reloads(stage: Stage, pc: P.Pc, i: nat) {
    stage.Borrowing? && stage.sub.Reloading? && pc == P.Refreshing(i)
  }

  /** Only its holder's reload leaves an unpoisoned instance without a whole document. */
  ghost predicate Whole(s: State, i: nat)
    requires i < |s.views| && |s.stages| == |s.pool.threads|
  {
    s.views[i].poisoned || s.views[i].intact
    || exists t :: 0 <= t < |s.stages| && Reloads(s.stages[t], s.pool.threads[t], i)
  }

  predicate HeldOk(views: seq<View>, stage: Stage, pc: P.Pc) {
    PI.HasInst(pc) ==>
      var i := PI.InstOf(pc);
      && i < |views|
      && match pc
         case Loaned(_) =>
           && stage.Borrowing? && stage.since <= views[i].version
           && (if stage.sub.InGuest? then !views[i].poisoned && views[i].intact else Pristine(views[i]))
         case Releasing(_, bad) => if bad then views[i].poisoned else Pristine(views[i])
         case Drew(_) => Pristine(views[i])
         case Built(_) => Pristine(views[i])
         case Refreshing(_) =>
           && (if stage.Borrowing? && stage.sub.Reloading? then !views[i].poisoned && !views[i].armed else Pristine(views[i]))
           && (stage.Borrowing? && (stage.sub.Snapped? || stage.sub.Reloading?) ==> views[i].version <= stage.sub.ver)
         case Returning(_) => Pristine(views[i])
         case _ => true
  }

  predicate QueuedOk(views: seq<View>, slot: P.Slot) {
    slot.Real? ==> slot.inst < |views| && Pristine(views[slot.inst])
  }

  ghost predicate Kept(s: State) {
    && |s.views| == s.pool.next
    && (forall i :: 0 <= i < |s.views| ==> Untorn(s.published, s.views[i]))
    && (forall t :: 0 <= t < |s.pool.threads| && t < |s.stages| ==> HeldOk(s.views, s.stages[t], s.pool.threads[t]))
    && (forall k :: 0 <= k < |s.pool.idle| ==> QueuedOk(s.views, s.pool.idle[k]))
  }

  /**
   With deadlines the ticker runs, or has been told to stop, from the first instance on; without
   them no ticker is ever started.
   */
  predicate Ensured(s: State) {
    if s.timeouts then
      && (s.views != [] ==> T.Running(s.clock))
      && forall t :: 0 <= t < |s.stages| && s.stages[t].Borrowing? && s.stages[t].sub.Completed? ==> T.Running(s.clock)
    else
      && s.clock.started == 0
      && forall t :: 0 <= t < |s.stages| && s.stages[t].Borrowing? ==> !s.stages[t].sub.Starting?
  }

  ghost predicate Inv(s: State) {
    && PI.Inv(s.pool) && T.TickerInv(s.clock) && Shaped(s) && StopsRightly(s) && Marked(s) && Documented(s) && Kept(s)
    && (forall i :: 0 <= i < |s.views| ==> Whole(s, i))
    && Ensured(s)
  }

  // ---------------------------------------------------------------------------------------------
  // Preservation: the ticker

  lemma CountedDelta(s: State, t: Tid, e: Event)
    requires Enabled(s, t, e)
    ensures Counted(StageAfter(s, t, e)) - Counted(s.stages[t]) == ActiveAfter(s, e) - s.active
  {
  }

  lemma ActiveStep(s: State, t: Tid, e: Event)
    requires s.active == Sum(Counted, s.stages) && Enabled(s, t, e)
    ensures ActiveAfter(s, e) == Sum(Counted, s.stages[t := StageAfter(s, t, e)])
  {
    CountedDelta(s, t, e);
    SumUpdate(Counted, s.stages, t, StageAfter(s, t, e));
  }

  /** With the pool's flag set, no thread gets past the entry check. */
  lemma NoEntryWhenClosed(p: P.State, t: Tid, e: P.Event)
    requires p.closed && P.Enabled(p, t, e)
    ensures PastEntry(P.Next(p, t, e).threads[t]) ==> PastEntry(p.threads[t])
  {
  }

  /** With no evaluation active, no thread is inside borrow. */
  lemma NobodyBorrows(s: State)
    requires Shaped(s) && Sum(Counted, s.stages) == 0
    ensures forall t :: 0 <= t < |s.pool.threads| ==> !PastEntry(s.pool.threads[t])
  {
    SumLower(Counted, s.stages);
    forall t | 0 <= t < |s.pool.threads| ensures !PastEntry(s.pool.threads[t]) {
      assert Coupled(s.stages[t], s.pool.threads[t], s.clock.threads[t], s.pool.closed);
    }
  }

  /** The events that can make the decision make it with no evaluation active. */
  lemma DecisionStep(s: State, t: Tid, e: Event)
    requires Shaped(s) && StopsRightly(s) && !Decided(s) && Enabled(s, t, e)
    requires StageAfter(s, t, e).Stopping? || ClockAfter(s, t, e).stop
    ensures ActiveAfter(s, e) == 0 && PoolEvent(e).None? && (s.closed || e.MarkClosed?)
  {
    assert Coupled(s.stages[t], s.pool.threads[t], s.clock.threads[t], s.pool.closed);
    assert !s.stages[t].Stopping?;
  }

  /** A decision, once made, is not lost. */
  lemma DecidedStays(s: State, t: Tid, e: Event)
    requires Shaped(s) && T.TickerInv(s.clock) && Decided(s) && Enabled(s, t, e)
    ensures Decided(Next(s, t, e))
  {
    var s' := Next(s, t, e);
    if e.TickerStep? {
      T.TickerStep(s.clock, t, e.call);
    }
    if !s.clock.stop {
      var u :| 0 <= u < |s.stages| && s.stages[u].Stopping?;
      assert T.PhaseFits(s.clock, t);
      if u == t {
        assert e.TickerStep?;
        assert s'.stages[t].Stopping? || s'.clock.stop;
      } else {
        assert s'.stages[u].Stopping?;
      }
    }
  }

  lemma StopsRightlyStep(s: State, t: Tid, e: Event)
    requires PI.Inv(s.pool) && T.TickerInv(s.clock) && Shaped(s) && StopsRightly(s) && Enabled(s, t, e)
    ensures StopsRightly(Next(s, t, e))
  {
    var s' := Next(s, t, e);
    ActiveStep(s, t, e);
    ShapedStep(s, t, e);
    ClosedAfterPool(s, t, e);
    if Decided(s) {
      DecidedStays(s, t, e);
      StillNobody(s, t, e);
    } else if Decided(s') {
      WhoDecided(s, s', t, StageAfter(s, t, e));
      DecisionStep(s, t, e);
      NobodyBorrows(s');
    }
    if s'.closed && s'.active == 0 && !Decided(s) {
      LastOneDecides(s, t, e);
      assert s'.stages[t].Stopping?;
    }
  }

  lemma WhoDecided(s: State, s': State, t: Tid, stage: Stage)
    requires !Decided(s) && Decided(s') && t < |s.stages| && s'.stages == s.stages[t := stage]
    ensures stage.Stopping? || s'.clock.stop
  {
  }

  lemma ClosedAfterPool(s: State, t: Tid, e: Event)
    requires PI.Inv(s.pool) && Shaped(s) && (s.closed ==> s.pool.closed) && Enabled(s, t, e)
    ensures Next(s, t, e).closed ==> Next(s, t, e).pool.closed
  {
    assert Coupled(s.stages[t], s.pool.threads[t], s.clock.threads[t], s.pool.closed);
    if PoolEvent(e).Some? {
      PoolMove(s.pool, t, PoolEvent(e).value);
    }
  }

  lemma StillNobody(s: State, t: Tid, e: Event)
    requires PI.Inv(s.pool) && StopsRightly(s) && Decided(s) && Enabled(s, t, e)
    ensures forall u :: 0 <= u < |PoolAfter(s, t, e).threads| ==> !PastEntry(PoolAfter(s, t, e).threads[u])
  {
    if PoolEvent(e).Some? {
      PoolMove(s.pool, t, PoolEvent(e).value);
      NoEntryWhenClosed(s.pool, t, PoolEvent(e).value);
    }
  }

  lemma MarkedStep(s: State, t: Tid, e: Event)
    requires Shaped(s) && Marked(s) && Enabled(s, t, e)
    ensures Marked(Next(s, t, e))
  {
    var s' := Next(s, t, e);
    assert Coupled(s.stages[t], s.pool.threads[t], s.clock.threads[t], s.pool.closed);
    if s'.pool.closed && !s'.closed && !WillMark(s'.stages[t]) {
      assert s.pool.closed;
      var u :| 0 <= u < |s.stages| && WillMark(s.stages[u]);
      assert WillMark(s'.stages[u]);
    }
  }

  lemma LastOneDecides(s: State, t: Tid, e: Event)
    requires StopsRightly(s) && !Decided(s) && Enabled(s, t, e)
    requires (s.closed || e.MarkClosed?) && ActiveAfter(s, e) == 0
    ensures StageAfter(s, t, e).Stopping?
  {
    SumLower(Counted, s.stages);
  }

  // ---------------------------------------------------------------------------------------------
  // Preservation: the documents

  lemma DocumentedStep(s: State, t: Tid, e: Event)
    requires Shaped(s) && Documented(s) && Kept(s) && Enabled(s, t, e)
    ensures Documented(Next(s, t, e))
  {
    var s' := Next(s, t, e);
    SnapshotStep(s, t, e);
    forall u | 0 <= u < |s'.stages| ensures SnapshotOk(s'.published, s'.version, s'.stages[u]) {
      if u != t {
        assert SnapshotOk(s.published, s.version, s.stages[u]);
      }
    }
    if e.EnterGuest? {
      assert HeldOk(s.views, s.stages[t], s.pool.threads[t]);
      assert Untorn(s.published, s.views[s.pool.threads[t].inst]);
    }
    forall k | 0 <= k < |s'.evals| ensures EvaluationOk(s'.published, s'.evals[k]) {
      assert k < |s.evals| ==> EvaluationOk(s.published, s.evals[k]);
    }
  }

  lemma SnapshotStep(s: State, t: Tid, e: Event)
    requires Documented(s) && Enabled(s, t, e)
    ensures SnapshotOk(Next(s, t, e).published, Next(s, t, e).version, StageAfter(s, t, e))
  {
    assert SnapshotOk(s.published, s.version, s.stages[t]);
  }

  // ---------------------------------------------------------------------------------------------
  // Preservation: the instances

  /** An instance in t's hands is in no other thread's hands and not in the queue. */
  lemma Exclusive(p: P.State, t: Tid)
    requires PI.Owned(p) && t < |p.threads| && PI.HasInst(p.threads[t])
    ensures var i := PI.InstOf(p.threads[t]);
            && (forall u :: 0 <= u < |p.threads| && u != t && PI.HasInst(p.threads[u]) ==> PI.InstOf(p.threads[u]) != i)
            && (forall k :: 0 <= k < |p.idle| ==> p.idle[k] != P.Real(i))
  {
    var i := PI.InstOf(p.threads[t]);
    PI.Owns(p, t);
    SumLower(PI.IsInst(i), p.idle);
    forall u | 0 <= u < |p.threads| && u != t && PI.HasInst(p.threads[u]) ensures PI.InstOf(p.threads[u]) != i {
      if PI.InstOf(p.threads[u]) == i {
        SumTwo(PI.Holds(i), p.threads, if t < u then t else u, if t < u then u else t);
      }
    }
  }

  /** The only view a step changes is that of the instance in the mover's hands; building adds one. */
  lemma ViewFrame(s: State, t: Tid, e: Event)
    requires |s.views| == s.pool.next && Enabled(s, t, e)
    ensures |ViewsAfter(s, t, e)| == PoolAfter(s, t, e).next
    ensures forall i :: 0 <= i < |s.views| && ViewsAfter(s, t, e)[i] != s.views[i] ==>
              PI.HasInst(s.pool.threads[t]) && PI.InstOf(s.pool.threads[t]) == i
  {
  }

  /** Every view stays consistent with its version tag. */
  lemma UntornStep(s: State, t: Tid, e: Event)
    requires Documented(s) && Kept(s) && Enabled(s, t, e)
    ensures forall i :: 0 <= i < |ViewsAfter(s, t, e)| ==> Untorn(Next(s, t, e).published, ViewsAfter(s, t, e)[i])
  {
    var s' := Next(s, t, e);
    assert SnapshotOk(s.published, s.version, s.stages[t]);
    forall i | 0 <= i < |s'.views| ensures Untorn(s'.published, s'.views[i]) {
      assert i < |s.views| ==> Untorn(s.published, s.views[i]);
    }
  }

  /** The instance in the mover's hands after a step of the pool's own code. */
  lemma HeldInternal(s: State, t: Tid, e: Event)
    requires Shaped(s) && Kept(s) && Enabled(s, t, e)
    requires PoolEvent(e).Some? && (Internal(s.pool.threads[t]) || s.pool.threads[t].Idle?)
    ensures HeldOk(ViewsAfter(s, t, e), StageAfter(s, t, e), PoolAfter(s, t, e).threads[t])
  {
    assert HeldOk(s.views, s.stages[t], s.pool.threads[t]);
    assert s.pool.idle != [] ==> QueuedOk(s.views, s.pool.idle[0]);
    assert ViewsAfter(s, t, e) == s.views;
  }

  /** The instance in the mover's hands after a callback. */
  lemma HeldCallback(s: State, t: Tid, e: Event)
    requires Shaped(s) && Documented(s) && Kept(s) && Enabled(s, t, e)
    requires PoolEvent(e).Some? && !Internal(s.pool.threads[t]) && !s.pool.threads[t].Idle?
    ensures HeldOk(ViewsAfter(s, t, e), StageAfter(s, t, e), PoolAfter(s, t, e).threads[t])
  {
    assert Coupled(s.stages[t], s.pool.threads[t], s.clock.threads[t], s.pool.closed);
    assert HeldOk(s.views, s.stages[t], s.pool.threads[t]);
    assert SnapshotOk(s.published, s.version, s.stages[t]);
  }

  lemma HeldOutsidePool(s: State, t: Tid, e: Event)
    requires Shaped(s) && Documented(s) && Kept(s) && Enabled(s, t, e) && PoolEvent(e).None?
    ensures HeldOk(ViewsAfter(s, t, e), StageAfter(s, t, e), s.pool.threads[t])
  {
    assert Coupled(s.stages[t], s.pool.threads[t], s.clock.threads[t], s.pool.closed);
    if e.ReadSnapshot? && s.pool.threads[t].Refreshing? {
      assert HeldOk(s.views, s.stages[t], s.pool.threads[t]);
      assert Untorn(s.published, s.views[s.pool.threads[t].inst]);
    }
    assert HeldOk(s.views, s.stages[t], s.pool.threads[t]);
  }

  /** What a pool step puts into the queue is either not an instance or the one being returned. */
  lemma QueueGains(p: P.State, t: Tid, e: P.Event, k: nat)
    requires P.Enabled(p, t, e) && k < |P.Next(p, t, e).idle|
    ensures var slot := P.Next(p, t, e).idle[k];
            slot in p.idle || !slot.Real? || p.threads[t] == P.Returning(slot.inst)
  {
  }

  lemma KeptStep(s: State, t: Tid, e: Event)
    requires PI.Inv(s.pool) && Shaped(s) && Documented(s) && Kept(s) && Enabled(s, t, e)
    ensures Kept(Next(s, t, e))
  {
    var s' := Next(s, t, e);
    ViewFrame(s, t, e);
    UntornStep(s, t, e);
    if PI.HasInst(s.pool.threads[t]) {
      Exclusive(s.pool, t);
    }
    if PoolEvent(e).Some? {
      PoolMove(s.pool, t, PoolEvent(e).value);
      if Internal(s.pool.threads[t]) || s.pool.threads[t].Idle? {
        HeldInternal(s, t, e);
      } else {
        HeldCallback(s, t, e);
      }
    } else {
      HeldOutsidePool(s, t, e);
    }
    OthersHeld(s, t, e);
    QueueKept(s, t, e);
  }

  /** Where the step leaves an unpoisoned instance without a whole document, the mover is reloading it. */
  lemma MoverWhole(s: State, t: Tid, e: Event, i: nat)
    requires Shaped(s) && Kept(s) && Enabled(s, t, e) && i < |ViewsAfter(s, t, e)|
    requires !ViewsAfter(s, t, e)[i].poisoned && !ViewsAfter(s, t, e)[i].intact
    requires PI.HasInst(s.pool.threads[t]) && PI.InstOf(s.pool.threads[t]) == i
    ensures i < |s.views|
    ensures (!s.views[i].poisoned && !s.views[i].intact && !Reloads(s.stages[t], s.pool.threads[t], i))
            || Reloads(StageAfter(s, t, e), PoolAfter(s, t, e).threads[t], i)
  {
    assert HeldOk(s.views, s.stages[t], s.pool.threads[t]);
  }

  lemma WholeStep(s: State, t: Tid, e: Event)
    requires PI.Inv(s.pool) && Shaped(s) && Kept(s) && Enabled(s, t, e) && Shaped(Next(s, t, e))
    requires forall i :: 0 <= i < |s.views| ==> Whole(s, i)
    ensures forall i :: 0 <= i < |Next(s, t, e).views| ==> Whole(Next(s, t, e), i)
  {
    var s' := Next(s, t, e);
    ViewFrame(s, t, e);
    forall i | 0 <= i < |s'.views| && !s'.views[i].poisoned && !s'.views[i].intact
      ensures exists u :: 0 <= u < |s'.stages| && Reloads(s'.stages[u], s'.pool.threads[u], i)
    {
      WholeStepAt(s, t, e, i);
    }
  }

  lemma WholeStepAt(s: State, t: Tid, e: Event, i: nat)
    requires PI.Inv(s.pool) && Shaped(s) && Kept(s) && Enabled(s, t, e) && Shaped(Next(s, t, e))
    requires i < |Next(s, t, e).views| && !Next(s, t, e).views[i].poisoned && !Next(s, t, e).views[i].intact
    requires i < |s.views| ==> Whole(s, i)
    ensures var s' := Next(s, t, e); exists u :: 0 <= u < |s'.stages| && Reloads(s'.stages[u], s'.pool.threads[u], i)
  {
    var s' := Next(s, t, e);
    ViewFrame(s, t, e);
    if PI.HasInst(s.pool.threads[t]) && PI.InstOf(s.pool.threads[t]) == i {
      MoverWhole(s, t, e, i);
      if Reloads(s'.stages[t], s'.pool.threads[t], i) {
      } else {
        var u :| 0 <= u < |s.stages| && Reloads(s.stages[u], s.pool.threads[u], i);
        Exclusive(s.pool, t);
      }
    } else {
      var u :| 0 <= u < |s.stages| && Reloads(s.stages[u], s.pool.threads[u], i);
      assert u != t;
      if PoolEvent(e).Some? {
        PoolMove(s.pool, t, PoolEvent(e).value);
      }
      assert Reloads(s'.stages[u], s'.pool.threads[u], i);
    }
  }

  lemma OthersHeld(s: State, t: Tid, e: Event)
    requires PI.Inv(s.pool) && Shaped(s) && Kept(s) && Enabled(s, t, e)
    ensures forall u :: 0 <= u < |s.stages| && u != t ==>
              HeldOk(ViewsAfter(s, t, e), s.stages[u], s.pool.threads[u])
  {
    ViewFrame(s, t, e);
    if PI.HasInst(s.pool.threads[t]) {
      Exclusive(s.pool, t);
    }
    forall u | 0 <= u < |s.stages| && u != t ensures HeldOk(ViewsAfter(s, t, e), s.stages[u], s.pool.threads[u]) {
      assert HeldOk(s.views, s.stages[u], s.pool.threads[u]);
    }
  }

  lemma QueueKept(s: State, t: Tid, e: Event)
    requires PI.Inv(s.pool) && Shaped(s) && Kept(s) && Enabled(s, t, e)
    ensures forall k :: 0 <= k < |PoolAfter(s, t, e).idle| ==> QueuedOk(ViewsAfter(s, t, e), PoolAfter(s, t, e).idle[k])
  {
    ViewFrame(s, t, e);
    if PI.HasInst(s.pool.threads[t]) {
      Exclusive(s.pool, t);
    }
    assert HeldOk(s.views, s.stages[t], s.pool.threads[t]);
    forall k | 0 <= k < |PoolAfter(s, t, e).idle| ensures QueuedOk(ViewsAfter(s, t, e), PoolAfter(s, t, e).idle[k]) {
      var slot := PoolAfter(s, t, e).idle[k];
      if PoolEvent(e).Some? {
        QueueGains(s.pool, t, PoolEvent(e).value, k);
      }
      if slot in s.pool.idle {
        var j :| 0 <= j < |s.pool.idle| && s.pool.idle[j] == slot;
        assert QueuedOk(s.views, s.pool.idle[j]);
      }
    }
  }

  // ---------------------------------------------------------------------------------------------

  lemma InitInv(threads: nat, maxSize: nat, timeouts: bool, probed: bool)
    requires maxSize >= 1
    ensures Inv(Init(threads, maxSize, timeouts, probed))
  {
    PI.InitInv(threads, maxSize);
    var s := Init(threads, maxSize, timeouts, probed);
    SumZero(Counted, s.stages);
    if threads > 0 {
      T.EnsureAlone(threads);
    }
  }

  lemma EnsuredStep(s: State, t: Tid, e: Event)
    requires T.TickerInv(s.clock) && Shaped(s) && Ensured(s) && Enabled(s, t, e)
    ensures Ensured(Next(s, t, e))
  {
    var s' := Next(s, t, e);
    assert Coupled(s.stages[t], s.pool.threads[t], s.clock.threads[t], s.pool.closed);
    if e.TickerStep? {
      T.TickerStep(s.clock, t, e.call);
    }
    assert s'.stages == s.stages[t := s'.stages[t]];
  }

  lemma StepInv(s: State, t: Tid, e: Event)
    requires Inv(s) && Enabled(s, t, e)
    ensures Inv(Next(s, t, e))
  {
    if PoolEvent(e).Some? {
      PI.StepInv(s.pool, t, PoolEvent(e).value);
    }
    if e.TickerStep? {
      T.TickerStep(s.clock, t, e.call);
    }
    ShapedStep(s, t, e);
    StopsRightlyStep(s, t, e);
    MarkedStep(s, t, e);
    DocumentedStep(s, t, e);
    KeptStep(s, t, e);
    WholeStep(s, t, e);
    EnsuredStep(s, t, e);
  }

  lemma {:induction false} RunInv(s: State, run: Schedule)
    requires Inv(s) && Legal(s, run)
    ensures Inv(Run(s, run))
    decreases |run|
  {
    if run == [] {
    } else {
      StepInv(s, run[0].0, run[0].1);
      RunInv(Next(s, run[0].0, run[0].1), run[1..]);
    }
  }

  lemma ReachableInv(s: State)
    requires Reachable(s)
    ensures Inv(s)
  {
    var threads: nat, maxSize: nat, timeouts: bool, probed: bool, run: Schedule :|
      && maxSize >= 1 && Legal(Init(threads, maxSize, timeouts, probed), run)
      && s == Run(Init(threads, maxSize, timeouts, probed), run);
    InitInv(threads, maxSize, timeouts, probed);
    RunInv(Init(threads, maxSize, timeouts, probed), run);
  }
}

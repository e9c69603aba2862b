/**
 The non-blocking parts of pool.py in their imperative form: the body of `close()` under its lock,
 with the drain loop, and `_release`. Between any two statements every other thread may run
 arbitrarily, so these methods say what one caller gets whatever the others do.
 */
module PoolObject {
  import opened Types
  import opened Sums
  import opened Pool
  import opened PoolInvariant
  import opened PoolTheorems

  predicate WithoutThread(run: Schedule, t: Tid) {
    forall k :: 0 <= k < |run| ==> run[k].0 != t
  }

  /** What one thread can rely on while another takes a step. */
  lemma OtherKeeps(s: State, u: Tid, e: Event, t: Tid)
    requires Reachable(s) && Enabled(s, u, e) && u != t && t < |s.threads|
    ensures var s' := Next(s, u, e);
            && |s'.threads| == |s.threads| && s'.threads[t] == s.threads[t]
            && (s.closed ==> s'.closed && DrainMeasure(s') <= DrainMeasure(s))
            && (s.drained ==> s'.drained)
            && s.closes <= s'.closes && s.recreated <= s'.recreated
  {
    if s.closed {
      ReachableInv(s);
      DrainMeasureStep(s, u, e);
    }
  }

  /** What one thread can rely on while the others run. */
  lemma {:induction false} OthersKeep(s: State, run: Schedule, t: Tid)
    requires Reachable(s) && Legal(s, run) && WithoutThread(run, t) && t < |s.threads|
    ensures var s' := Run(s, run);
            && |s'.threads| == |s.threads| && s'.threads[t] == s.threads[t]
            && (s.closed ==> s'.closed && DrainMeasure(s') <= DrainMeasure(s))
            && (s.drained ==> s'.drained)
            && s.closes <= s'.closes && s.recreated <= s'.recreated
    ensures Reachable(Run(s, run))
    decreases |run|
  {
    ReachableRun(s, run);
    if run == [] {
    } else {
      var s1 := Next(s, run[0].0, run[0].1);
      ReachableStep(s, run[0].0, run[0].1);
      OtherKeeps(s, run[0].0, run[0].1, t);
      assert WithoutThread(run[1..], t) by {
        assert forall k :: 0 <= k < |run[1..]| ==> run[1..][k] == run[k + 1];
      }
      OthersKeep(s1, run[1..], t);
    }
  }

  /** A get_nowait of the drain loop. */
  lemma DrainTurn(s: State, t: Tid)
    requires Reachable(s) && s.closed && t < |s.threads| && s.threads[t].Draining?
    ensures Enabled(s, t, Step)
    ensures var s' := Next(s, t, Step);
            && s'.closed && |s'.threads| == |s.threads|
            && if s.idle == [] then s'.threads[t].Posting? && s'.drained && s'.idle == []
               else (s'.threads[t].Draining? || s'.threads[t].DrainClosing?) && 0 <= DrainMeasure(s') < DrainMeasure(s)
  {
    ReachableInv(s);
    DrainMeasureStep(s, t, Step);
    SumLower(PutAhead, Next(s, t, Step).threads);
  }

  /** The close of a drained instance. */
  lemma DrainCloseTurn(s: State, t: Tid)
    requires Reachable(s) && s.closed && t < |s.threads| && s.threads[t].DrainClosing?
    ensures Enabled(s, t, Step)
    ensures var s' := Next(s, t, Step);
            && s'.closed && |s'.threads| == |s.threads|
            && s'.threads[t].Draining? && 0 <= DrainMeasure(s') <= DrainMeasure(s)
  {
    ReachableInv(s);
    DrainMeasureStep(s, t, Step);
    SumLower(PutAhead, Next(s, t, Step).threads);
  }

  class OpaInstancePool {
    var s: State

    ghost predicate Valid()
      reads this
    {
      Reachable(s)
    }

    constructor (threads: nat, maxSize: nat)
      requires maxSize >= 1
      ensures Valid() && s == Init(threads, maxSize)
    {
      s := Init(threads, maxSize);
      new;
      assert Legal(s, []) && Run(s, []) == s;
    }

    /** One atomic statement of thread t. */
    method Execute(t: Tid, e: Event)
      requires Valid() && Enabled(s, t, e)
      modifies this
      ensures Valid() && s == Next(old(s), t, e)
    {
      ReachableStep(s, t, e);
      s := Next(s, t, e);
    }

    /** Any number of steps of threads other than t, in any order. */
    method OthersRun(t: Tid)
      requires Valid() && t < |s.threads|
      modifies this
      ensures Valid() && |s.threads| == |old(s).threads| && s.threads[t] == old(s).threads[t]
      ensures old(s).closed ==> s.closed && DrainMeasure(s) <= DrainMeasure(old(s))
      ensures old(s).drained ==> s.drained
      ensures old(s).closes <= s.closes && old(s).recreated <= s.recreated
    {
      var run: Schedule := *;
      if Legal(s, run) && WithoutThread(run, t) {
        OthersKeep(s, run, t);
        s := Run(s, run);
      }
    }

    /** One turn of the drain loop: take a slot and close the instance in it, or find the queue empty. */
    method DrainOne(t: Tid)
      requires Valid() && t < |s.threads| && s.threads[t].Draining? && s.closed
      modifies this
      ensures Valid() && |s.threads| == |old(s).threads| && s.closed
      ensures || (s.threads[t].Posting? && s.drained && s.idle == [])
              || (s.threads[t].Draining? && 0 <= DrainMeasure(s) < DrainMeasure(old(s)))
    {
      OthersRun(t);
      DrainTurn(s, t);
      Execute(t, Step);
      if s.threads[t].DrainClosing? {
        OthersRun(t);
        DrainCloseTurn(s, t);
        Execute(t, Step);
      }
    }

    /** The drain loop: terminates whatever the other threads do, and ends on an empty queue. */
    method Drain(t: Tid)
      requires Valid() && t < |s.threads| && s.threads[t].Draining? && s.closed
      modifies this
      ensures Valid() && |s.threads| == |old(s).threads| && s.threads[t].Posting?
      ensures s.closed && s.drained && s.idle == []
    {
      while s.threads[t].Draining?
        invariant Valid() && |s.threads| == |old(s).threads| && s.closed
        invariant s.threads[t].Draining? || (s.threads[t].Posting? && s.drained && s.idle == [])
        decreases s.threads[t].Draining?, DrainMeasure(s)
      {
        DrainOne(t);
      }
    }

    /** close() from the point where it holds the lock: on return the flag is set and the drain is over. */
    method CloseLocked(t: Tid)
      requires Valid() && t < |s.threads| && s.threads[t].CloseCheck?
      modifies this
      ensures Valid() && |s.threads| == |old(s).threads| && s.threads[t].Idle?
      ensures s.closed && s.drained && s.posted
    {
      OthersRun(t);
      Execute(t, Step);
      if s.threads[t].CloseSet? {
        OthersRun(t);
        Execute(t, Step);
        Drain(t);
        OthersRun(t);
        Execute(t, Step);
      }
      Unlock(t);
    }

    method Unlock(t: Tid)
      requires Valid() && t < |s.threads| && s.threads[t].Unlocking?
      modifies this
      ensures Valid() && |s.threads| == |old(s).threads| && s.threads[t].Idle?
      ensures s.closed && s.drained && s.posted
    {
      OthersRun(t);
      ReachableInv(s);
      assert PhaseOk(s, t);
      Execute(t, Step);
    }

    /**
     _take_slot after the draw: a slot drawn from a pool that stays open is always admitted; one
     drawn once the flag is set never leads to a loan, and a real instance drawn that way is closed
     by this very call instead of leaking past the drain.
     */
    method CheckDrawn(t: Tid) returns (admitted: bool)
      requires Valid() && t < |s.threads| && s.threads[t].Drew?
      modifies this
      ensures Valid() && |s.threads| == |old(s).threads|
      ensures var slot := old(s).threads[t].slot;
              && (old(s).closed || slot.Sentinel? ==> !admitted)
              && (!s.closed && !slot.Sentinel? ==> admitted)
              && (admitted ==> s.threads[t] == if slot.Real? then Refreshing(slot.inst) else Building)
              && (!admitted ==> s.threads[t].Idle? && (slot.Real? ==> s.closes[slot.inst] == 1))
    {
      ghost var slot := s.threads[t].slot;
      OthersRun(t);
      Execute(t, Step);
      admitted := s.threads[t].Building? || s.threads[t].Refreshing?;
      if !admitted {
        if s.threads[t].DropDrawn? {
          OthersRun(t);
          Execute(t, Step);
        }
        OthersRun(t);
        Execute(t, Step);
        if slot.Real? {
          ExclusiveOwnership(s, slot.inst);
        }
      }
    }

    /** The discarding branch of _release: the slot goes back, the instance is closed. */
    method Discard(t: Tid)
      requires Valid() && t < |s.threads| && (s.threads[t].Recreating? || s.threads[t].Vacating?)
      modifies this
      ensures Valid() && |s.threads| == |old(s).threads| && s.threads[t].Idle?
      ensures s.closes[old(s).threads[t].inst] == 1
      ensures old(s).closed ==> s.closed
      ensures s.recreated >= old(s).recreated + if old(s).threads[t].Recreating? then 1 else 0
    {
      ghost var i := s.threads[t].inst;
      if s.threads[t].Recreating? {
        OthersRun(t);
        Execute(t, Step);
      }
      OthersRun(t);
      Execute(t, Step);
      OthersRun(t);
      Execute(t, Step);
      ExclusiveOwnership(s, i);
    }

    /** The other branch: the instance goes back, and only a closed pool can have no room for it. */
    method PutBack(t: Tid)
      requires Valid() && t < |s.threads| && s.threads[t].Returning?
      modifies this
      ensures Valid() && |s.threads| == |old(s).threads| && s.threads[t].Idle?
      ensures var i := old(s).threads[t].inst;
              || (s.idle != [] && s.idle[|s.idle| - 1] == Real(i))
              || (s.closed && i in s.dropped)
    {
      OthersRun(t);
      SlotConservation(s);
      Execute(t, Step);
    }

    /**
     _release: an instance that is discarded or poisoned, or released into a closed pool, is closed
     by this very call, and the discard is counted if the pool is still open. A healthy one released
     into a pool still open on return is the last in the queue; if close() came in between it may
     have been closed, or lost by a full queue, instead.
     */
    method Release(t: Tid)
      requires Valid() && t < |s.threads| && s.threads[t].Releasing?
      modifies this
      ensures Valid() && |s.threads| == |old(s).threads| && s.threads[t].Idle?
      ensures var i := old(s).threads[t].inst;
              && (old(s).closed || old(s).threads[t].bad ==> s.closes[i] == 1)
              && (old(s).threads[t].bad && !s.closed ==> s.recreated > old(s).recreated)
              && (!old(s).threads[t].bad ==>
                    || (s.idle != [] && s.idle[|s.idle| - 1] == Real(i))
                    || (s.closed && (s.closes[i] == 1 || i in s.dropped)))
    {
      OthersRun(t);
      Execute(t, Step);
      if s.threads[t].Returning? {
        PutBack(t);
      } else {
        Discard(t);
      }
    }
  }
}

/**
 What each operation of the pool does when its thread runs alone: the concurrent steps, taken
 without interruption from any reachable state, are the simple sequential operations.
 */
module PoolSerial {
  import opened Types
  import opened Sums
  import opened Pool
  import opened PoolInvariant
  import opened PoolTheorems

  /** The run is thread t's alone, a single operation or part of one, and leads from s to s'. */
  predicate Solo(s: State, t: Tid, first: Event, run: Schedule, s': State) {
    && run != [] && run[0].1 == first && Legal(s, run) && Run(s, run) == s'
    && (forall k :: 0 <= k < |run| ==> run[k].0 == t)
    && (forall k :: 1 <= k < |run| ==> !Starts(run[k].1))
  }

  /** Thread t's own steps, beginning with first, lead from s to s' within one operation. */
  ghost predicate Does(s: State, t: Tid, first: Event, s': State) {
    exists run :: Solo(s, t, first, run, s')
  }

  /** More steps of thread t in the same operation. */
  predicate Continues(run: Schedule, t: Tid) {
    forall k :: 0 <= k < |run| ==> run[k].0 == t && !Starts(run[k].1)
  }

  lemma OwnTail(run: Schedule, t: Tid)
    requires run != [] && Continues(run, t)
    ensures Continues(run[1..], t)
  {
    assert forall k :: 0 <= k < |run[1..]| ==> run[1..][k] == run[k + 1];
  }

  lemma OwnRest(s: State, t: Tid, first: Event, run: Schedule, s': State)
    requires Solo(s, t, first, run, s')
    ensures run[0] == (t, first) && Continues(run[1..], t)
    ensures Legal(Next(s, t, first), run[1..]) && Run(Next(s, t, first), run[1..]) == s'
  {
    assert forall k :: 0 <= k < |run[1..]| ==> run[1..][k] == run[k + 1];
  }

  /** A thread that has left takes no step without starting an operation. */
  lemma IdleStops(s: State, t: Tid, run: Schedule)
    requires t < |s.threads| && s.threads[t].Idle? && Legal(s, run) && Continues(run, t)
    ensures run == []
  {
  }

  function At(s: State, t: Tid, pc: Pc): State {
    if t < |s.threads| then s.(threads := s.threads[t := pc]) else s
  }

  lemma Begin(s: State, t: Tid, e: Event, s': State)
    requires Enabled(s, t, e) && Next(s, t, e) == s'
    ensures Does(s, t, e, s')
  {
    RunOne(s, t, e);
    assert Solo(s, t, e, [(t, e)], s');
  }

  lemma Then(s: State, t: Tid, first: Event, s1: State, e: Event, s2: State)
    requires Does(s, t, first, s1) && Enabled(s1, t, e) && !Starts(e) && Next(s1, t, e) == s2
    ensures Does(s, t, first, s2)
  {
    var run :| Solo(s, t, first, run, s1);
    RunAppend(s, run, t, e);
    var longer := run + [(t, e)];
    assert Solo(s, t, first, longer, s2);
  }

  lemma Compose(s: State, t: Tid, first: Event, s1: State, s2: State)
    requires Does(s, t, first, s1) && Does(s1, t, Step, s2)
    ensures Does(s, t, first, s2)
  {
    var a :| Solo(s, t, first, a, s1);
    var b :| Solo(s1, t, Step, b, s2);
    RunConcat(s, a, b);
    assert Solo(s, t, first, a + b, s2);
  }

  /** One statement whose only effect is on the program counter. */
  lemma Moved(s: State, t: Tid, first: Event, s1: State, e: Event, pc: Pc)
    requires Does(s, t, first, s1) && Enabled(s1, t, e) && !Starts(e)
    requires EffectOf(s1, t, e) == Effect(pc, Keep, SharedOp.Nothing)
    ensures Does(s, t, first, At(s1, t, pc))
  {
    Then(s, t, first, s1, e, At(s1, t, pc));
  }

  /** One statement that closes an instance. */
  lemma Closed(s: State, t: Tid, first: Event, s1: State, i: Inst, pc: Pc)
    requires Does(s, t, first, s1) && Enabled(s1, t, Step) && EffectOf(s1, t, Step) == Effect(pc, Keep, Closes(i))
    ensures Does(s, t, first, At(s1, t, pc).(closes := s1.closes + multiset{i}))
  {
    Then(s, t, first, s1, Step, At(s1, t, pc).(closes := s1.closes + multiset{i}));
  }

  /** One statement that puts a placeholder or a sentinel. */
  lemma Put(s: State, t: Tid, first: Event, s1: State, slot: Slot, pc: Pc)
    requires Does(s, t, first, s1) && Enabled(s1, t, Step) && !slot.Real?
    requires EffectOf(s1, t, Step) == Effect(pc, Offer(slot), SharedOp.Nothing)
    ensures Does(s, t, first, At(s1, t, pc).(idle := IdleAfter(s1, Offer(slot))))
  {
    Then(s, t, first, s1, Step, At(s1, t, pc).(idle := IdleAfter(s1, Offer(slot))));
  }

  lemma AtTwice(s: State, t: Tid, a: Pc, b: Pc)
    ensures At(At(s, t, a), t, b) == At(s, t, b)
  {
    if t < |s.threads| {
      assert s.threads[t := a][t := b] == s.threads[t := b];
    }
  }

  // ---------------------------------------------------------------------------------------------
  // borrow

  lemma Enters(s: State, t: Tid)
    requires t < |s.threads| && s.threads[t].Idle? && !s.closed
    ensures Does(s, t, StartBorrow, At(s, t, Waiting))
  {
    Begin(s, t, StartBorrow, At(s, t, BorrowEntry));
    Moved(s, t, StartBorrow, At(s, t, BorrowEntry), Step, Waiting);
    AtTwice(s, t, BorrowEntry, Waiting);
  }

  lemma Draws(s: State, t: Tid)
    requires t < |s.threads| && s.threads[t].Idle? && !s.closed && s.idle != []
    ensures Does(s, t, StartBorrow, At(s, t, Drew(s.idle[0])).(idle := s.idle[1..]))
  {
    Enters(s, t);
    AtTwice(s, t, Waiting, Drew(s.idle[0]));
    Then(s, t, StartBorrow, At(s, t, Waiting), Step, At(s, t, Drew(s.idle[0])).(idle := s.idle[1..]));
  }

  /** An idle instance at the head of an open pool's queue is lent, and nothing else changes. */
  lemma BorrowReuses(s: State, t: Tid)
    requires t < |s.threads| && s.threads[t].Idle? && !s.closed && s.idle != [] && s.idle[0].Real?
    ensures Does(s, t, StartBorrow, At(s, t, Loaned(s.idle[0].inst)).(idle := s.idle[1..]))
  {
    Draws(s, t);
    var i, rest := s.idle[0].inst, s.(idle := s.idle[1..]);
    Moved(s, t, StartBorrow, At(rest, t, Drew(Real(i))), Step, Refreshing(i));
    AtTwice(rest, t, Drew(Real(i)), Refreshing(i));
    Lends(s, t, rest, i);
  }

  lemma Lends(s: State, t: Tid, s1: State, i: Inst)
    requires t < |s1.threads| && Does(s, t, StartBorrow, At(s1, t, Refreshing(i)))
    ensures Does(s, t, StartBorrow, At(s1, t, Loaned(i)))
  {
    Moved(s, t, StartBorrow, At(s1, t, Refreshing(i)), Step, Loaned(i));
    AtTwice(s1, t, Refreshing(i), Loaned(i));
  }

  /** A placeholder at the head leads to the factory. */
  lemma CallsFactory(s: State, t: Tid)
    requires t < |s.threads| && s.threads[t].Idle? && !s.closed && s.idle != [] && s.idle[0].Placeholder?
    ensures Does(s, t, StartBorrow, At(s, t, Building).(idle := s.idle[1..]))
  {
    Draws(s, t);
    var rest := s.(idle := s.idle[1..]);
    Moved(s, t, StartBorrow, At(rest, t, Drew(Placeholder)), Step, Building);
    AtTwice(rest, t, Drew(Placeholder), Building);
  }

  /** A placeholder at the head is replaced by one new instance, built, counted and lent. */
  lemma BorrowBuilds(s: State, t: Tid)
    requires t < |s.threads| && s.threads[t].Idle? && !s.closed && s.idle != [] && s.idle[0].Placeholder?
    ensures Does(s, t, StartBorrow,
                 At(s, t, Loaned(s.next)).(idle := s.idle[1..], next := s.next + 1, created := s.created + 1))
  {
    CallsFactory(s, t);
    var rest := s.(idle := s.idle[1..]);
    FactoryReturns(s, t, rest);
    Lends(s, t, rest.(next := s.next + 1, created := s.created + 1), s.next);
  }

  lemma FactoryReturns(s: State, t: Tid, s1: State)
    requires t < |s1.threads| && Does(s, t, StartBorrow, At(s1, t, Building))
    ensures Does(s, t, StartBorrow, At(s1.(next := s1.next + 1, created := s1.created + 1), t, Refreshing(s1.next)))
  {
    var i, built := s1.next, s1.(next := s1.next + 1);
    AtTwice(s1, t, Building, Built(i));
    Then(s, t, StartBorrow, At(s1, t, Building), Step, At(built, t, Built(i)));
    AtTwice(built, t, Built(i), Refreshing(i));
    Then(s, t, StartBorrow, At(built, t, Built(i)), Step, At(built.(created := s1.created + 1), t, Refreshing(i)));
  }

  /** A factory that fails leaves an open pool as it was, with the slot at the end of the queue. */
  lemma BorrowSurvivesFactory(s: State, t: Tid)
    requires Reachable(s) && t < |s.threads| && s.threads[t].Idle? && !s.closed && s.idle != [] && s.idle[0].Placeholder?
    ensures Does(s, t, StartBorrow, s.(idle := s.idle[1..] + [Placeholder]))
  {
    ReachableInv(s);
    CallsFactory(s, t);
    var rest := s.(idle := s.idle[1..]);
    Moved(s, t, StartBorrow, At(rest, t, Building), FactoryFails, Restoring);
    AtTwice(rest, t, Building, Restoring);
    AtTwice(rest, t, Restoring, Idle);
    assert s.threads[t := Idle] == s.threads;
    Then(s, t, StartBorrow, At(rest, t, Restoring), Step, s.(idle := s.idle[1..] + [Placeholder]));
  }

  /** A closed pool refuses, and an empty one may time out, but no other; either way nothing changes. */
  lemma BorrowGivesUp(s: State, t: Tid)
    requires t < |s.threads| && s.threads[t].Idle?
    ensures forall u: Tid :: Enabled(s, u, TimeOut) ==> s.threads[u].Waiting? && s.idle == []
    ensures s.closed ==> Solo(s, t, StartBorrow, [(t, StartBorrow), (t, Step)], s)
    ensures !s.closed && s.idle == [] ==> Solo(s, t, StartBorrow, [(t, StartBorrow), (t, Step), (t, TimeOut)], s)
  {
    AtTwice(s, t, BorrowEntry, Idle);
    AtTwice(s, t, BorrowEntry, Waiting);
    AtTwice(s, t, Waiting, Idle);
    assert s.threads[t := Idle] == s.threads;
    assert Next(s, t, StartBorrow) == At(s, t, BorrowEntry);
    var s1 := At(s, t, BorrowEntry);
    if s.closed {
      assert Next(s1, t, Step) == s;
      RunOne(s1, t, Step);
      RunFront(s, t, StartBorrow, [(t, Step)]);
    } else if s.idle == [] {
      var s2 := At(s, t, Waiting);
      assert Next(s1, t, Step) == s2 && Next(s2, t, TimeOut) == s;
      RunOne(s2, t, TimeOut);
      RunFront(s1, t, Step, [(t, TimeOut)]);
      RunFront(s, t, StartBorrow, [(t, Step), (t, TimeOut)]);
    }
  }

  lemma RunOne(s: State, t: Tid, e: Event)
    requires Enabled(s, t, e)
    ensures Legal(s, [(t, e)]) && Run(s, [(t, e)]) == Next(s, t, e)
  {
    assert [(t, e)][1..] == [];
  }

  lemma RunFront(s: State, t: Tid, e: Event, rest: Schedule)
    requires Enabled(s, t, e) && Legal(Next(s, t, e), rest)
    ensures Legal(s, [(t, e)] + rest) && Run(s, [(t, e)] + rest) == Run(Next(s, t, e), rest)
  {
    assert ([(t, e)] + rest)[1..] == rest;
  }

  /** A waiter woken in a closed pool draws the slot and leaves a sentinel for the next one. */
  lemma WaiterIsWoken(s: State, t: Tid)
    requires Reachable(s) && t < |s.threads| && s.threads[t].Waiting? && s.closed && s.idle != [] && !s.idle[0].Real?
    ensures Does(s, t, Step, At(s, t, Idle).(idle := s.idle[1..] + [Sentinel]))
  {
    ReachableInv(s);
    var slot, rest := s.idle[0], s.(idle := s.idle[1..]);
    Begin(s, t, Step, At(rest, t, Drew(slot)));
    Moved(s, t, Step, At(rest, t, Drew(slot)), Step, Repost);
    AtTwice(rest, t, Drew(slot), Repost);
    AtTwice(rest, t, Repost, Idle);
    Then(s, t, Step, At(rest, t, Repost), Step, At(s, t, Idle).(idle := s.idle[1..] + [Sentinel]));
  }

  // ---------------------------------------------------------------------------------------------
  // _release

  /** A healthy instance goes to the end of an open pool's queue, and nothing else changes. */
  lemma ReturnRequeues(s: State, t: Tid)
    requires Reachable(s) && t < |s.threads| && s.threads[t].Loaned? && !s.closed
    ensures Does(s, t, EndLoan(false), At(s, t, Idle).(idle := s.idle + [Real(s.threads[t].inst)]))
  {
    ReachableInv(s);
    RoomWhileOpen(s, t);
    var i, e := s.threads[t].inst, EndLoan(false);
    Begin(s, t, e, At(s, t, Releasing(i, false)));
    Moved(s, t, e, At(s, t, Releasing(i, false)), Step, Returning(i));
    AtTwice(s, t, Releasing(i, false), Returning(i));
    AtTwice(s, t, Returning(i), Idle);
    Then(s, t, e, At(s, t, Returning(i)), Step, At(s, t, Idle).(idle := s.idle + [Real(i)]));
  }

  /** A bad instance of an open pool is closed and replaced by a placeholder, and the recreation counted. */
  lemma DiscardReplaces(s: State, t: Tid)
    requires Reachable(s) && t < |s.threads| && s.threads[t].Loaned? && !s.closed
    ensures Does(s, t, EndLoan(true), At(s, t, Idle).(idle := s.idle + [Placeholder],
                                                      closes := s.closes + multiset{s.threads[t].inst},
                                                      recreated := s.recreated + 1))
  {
    ReachableInv(s);
    RoomWhileOpen(s, t);
    var i, e := s.threads[t].inst, EndLoan(true);
    Begin(s, t, e, At(s, t, Releasing(i, true)));
    Moved(s, t, e, At(s, t, Releasing(i, true)), Step, Recreating(i));
    AtTwice(s, t, Releasing(i, true), Recreating(i));
    AtTwice(s, t, Recreating(i), Vacating(i));
    Then(s, t, e, At(s, t, Recreating(i)), Step, At(s.(recreated := s.recreated + 1), t, Vacating(i)));
    Disposes(s, t, e, s.(recreated := s.recreated + 1), i);
  }

  /** In a closed pool every instance that comes back is closed, healthy or not, and none counted. */
  lemma ReturnAfterClose(s: State, t: Tid, bad: bool)
    requires t < |s.threads| && s.threads[t].Loaned? && s.closed
    ensures Does(s, t, EndLoan(bad), At(s, t, Idle).(
                   idle := if |s.idle| < s.maxSize then s.idle + [Placeholder] else s.idle,
                   closes := s.closes + multiset{s.threads[t].inst}))
  {
    var i, e := s.threads[t].inst, EndLoan(bad);
    Begin(s, t, e, At(s, t, Releasing(i, bad)));
    Moved(s, t, e, At(s, t, Releasing(i, bad)), Step, Vacating(i));
    AtTwice(s, t, Releasing(i, bad), Vacating(i));
    Disposes(s, t, e, s, i);
  }

  lemma Disposes(s0: State, t: Tid, first: Event, s: State, i: Inst)
    requires t < |s.threads| && Does(s0, t, first, At(s, t, Vacating(i)))
    ensures Does(s0, t, first, At(s, t, Idle).(idle := if |s.idle| < s.maxSize then s.idle + [Placeholder] else s.idle,
                                               closes := s.closes + multiset{i}))
  {
    Put(s0, t, first, At(s, t, Vacating(i)), Placeholder, Disposing(i));
    AtTwice(s, t, Vacating(i), Disposing(i));
    var put := s.(idle := if |s.idle| < s.maxSize then s.idle + [Placeholder] else s.idle);
    Closed(s0, t, first, At(put, t, Disposing(i)), i, Idle);
    AtTwice(put, t, Disposing(i), Idle);
  }

  // ---------------------------------------------------------------------------------------------
  // close

  /** The instances in the queue. */
  function Instances(idle: seq<Slot>): multiset<Inst> {
    if idle == [] then multiset{}
    else (if idle[0].Real? then multiset{idle[0].inst} else multiset{}) + Instances(idle[1..])
  }

  /** The queue with its head taken, and closed if it is an instance. */
  function HeadClosed(s: State): State
    requires s.idle != []
  {
    s.(idle := s.idle[1..], closes := if s.idle[0].Real? then s.closes + multiset{s.idle[0].inst} else s.closes)
  }

  lemma DrainsHead(s: State, t: Tid)
    requires t < |s.threads| && s.threads[t].Draining? && s.idle != []
    ensures Does(s, t, Step, HeadClosed(s))
  {
    var rest := s.(idle := s.idle[1..]);
    assert s.threads[t := Draining] == s.threads;
    if s.idle[0].Real? {
      var i := s.idle[0].inst;
      Begin(s, t, Step, At(rest, t, DrainClosing(i)));
      AtTwice(rest, t, DrainClosing(i), Draining);
      Closed(s, t, Step, At(rest, t, DrainClosing(i)), i, Draining);
    } else {
      Begin(s, t, Step, HeadClosed(s));
    }
  }

  /** The drain closes every instance in the queue and leaves it empty. */
  lemma {:induction false} Drains(s: State, t: Tid)
    requires t < |s.threads| && s.threads[t].Draining?
    ensures Does(s, t, Step, At(s, t, Posting).(idle := [], closes := s.closes + Instances(s.idle), drained := true))
    decreases |s.idle|
  {
    if s.idle == [] {
      Begin(s, t, Step, At(s, t, Posting).(drained := true));
      assert s.closes + Instances(s.idle) == s.closes;
    } else {
      var rest := HeadClosed(s);
      DrainsHead(s, t);
      Drains(rest, t);
      assert rest.closes + Instances(rest.idle) == s.closes + Instances(s.idle);
      Compose(s, t, Step, rest, At(s, t, Posting).(idle := [], closes := s.closes + Instances(s.idle), drained := true));
    }
  }

  /** The first close() sets the flag, closes every idle instance and leaves one wake sentinel. */
  lemma CloseDisposes(s: State, t: Tid)
    requires Reachable(s) && t < |s.threads| && s.threads[t].Idle? && !s.closed && s.lock.None?
    ensures Does(s, t, StartClose, s.(closed := true, idle := [Sentinel], closes := s.closes + Instances(s.idle),
                                      atRisk := BeingReturned(s.threads), drained := true, posted := true))
  {
    ReachableInv(s);
    TakesLock(s, t);
    SetsTheFlag(s, t);
    var flagged := s.(lock := Some(t), closed := true, atRisk := BeingReturned(s.threads));
    Drains(At(flagged, t, Draining), t);
    var drained := flagged.(idle := [], closes := s.closes + Instances(s.idle), drained := true);
    AtTwice(flagged, t, Draining, Posting);
    Compose(s, t, StartClose, At(flagged, t, Draining), At(drained, t, Posting));
    PostsAndLeaves(s, t, drained);
    assert s.threads[t := Idle] == s.threads;
  }

  lemma TakesLock(s: State, t: Tid)
    requires t < |s.threads| && s.threads[t].Idle? && s.lock.None?
    ensures Does(s, t, StartClose, At(s.(lock := Some(t)), t, CloseCheck))
  {
    Begin(s, t, StartClose, At(s, t, CloseEntry));
    AtTwice(s, t, CloseEntry, CloseCheck);
    Then(s, t, StartClose, At(s, t, CloseEntry), Step, At(s.(lock := Some(t)), t, CloseCheck));
  }

  lemma SetsTheFlag(s: State, t: Tid)
    requires t < |s.threads| && s.threads[t].Idle? && !s.closed
    requires Does(s, t, StartClose, At(s.(lock := Some(t)), t, CloseCheck))
    ensures Does(s, t, StartClose, At(s.(lock := Some(t), closed := true, atRisk := BeingReturned(s.threads)), t, Draining))
  {
    var held := s.(lock := Some(t));
    Moved(s, t, StartClose, At(held, t, CloseCheck), Step, CloseSet);
    AtTwice(held, t, CloseCheck, CloseSet);
    ReturnedAside(s.threads, t, CloseSet);
    AtTwice(held, t, CloseSet, Draining);
    Then(s, t, StartClose, At(held, t, CloseSet), Step,
         At(held.(closed := true, atRisk := BeingReturned(s.threads)), t, Draining));
  }

  lemma ReturnedAside(threads: seq<Pc>, t: Tid, pc: Pc)
    requires t < |threads| && !threads[t].Returning? && !pc.Returning?
    ensures BeingReturned(threads[t := pc]) == BeingReturned(threads)
  {
    forall i | i in BeingReturned(threads) ensures i in BeingReturned(threads[t := pc]) {
      var u :| 0 <= u < |threads| && threads[u].Returning? && threads[u].inst == i;
      assert threads[t := pc][u] == threads[u];
    }
  }

  lemma PostsAndLeaves(s: State, t: Tid, drained: State)
    requires t < |drained.threads| && drained.idle == [] && drained.maxSize >= 1
    requires Does(s, t, StartClose, At(drained, t, Posting))
    ensures Does(s, t, StartClose, At(drained.(idle := [Sentinel], posted := true, lock := None), t, Idle))
  {
    var posted := drained.(idle := [Sentinel], posted := true);
    AtTwice(drained, t, Posting, Unlocking);
    Then(s, t, StartClose, At(drained, t, Posting), Step, At(posted, t, Unlocking));
    AtTwice(posted, t, Unlocking, Idle);
    Then(s, t, StartClose, At(posted, t, Unlocking), Step, At(posted.(lock := None), t, Idle));
  }

  /** A later close() comes and goes and changes nothing. */
  lemma CloseAgain(s: State, t: Tid)
    requires t < |s.threads| && s.threads[t].Idle? && s.closed && s.lock.None?
    ensures Does(s, t, StartClose, s)
  {
    TakesLock(s, t);
    var held := s.(lock := Some(t));
    Moved(s, t, StartClose, At(held, t, CloseCheck), Step, Unlocking);
    AtTwice(held, t, CloseCheck, Unlocking);
    AtTwice(held, t, Unlocking, Idle);
    assert s.threads[t := Idle] == s.threads;
    Then(s, t, StartClose, At(held, t, Unlocking), Step, s);
  }
}

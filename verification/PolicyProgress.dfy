/** Progress of the policy facade: it never deadlocks, and a close() runs to its end under every scheduler. */
module PolicyProgress {
  import opened Types
  import opened Sums
  import opened InstanceView
  import opened Policy
  import opened PolicyInvariant
  import P = Pool
  import PI = PoolInvariant
  import PT = PoolTheorems
  import Theorems = PolicyTheorems
  import T = Ticker

  predicate Begins(e: Event) { e.BeginEvaluation? || e.BeginClose? || e.BeginSetData? }

  /** A step of an operation already begun, not relying on a borrow timeout. */
  ghost predicate CanMove(s: State, t: Tid) {
    exists e :: !Begins(e) && !e.PoolTimeOut? && Enabled(s, t, e)
  }

  /**
   A host builtin is client code and may evaluate on the same policy. The inner evaluation is then a
   thread of its own, and the outer one stays in the guest until it is over: outer is the set of
   threads suspended in this way.
   */
  predicate Suspended(s: State, outer: set<Tid>) {
    forall t :: t in outer ==> t < |s.stages| && s.stages[t].Borrowing? && s.stages[t].sub.InGuest?
  }

  /** Some operation outside the suspended ones is in progress. */
  predicate Busy(s: State, outer: set<Tid>) {
    exists t :: 0 <= t < |s.stages| && t !in outer && !s.stages[t].Outside?
  }

  /** Some operation outside the suspended ones can take its next step. */
  ghost predicate Advances(s: State, outer: set<Tid>) {
    exists t :: 0 <= t < |s.stages| && t !in outer && CanMove(s, t)
  }

  /** Every operation that is not suspended is a borrow waiting on the empty queue of an open pool. */
  predicate SelfBlocked(s: State, outer: set<Tid>)
    requires |s.stages| == |s.pool.threads|
  {
    && !s.pool.closed && s.pool.idle == []
    && forall t :: 0 <= t < |s.stages| && t !in outer ==>
         s.stages[t].Outside? || (s.stages[t].Borrowing? && s.pool.threads[t].Waiting?)
  }

  // ---------------------------------------------------------------------------------------------
  // Who can move

  lemma Moves(s: State, outer: set<Tid>, t: Tid, e: Event)
    requires Enabled(s, t, e) && !Begins(e) && !e.PoolTimeOut? && t !in outer
    ensures Advances(s, outer)
  {
    assert CanMove(s, t);
  }

  /** A thread inside the ticker moves, or waits for one that does. */
  lemma TickerMoves(s: State, outer: set<Tid>, t: Tid)
    requires Inv(s) && Suspended(s, outer) && t < |s.stages|
    requires s.stages[t].Stopping? || (s.stages[t].Borrowing? && s.stages[t].sub.Starting?)
    ensures Advances(s, outer)
  {
    assert Coupled(s.stages[t], s.pool.threads[t], s.clock.threads[t], s.pool.closed);
    var phase := s.clock.threads[t];
    if phase.Resting? {
      Moves(s, outer, t, TickerStep(if s.stages[t].Stopping? then T.CallClose else T.CallEnsure));
    } else if s.clock.lock.Some? {
      var u := s.clock.lock.value;
      assert T.PhaseFits(s.clock, u);
      assert Coupled(s.stages[u], s.pool.threads[u], s.clock.threads[u], s.pool.closed);
      Moves(s, outer, u, TickerStep(T.Proceed));
    } else {
      Moves(s, outer, t, TickerStep(T.Proceed));
    }
  }

  /** A thread that the pool lets move, moves in the facade too, through whichever callback it is in. */
  lemma BorrowerMoves(s: State, outer: set<Tid>, t: Tid)
    requires Inv(s) && Suspended(s, outer) && t < |s.stages| && t !in outer && PT.CanMove(s.pool, t)
    ensures Advances(s, outer)
  {
    var stage, pc := s.stages[t], s.pool.threads[t];
    assert Coupled(stage, pc, s.clock.threads[t], s.pool.closed);
    assert HeldOk(s.views, stage, pc);
    if Internal(pc) {
      Moves(s, outer, t, PoolStep);
    } else if pc.Loaned? {
      Moves(s, outer, t, if stage.sub.InGuest? then EvalAnswers else EnterGuest);
    } else if stage.sub.Plain? {
      Moves(s, outer, t, ReadSnapshot);
    } else if stage.sub.Starting? {
      TickerMoves(s, outer, t);
    } else if pc.Building? {
      Moves(s, outer, t, if stage.sub.Snapped? then BuildReady else BuildDone);
    } else if stage.sub.Reloading? {
      Moves(s, outer, t, ReloadDone);
    } else {
      Moves(s, outer, t, if s.views[pc.inst].version == stage.sub.ver then UpToDate else BeginReload);
    }
  }

  /** A suspended evaluation is a suspended loan. */
  lemma SuspendedLoans(s: State, outer: set<Tid>)
    requires Shaped(s) && Suspended(s, outer)
    ensures PT.Suspended(s.pool, outer)
  {
    forall t | t in outer ensures t < |s.pool.threads| && s.pool.threads[t].Loaned? {
      assert Coupled(s.stages[t], s.pool.threads[t], s.clock.threads[t], s.pool.closed);
    }
  }

  /** A thread inside the pool moves, or another does, or the pool is blocked by its own clients. */
  lemma InPoolMoves(s: State, outer: set<Tid>, t: Tid)
    requires Inv(s) && Suspended(s, outer) && t < |s.stages| && t !in outer && !s.pool.threads[t].Idle?
    ensures Advances(s, outer) || PT.SelfBlocked(s.pool, outer)
  {
    SuspendedLoans(s, outer);
    assert PT.Busy(s.pool, outer);
    PT.PoolMoves(s.pool, outer);
    if PT.Advances(s.pool, outer) {
      var u :| 0 <= u < |s.pool.threads| && u !in outer && PT.CanMove(s.pool, u);
      BorrowerMoves(s, outer, u);
    }
  }

  lemma MovesOrWaits(s: State, outer: set<Tid>, t: Tid)
    requires Inv(s) && Suspended(s, outer) && t < |s.stages| && t !in outer && !s.stages[t].Outside?
    ensures Advances(s, outer)
            || (PT.SelfBlocked(s.pool, outer) && s.stages[t].Borrowing? && s.pool.threads[t].Waiting?)
  {
    assert Coupled(s.stages[t], s.pool.threads[t], s.clock.threads[t], s.pool.closed);
    match s.stages[t]
    case Entered => Moves(s, outer, t, BeginBorrow);
    case Borrowing(_, _) => InPoolMoves(s, outer, t);
    case ClosingPool => InPoolMoves(s, outer, t);
    case Exiting => Moves(s, outer, t, ExitEvaluation);
    case Stopping => TickerMoves(s, outer, t);
    case Marking => Moves(s, outer, t, MarkClosed);
    case Checking(_) => Moves(s, outer, t, CheckOpen);
    case Swapping(_) => Moves(s, outer, t, Publish);
  }

  /** A thread outside, or at the queue of an empty pool, cannot move by itself. */
  lemma WaiterCannotMove(s: State, t: Tid)
    requires Inv(s) && t < |s.stages| && s.pool.idle == []
    requires s.stages[t].Outside? || (s.stages[t].Borrowing? && s.pool.threads[t].Waiting?)
    ensures !CanMove(s, t)
  {
    assert Coupled(s.stages[t], s.pool.threads[t], s.clock.threads[t], s.pool.closed);
  }

  lemma PolicyMoves(s: State, outer: set<Tid>)
    requires Inv(s) && Suspended(s, outer) && Busy(s, outer)
    ensures Advances(s, outer) <==> !SelfBlocked(s, outer)
  {
    if SelfBlocked(s, outer) {
      forall t | 0 <= t < |s.stages| && t !in outer ensures !CanMove(s, t) {
        WaiterCannotMove(s, t);
      }
    } else if !Advances(s, outer) {
      forall t | 0 <= t < |s.stages| && t !in outer && !s.stages[t].Outside?
        ensures PT.SelfBlocked(s.pool, outer) && s.stages[t].Borrowing? && s.pool.threads[t].Waiting?
      {
        MovesOrWaits(s, outer, t);
      }
    }
  }

  lemma SelfBlockedIsFull(s: State, outer: set<Tid>)
    requires Inv(s) && P.Reachable(s.pool) && Suspended(s, outer) && SelfBlocked(s, outer)
    ensures Sum(PI.OnLoan, s.pool.threads) == s.pool.maxSize
  {
    SuspendedLoans(s, outer);
    forall t | 0 <= t < |s.stages| && t !in outer ensures s.pool.threads[t].Idle? || s.pool.threads[t].Waiting? {
      assert Coupled(s.stages[t], s.pool.threads[t], s.clock.threads[t], s.pool.closed);
    }
    PT.SelfBlockedIsFull(s.pool, outer);
  }

  /**
   Exactly when the policy is stuck, across the pool's queue and lock, the ticker's lock and the
   facade. Provided some operation that is not suspended in a host builtin is in progress, none of
   them can take its next step (without a timeout) if and only if they are all borrows waiting on
   the empty queue of an open pool; then all pool_size instances are on loan to evaluations that
   evaluate again from a builtin. So a policy being closed is never stuck.
   */
  lemma PolicyStuckExactly(s: State, outer: set<Tid>)
    requires Reachable(s) && Suspended(s, outer) && Busy(s, outer)
    ensures |s.stages| == |s.pool.threads|
    ensures !Advances(s, outer) <==> SelfBlocked(s, outer)
    ensures !Advances(s, outer) ==> Sum(PI.OnLoan, s.pool.threads) == s.pool.maxSize && !s.pool.closed
  {
    ReachableInv(s);
    PolicyMoves(s, outer);
    if SelfBlocked(s, outer) {
      Theorems.PolicyPoolIsReachable(s);
      SelfBlockedIsFull(s, outer);
    }
  }

  /** With no evaluation nested in a builtin of the same policy, it never deadlocks, open or closed. */
  lemma PolicyNeverStuck(s: State)
    requires Reachable(s)
    ensures Busy(s, {}) ==> Advances(s, {})
  {
    ReachableInv(s);
    if Busy(s, {}) && !Advances(s, {}) {
      PolicyStuckExactly(s, {});
      NobodyOnLoan(s);
    }
  }

  /** With nobody suspended, a pool is not blocked by its own clients: the slots are somewhere. */
  lemma NobodyOnLoan(s: State)
    requires Shaped(s) && SelfBlocked(s, {})
    ensures Sum(PI.OnLoan, s.pool.threads) == 0
  {
    forall t | 0 <= t < |s.stages| ensures !s.pool.threads[t].Loaned? {
      assert Coupled(s.stages[t], s.pool.threads[t], s.clock.threads[t], s.pool.closed);
    }
    SumZero(PI.OnLoan, s.pool.threads);
  }

  // ---------------------------------------------------------------------------------------------
  // The nested evaluation is real

  /** The run leads a two-thread policy with one instance and no deadlines to s. */
  predicate Leads(run: Schedule, s: State) {
    Legal(Init(2, 1, false, false), run) && Run(Init(2, 1, false, false), run) == s
  }

  lemma {:induction false} RunAppend(s: State, run: Schedule, t: Tid, e: Event)
    requires Legal(s, run) && Enabled(Run(s, run), t, e)
    ensures Legal(s, run + [(t, e)]) && Run(s, run + [(t, e)]) == Next(Run(s, run), t, e)
    decreases |run|
  {
    if run == [] {
      assert run + [(t, e)] == [(t, e)];
    } else {
      assert (run + [(t, e)])[1..] == run[1..] + [(t, e)];
      RunAppend(Next(s, run[0].0, run[0].1), run[1..], t, e);
    }
  }

  lemma Then(run: Schedule, s: State, t: Tid, e: Event, s': State) returns (run': Schedule)
    requires Leads(run, s) && Enabled(s, t, e) && Next(s, t, e) == s'
    ensures Leads(run', s')
  {
    RunAppend(Init(2, 1, false, false), run, t, e);
    run' := run + [(t, e)];
  }

  /** Thread t begins an evaluation and enters the pool. */
  lemma EnterPool(run: Schedule, s: State, t: Tid) returns (run': Schedule)
    requires Leads(run, s) && t < |s.stages| == |s.pool.threads| == |s.clock.threads|
    requires s.stages[t].Outside? && s.pool.threads[t].Idle?
    ensures Leads(run', s.(pool := s.pool.(threads := s.pool.threads[t := P.BorrowEntry]),
                           stages := s.stages[t := Borrowing(s.version, Plain)], active := s.active + 1))
  {
    var s1 := s.(stages := s.stages[t := Entered], active := s.active + 1);
    run' := Then(run, s, t, BeginEvaluation, s1);
    assert s1.stages[t := Borrowing(s.version, Plain)] == s.stages[t := Borrowing(s.version, Plain)];
    run' := Then(run', s1, t, BeginBorrow,
                 s.(pool := s.pool.(threads := s.pool.threads[t := P.BorrowEntry]),
                    stages := s.stages[t := Borrowing(s.version, Plain)], active := s.active + 1));
  }

  /** Thread t takes a step of the pool's own code. */
  lemma InPool(run: Schedule, s: State, t: Tid, pool: P.State) returns (run': Schedule)
    requires Leads(run, s) && t < |s.stages| == |s.pool.threads| == |s.clock.threads|
    requires s.stages[t].Borrowing? && Internal(s.pool.threads[t]) && P.Enabled(s.pool, t, P.Step)
    requires P.Next(s.pool, t, P.Step) == pool && !pool.threads[t].Idle?
    ensures Leads(run', s.(pool := pool))
  {
    assert s.stages[t := s.stages[t]] == s.stages;
    run' := Then(run, s, t, PoolStep, s.(pool := pool));
  }

  /** Thread t reads the published pair in a callback of the pool. */
  lemma Read(run: Schedule, s: State, t: Tid) returns (run': Schedule)
    requires Leads(run, s) && t < |s.stages| == |s.pool.threads| == |s.clock.threads|
    requires s.stages[t].Borrowing? && s.stages[t].sub.Plain?
    requires s.pool.threads[t].Building? || s.pool.threads[t].Refreshing?
    ensures Leads(run', s.(stages := s.stages[t := s.stages[t].(sub := Snapped(s.data, s.version))]))
  {
    run' := Then(run, s, t, ReadSnapshot, s.(stages := s.stages[t := s.stages[t].(sub := Snapped(s.data, s.version))]));
  }

  function Snapshot(pool: P.State, sub: Sub, views: seq<View>): State {
    State(pool, T.Init(2), [Borrowing(0, sub), Outside], false, 1, false, None, 0, views, [None], [])
  }

  /** Thread 0 begins an evaluation on a new policy. */
  lemma FirstBorrow() returns (run: Schedule)
    ensures Leads(run, Snapshot(PT.Snapshot([P.Placeholder], P.BorrowEntry, P.Idle, 0, 0), Plain, []))
  {
    var s := Init(2, 1, false, false);
    run := EnterPool([], s, 0);
    assert s.pool.(threads := s.pool.threads[0 := P.BorrowEntry]) == PT.Snapshot([P.Placeholder], P.BorrowEntry, P.Idle, 0, 0);
    assert s.stages[0 := Borrowing(0, Plain)] == [Borrowing(0, Plain), Outside];
  }

  /** It draws the only slot. */
  lemma FirstDraw() returns (run: Schedule)
    ensures Leads(run, Snapshot(PT.Snapshot([], P.Drew(P.Placeholder), P.Idle, 0, 0), Plain, []))
  {
    run := FirstBorrow();
    var p1 := PT.Snapshot([P.Placeholder], P.BorrowEntry, P.Idle, 0, 0);
    var p2 := PT.Snapshot([P.Placeholder], P.Waiting, P.Idle, 0, 0);
    run := InPool(run, Snapshot(p1, Plain, []), 0, p2);
    run := InPool(run, Snapshot(p2, Plain, []), 0, PT.Snapshot([], P.Drew(P.Placeholder), P.Idle, 0, 0));
  }

  /** It is in the factory, with the published pair. */
  lemma FirstSnapshot() returns (run: Schedule)
    ensures Leads(run, Snapshot(PT.Snapshot([], P.Building, P.Idle, 0, 0), Snapped(None, 0), []))
  {
    run := FirstDraw();
    var building := PT.Snapshot([], P.Building, P.Idle, 0, 0);
    run := InPool(run, Snapshot(PT.Snapshot([], P.Drew(P.Placeholder), P.Idle, 0, 0), Plain, []), 0, building);
    run := Read(run, Snapshot(building, Plain, []), 0);
  }

  /** It has built the instance. */
  lemma FirstBuild() returns (run: Schedule)
    ensures Leads(run, Snapshot(PT.Snapshot([], P.Built(0), P.Idle, 1, 0), Plain, [BuiltWith(None, 0)]))
  {
    run := FirstSnapshot();
    var building := PT.Snapshot([], P.Building, P.Idle, 0, 0);
    var s2 := Snapshot(building, Completed(None, 0), []);
    run := Then(run, Snapshot(building, Snapped(None, 0), []), 0, BuildReady, s2);
    run := Then(run, s2, 0, BuildDone, Snapshot(PT.Snapshot([], P.Built(0), P.Idle, 1, 0), Plain, [BuiltWith(None, 0)]));
  }

  /** It checks that the instance is up to date. */
  lemma FirstRefresh() returns (run: Schedule)
    ensures Leads(run, Snapshot(PT.Snapshot([], P.Refreshing(0), P.Idle, 1, 1), Snapped(None, 0), [BuiltWith(None, 0)]))
  {
    run := FirstBuild();
    var views := [BuiltWith(None, 0)];
    var refreshing := PT.Snapshot([], P.Refreshing(0), P.Idle, 1, 1);
    run := InPool(run, Snapshot(PT.Snapshot([], P.Built(0), P.Idle, 1, 0), Plain, views), 0, refreshing);
    run := Read(run, Snapshot(refreshing, Plain, views), 0);
  }

  /** It has the instance on loan. */
  lemma FirstLoan() returns (run: Schedule)
    ensures Leads(run, Snapshot(PT.Snapshot([], P.Loaned(0), P.Idle, 1, 1), Plain, [BuiltWith(None, 0)]))
  {
    run := FirstRefresh();
    run := Then(run, Snapshot(PT.Snapshot([], P.Refreshing(0), P.Idle, 1, 1), Snapped(None, 0), [BuiltWith(None, 0)]), 0, UpToDate,
                Snapshot(PT.Snapshot([], P.Loaned(0), P.Idle, 1, 1), Plain, [BuiltWith(None, 0)]));
  }

  /** It enters the guest. */
  lemma FirstEntry() returns (run: Schedule, s: State)
    ensures Leads(run, s) && s.stages == [Borrowing(0, InGuest), Outside] && |s.clock.threads| == 2
    ensures s.pool == PT.Snapshot([], P.Loaned(0), P.Idle, 1, 1)
  {
    run := FirstLoan();
    var before := Snapshot(PT.Snapshot([], P.Loaned(0), P.Idle, 1, 1), Plain, [BuiltWith(None, 0)]);
    s := Next(before, 0, EnterGuest);
    run := Then(run, before, 0, EnterGuest, s);
  }

  /**
   "No deadlock" needs its condition: with pool_size 1, an evaluation whose builtin evaluates on the
   same policy is stuck. Thread 1 stands for the inner evaluation of thread 0.
   */
  lemma NestedEvaluationBlocks() returns (s: State)
    ensures Reachable(s) && Suspended(s, {0}) && Busy(s, {0})
    ensures |s.stages| == |s.pool.threads| && SelfBlocked(s, {0}) && !Advances(s, {0})
  {
    var run, s0 := FirstEntry();
    run := EnterPool(run, s0, 1);
    var p1 := PT.Snapshot([], P.Loaned(0), P.BorrowEntry, 1, 1);
    assert s0.pool.(threads := s0.pool.threads[1 := P.BorrowEntry]) == p1;
    var s1 := s0.(pool := p1, stages := s0.stages[1 := Borrowing(s0.version, Plain)], active := s0.active + 1);
    var p2 := PT.Snapshot([], P.Loaned(0), P.Waiting, 1, 1);
    run := InPool(run, s1, 1, p2);
    s := s1.(pool := p2);
    ItIsBlocked(run, s);
  }

  lemma ItIsBlocked(run: Schedule, s: State)
    requires Leads(run, s) && |s.stages| == 2 && s.stages[0].Borrowing? && s.stages[0].sub.InGuest?
    requires s.stages[1].Borrowing? && s.pool == PT.Snapshot([], P.Loaned(0), P.Waiting, 1, 1)
    ensures Reachable(s) && Suspended(s, {0}) && Busy(s, {0})
    ensures SelfBlocked(s, {0}) && !Advances(s, {0})
  {
    assert !s.stages[1].Outside?;
    PolicyStuckExactly(s, {0});
  }

  // ---------------------------------------------------------------------------------------------
  // Runs of a closing policy are bounded

  /** Facade steps left, apart from the pool's and the ticker's own; entering pays for a rejected borrow. */
  function StageRank(stage: Stage): int {
    match stage
    case Outside => 0
    case Entered => 32
    case Borrowing(_, sub) => SubRank(sub)
    case Exiting => 7
    case Stopping => 6
    case ClosingPool => 0
    case Marking => 7
    case Checking(_) => 2
    case Swapping(_) => 1
  }

  function SubRank(sub: Sub): int {
    match sub
    case Plain => 7
    case Snapped(_, _) => 6
    case Starting(_, _) => 5
    case Completed(_, _) => 0
    case Reloading(_, _) => 0
    case InGuest => 0
  }

  /** A thread at rest holds the credit for one ticker call; the stage that makes the call restores it. */
  function PhaseRank(p: T.Phase): int {
    match p
    case Resting => 5
    case EnsureEntry => 4
    case EnsureCheck => 3
    case EnsureStart => 2
    case CloseEntry => 4
    case CloseLock => 3
    case CloseTake => 2
    case CloseJoin => 1
  }

  function Work(s: State): int {
    8 * PT.Work(s.pool) + Sum(StageRank, s.stages) + Sum(PhaseRank, s.clock.threads)
  }

  function BeginCount(run: Schedule): nat {
    if run == [] then 0 else (if Begins(run[0].1) then 1 else 0) + BeginCount(run[1..])
  }

  /** A pool step pays for whatever the facade gains by it. */
  lemma PoolPays(s: State, t: Tid, e: Event)
    requires Enabled(s, t, e) && PoolEvent(e).Some?
    ensures StageRank(StageAfter(s, t, e)) - StageRank(s.stages[t])
         <= if e.BeginBorrow? then -25 else if e.BeginClose? then 0 else 7
    ensures PT.Starts(PoolEvent(e).value) <==> e.BeginBorrow? || e.BeginClose?
  {
  }

  /** What a step adds to the mover's stage and phase. */
  function OwnDelta(s: State, t: Tid, e: Event): int
    requires Enabled(s, t, e)
  {
    StageRank(StageAfter(s, t, e)) - StageRank(s.stages[t])
    + PhaseRank(ClockAfter(s, t, e).threads[t]) - PhaseRank(s.clock.threads[t])
  }

  /** A ticker step pays for itself. */
  lemma TickerPays(s: State, t: Tid, e: Event)
    requires Shaped(s) && Enabled(s, t, e) && e.TickerStep?
    ensures OwnDelta(s, t, e) + 1 <= 0
  {
    assert Coupled(s.stages[t], s.pool.threads[t], s.clock.threads[t], s.pool.closed);
  }

  /** A facade step pays for itself. */
  lemma FacadePays(s: State, t: Tid, e: Event)
    requires Enabled(s, t, e) && PoolEvent(e).None? && !e.TickerStep?
    ensures OwnDelta(s, t, e) + 1 <= if Begins(e) then 33 else 0
  {
  }

  lemma PhaseSum(s: State, t: Tid, e: Event)
    requires Inv(s) && Enabled(s, t, e)
    ensures Sum(PhaseRank, ClockAfter(s, t, e).threads)
         == Sum(PhaseRank, s.clock.threads) + PhaseRank(ClockAfter(s, t, e).threads[t]) - PhaseRank(s.clock.threads[t])
  {
    if e.TickerStep? {
      T.TickerStep(s.clock, t, e.call);
      var phases := ClockAfter(s, t, e).threads;
      assert phases == s.clock.threads[t := phases[t]];
      SumUpdate(PhaseRank, s.clock.threads, t, phases[t]);
    }
  }

  lemma WorkStep(s: State, t: Tid, e: Event)
    requires Inv(s) && s.pool.closed && Enabled(s, t, e)
    ensures Work(Next(s, t, e)) + 1 <= Work(s) + (if Begins(e) then 33 else 0)
  {
    SumUpdate(StageRank, s.stages, t, StageAfter(s, t, e));
    PhaseSum(s, t, e);
    if PoolEvent(e).Some? {
      PT.WorkStep(s.pool, t, PoolEvent(e).value);
      PoolPays(s, t, e);
    } else if e.TickerStep? {
      TickerPays(s, t, e);
    } else {
      FacadePays(s, t, e);
    }
  }

  lemma {:induction false} WorkBound(s: State, run: Schedule)
    requires Inv(s) && s.pool.closed && Legal(s, run)
    ensures |run| + Work(Run(s, run)) <= Work(s) + 33 * BeginCount(run)
    ensures Run(s, run).pool.closed
    decreases |run|
  {
    if run == [] {
    } else {
      WorkStep(s, run[0].0, run[0].1);
      StepInv(s, run[0].0, run[0].1);
      WorkBound(Next(s, run[0].0, run[0].1), run[1..]);
    }
  }

  predicate AllOutside(s: State) {
    forall t :: 0 <= t < |s.stages| ==> s.stages[t].Outside?
  }

  lemma WorkIsNonnegative(s: State)
    ensures Work(s) >= 0
  {
    SumLower(PT.Rank, s.pool.threads);
    SumLower(StageRank, s.stages);
    SumLower(PhaseRank, s.clock.threads);
  }

  /** With every thread outside, a closed pool means the close is complete. */
  lemma OutsideMeansShutDown(s: State)
    requires Inv(s) && s.pool.closed && AllOutside(s)
    ensures s.closed && s.active == 0 && s.clock.stop && !s.clock.handle && PT.Quiescent(s.pool)
  {
    SumZero(Counted, s.stages);
    forall t | 0 <= t < |s.stages| ensures s.pool.threads[t].Idle? && s.clock.threads[t].Resting? {
      assert Coupled(s.stages[t], s.pool.threads[t], s.clock.threads[t], s.pool.closed);
    }
    assert Decided(s);
  }

  /**
   Shutdown completes under every scheduler: once close() has set the pool's flag, a run is no
   longer than a bound fixed at its start plus 33 steps per operation begun later, and it can be
   stuck only with every thread back outside, the policy marked closed, no evaluation active, the
   ticker told to stop and its handle taken.
   */
  lemma ShutdownCompletes(s: State, run: Schedule)
    requires Reachable(s) && s.pool.closed && Legal(s, run)
    ensures |run| <= Work(s) + 33 * BeginCount(run)
    ensures var s' := Run(s, run);
            !Advances(s', {}) ==>
              && AllOutside(s') && s'.closed && s'.active == 0
              && s'.clock.stop && !s'.clock.handle && PT.Quiescent(s'.pool)
  {
    ReachableInv(s);
    RunInv(s, run);
    WorkBound(s, run);
    var s' := Run(s, run);
    WorkIsNonnegative(s');
    if !Advances(s', {}) {
      if Busy(s', {}) {
        PolicyMoves(s', {});
      }
      OutsideMeansShutDown(s');
    }
  }
}

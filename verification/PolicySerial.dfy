/**
 What each operation of the policy facade achieves: `set_data` under any interference, and
 `evaluate_raw` and `close` when their thread runs alone, from any reachable state.
 */
module PolicySerial {
  import opened Types
  import opened Sums
  import opened InstanceView
  import opened Policy
  import opened PolicyInvariant
  import opened PolicyTheorems
  import P = Pool
  import PI = PoolInvariant
  import PS = PoolSerial
  import Progress = PolicyProgress
  import T = Ticker

  // ---------------------------------------------------------------------------------------------
  // set_data, with every other thread free to run between its statements

  /** Other threads lead from s to s'. */
  ghost predicate OthersLead(s: State, t: Tid, s': State) {
    exists run :: Legal(s, run) && Without(run, t) && Run(s, run) == s'
  }

  /** The state after thread t's step, if it can take it. */
  function After(s: State, t: Tid, e: Event): State {
    if Enabled(s, t, e) then Next(s, t, e) else s
  }

  /** Thread t's stage replaced. */
  function Staged(s: State, t: Tid, stage: Stage): State {
    if t < |s.stages| then s.(stages := s.stages[t := stage]) else s
  }

  predicate Has(s: State, t: Tid) {
    t < |s.stages| && t < |s.pool.threads| && t < |s.clock.threads|
  }

  /** A thread outside is in no pool or ticker operation. */
  lemma Basics(s: State, t: Tid)
    requires Reachable(s) && t < |s.stages| && s.stages[t].Outside?
    ensures Has(s, t) && s.pool.threads[t].Idle? && s.clock.threads[t].Resting? && |s.views| == s.pool.next
    ensures s.pool.idle != [] && s.pool.idle[0].Real? ==> s.pool.idle[0].inst < |s.views|
  {
    ReachableInv(s);
    assert Coupled(s.stages[t], s.pool.threads[t], s.clock.threads[t], s.pool.closed);
    if s.pool.idle != [] {
      assert QueuedOk(s.views, s.pool.idle[0]);
    }
  }

  lemma StepStays(s: State, u: Tid, e: Event, t: Tid)
    requires Has(s, t) && Enabled(s, u, e) && u != t
    ensures Has(Next(s, u, e), t) && Next(s, u, e).stages[t] == s.stages[t]
  {
  }

  lemma {:induction false} StageStays(s: State, run: Schedule, t: Tid)
    requires Has(s, t) && Legal(s, run) && Without(run, t)
    ensures Has(Run(s, run), t) && Run(s, run).stages[t] == s.stages[t]
    decreases |run|
  {
    if run == [] {
    } else {
      assert Without(run[1..], t) by {
        assert forall k :: 0 <= k < |run[1..]| ==> run[1..][k] == run[k + 1];
      }
      StepStays(s, run[0].0, run[0].1, t);
      StageStays(Next(s, run[0].0, run[0].1), run[1..], t);
    }
  }

  lemma OthersKeepStage(s: State, t: Tid, s': State)
    requires Has(s, t) && OthersLead(s, t, s')
    ensures Has(s', t) && s'.stages[t] == s.stages[t]
  {
    var run :| Legal(s, run) && Without(run, t) && Run(s, run) == s';
    StageStays(s, run, t);
  }

  lemma SetDataStep(s: State, t: Tid, doc: Document)
    requires Has(s, t)
    ensures s.stages[t].Outside? ==> After(s, t, BeginSetData(doc)) == Staged(s, t, Checking(doc)) && Enabled(s, t, BeginSetData(doc))
    ensures s.stages[t] == Checking(doc) ==>
              Enabled(s, t, CheckOpen) && After(s, t, CheckOpen) == Staged(s, t, if s.closed then Outside else Swapping(doc))
    ensures s.stages[t] == Swapping(doc) ==>
              && Enabled(s, t, Publish)
              && After(s, t, Publish) == Staged(s, t, Outside).(data := doc, version := s.version + 1, published := s.published + [doc])
  {
  }

  /**
   set_data, statement by statement with other threads in between (s to s1 and s2 to s3): if the
   policy is open when the call looks, the document becomes the published one under the next version
   number, at one moment and whatever others published meanwhile; if it is closed, the call leaves
   without any effect. Only an inadmissible document ends it otherwise.
   */
  lemma SetDataPublishes(s: State, t: Tid, doc: Document, s1: State, s3: State)
    requires Reachable(s) && t < |s.stages| && s.stages[t].Outside?
    requires OthersLead(After(s, t, BeginSetData(doc)), t, s1)
    requires OthersLead(After(s1, t, CheckOpen), t, s3)
    ensures Enabled(s, t, BeginSetData(doc)) && Enabled(s1, t, CheckOpen)
    ensures s1.closed ==> After(s1, t, CheckOpen) == Staged(s1, t, Outside)
    ensures !s1.closed ==>
              && Enabled(s3, t, Publish)
              && After(s3, t, Publish) == Staged(s3, t, Outside).(data := doc, version := s3.version + 1,
                                                                  published := s3.published + [doc])
  {
    Basics(s, t);
    SetDataStep(s, t, doc);
    OthersKeepStage(Staged(s, t, Checking(doc)), t, s1);
    SetDataStep(s1, t, doc);
    if !s1.closed {
      OthersKeepStage(Staged(s1, t, Swapping(doc)), t, s3);
      SetDataStep(s3, t, doc);
    }
  }

  /** Past the check of the policy's closed flag. */
  function AboutToPublish(stage: Stage): int { if stage.Swapping? then 1 else 0 }

  /** Once the policy is closed, only calls that were past their check can still publish. */
  lemma {:induction false} NoPublishingAfterClose(s: State, run: Schedule)
    requires s.closed && Legal(s, run)
    ensures var s' := Run(s, run);
            && s.version <= s'.version
            && s'.version + Sum(AboutToPublish, s'.stages) <= s.version + Sum(AboutToPublish, s.stages)
    decreases |run|
  {
    if run == [] {
    } else {
      SumUpdate(AboutToPublish, s.stages, run[0].0, StageAfter(s, run[0].0, run[0].1));
      NoPublishingAfterClose(Next(s, run[0].0, run[0].1), run[1..]);
    }
  }

  // ---------------------------------------------------------------------------------------------
  // One thread alone

  /** The schedule is thread t's alone, a single operation or part of one. */
  predicate Own(run: Schedule, t: Tid, first: Event) {
    && run != [] && run[0].1 == first
    && (forall k :: 0 <= k < |run| ==> run[k].0 == t)
    && (forall k :: 1 <= k < |run| ==> !Progress.Begins(run[k].1))
  }

  /** That schedule leads from s to s'. */
  predicate Solo(s: State, t: Tid, first: Event, run: Schedule, s': State) {
    Own(run, t, first) && Legal(s, run) && Run(s, run) == s'
  }

  lemma OwnAppend(run: Schedule, t: Tid, first: Event, e: Event)
    requires Own(run, t, first) && !Progress.Begins(e)
    ensures Own(run + [(t, e)], t, first)
  {
  }

  /** Thread t's own steps, beginning with first, lead from s to s' within one operation. */
  ghost predicate Does(s: State, t: Tid, first: Event, s': State) {
    exists run :: Solo(s, t, first, run, s')
  }

  lemma Begin(s: State, t: Tid, e: Event, s': State)
    requires Enabled(s, t, e) && Next(s, t, e) == s'
    ensures Does(s, t, e, s')
  {
    Progress.RunAppend(s, [], t, e);
    assert [] + [(t, e)] == [(t, e)];
    assert Solo(s, t, e, [(t, e)], s');
  }

  lemma Then(s: State, t: Tid, first: Event, s1: State, e: Event, s2: State)
    requires Does(s, t, first, s1) && Enabled(s1, t, e) && !Progress.Begins(e) && Next(s1, t, e) == s2
    ensures Does(s, t, first, s2)
  {
    var run :| Solo(s, t, first, run, s1);
    Progress.RunAppend(s, run, t, e);
    OwnAppend(run, t, first, e);
    assert Solo(s, t, first, run + [(t, e)], s2);
  }

  lemma {:induction false} RunConcat(s: State, first: Schedule, second: Schedule)
    requires Legal(s, first) && Legal(Run(s, first), second)
    ensures Legal(s, first + second) && Run(s, first + second) == Run(Run(s, first), second)
    decreases |first|
  {
    if first == [] {
      assert first + second == second;
    } else {
      assert (first + second)[1..] == first[1..] + second;
      RunConcat(Next(s, first[0].0, first[0].1), first[1..], second);
    }
  }

  lemma Compose(s: State, t: Tid, first: Event, s1: State, e: Event, s2: State)
    requires Does(s, t, first, s1) && Does(s1, t, e, s2) && !Progress.Begins(e)
    ensures Does(s, t, first, s2)
  {
    var a :| Solo(s, t, first, a, s1);
    var b :| Solo(s1, t, e, b, s2);
    RunConcat(s, a, b);
    assert Solo(s, t, first, a + b, s2);
  }

  lemma StagedTwice(s: State, t: Tid, a: Stage, b: Stage)
    ensures Staged(Staged(s, t, a), t, b) == Staged(s, t, b)
  {
    if t < |s.stages| {
      assert s.stages[t := a][t := b] == s.stages[t := b];
    }
  }

  /** A statement of the pool's own code inside borrow. */
  lemma InPool(s0: State, t: Tid, first: Event, s: State, pool: P.State)
    requires Does(s0, t, first, s) && Has(s, t) && s.stages[t].Borrowing? && Internal(s.pool.threads[t])
    requires P.Enabled(s.pool, t, P.Step) && P.Next(s.pool, t, P.Step) == pool
    requires t < |pool.threads| && !pool.threads[t].Idle?
    ensures Does(s0, t, first, s.(pool := pool))
  {
    assert s.stages[t := s.stages[t]] == s.stages;
    Then(s0, t, first, s, PoolStep, s.(pool := pool));
  }

  /** The pool with its head taken by t. */
  function Taken(p: P.State, t: Tid, pc: P.Pc): P.State
    requires p.idle != []
  {
    PS.At(p, t, pc).(idle := p.idle[1..])
  }

  /** Reading the published pair in a callback of the pool. */
  lemma Reads(s0: State, t: Tid, first: Event, s: State)
    requires Does(s0, t, first, s) && Has(s, t) && s.stages[t].Borrowing? && s.stages[t].sub.Plain?
    requires s.pool.threads[t].Building? || s.pool.threads[t].Refreshing?
    ensures Does(s0, t, first, Staged(s, t, s.stages[t].(sub := Snapped(s.data, s.version))))
  {
    Then(s0, t, first, s, ReadSnapshot, Staged(s, t, s.stages[t].(sub := Snapped(s.data, s.version))));
  }

  /** The state of a thread that has begun an evaluation and is in the pool. */
  function Borrower(s: State, t: Tid, sub: Sub): State {
    Staged(s, t, Borrowing(s.version, sub)).(active := s.active + 1)
  }

  /** In a free policy: nobody is closing it and an instance or a placeholder is at the head of the queue. */
  predicate Free(s: State, t: Tid) {
    Has(s, t) && s.stages[t].Outside? && s.pool.threads[t].Idle? && !s.pool.closed && s.pool.idle != []
  }

  lemma EntersPool(s: State, t: Tid)
    requires Has(s, t) && s.stages[t].Outside? && s.pool.threads[t].Idle?
    ensures Does(s, t, BeginEvaluation, Borrower(s, t, Plain).(pool := PS.At(s.pool, t, P.BorrowEntry)))
  {
    var entered := Staged(s, t, Entered).(active := s.active + 1);
    Begin(s, t, BeginEvaluation, entered);
    StagedTwice(s, t, Entered, Borrowing(s.version, Plain));
    Then(s, t, BeginEvaluation, entered, BeginBorrow, Borrower(s, t, Plain).(pool := PS.At(s.pool, t, P.BorrowEntry)));
  }

  lemma DrawsSlot(s: State, t: Tid)
    requires Free(s, t)
    ensures Does(s, t, BeginEvaluation, Borrower(s, t, Plain).(pool := Taken(s.pool, t, P.Drew(s.pool.idle[0]))))
  {
    EntersPool(s, t);
    var p1, p2 := PS.At(s.pool, t, P.BorrowEntry), PS.At(s.pool, t, P.Waiting);
    PS.AtTwice(s.pool, t, P.BorrowEntry, P.Waiting);
    assert P.Next(p1, t, P.Step) == p2;
    InPool(s, t, BeginEvaluation, Borrower(s, t, Plain).(pool := p1), p2);
    PS.AtTwice(s.pool, t, P.Waiting, P.Drew(s.pool.idle[0]));
    assert P.Next(p2, t, P.Step) == Taken(s.pool, t, P.Drew(s.pool.idle[0]));
    InPool(s, t, BeginEvaluation, Borrower(s, t, Plain).(pool := p2), Taken(s.pool, t, P.Drew(s.pool.idle[0])));
  }

  /** A closed pool turns the evaluation away before anything has changed. */
  lemma EvaluateRefused(s: State, t: Tid)
    requires Reachable(s) && t < |s.stages| && s.stages[t].Outside? && s.pool.closed
    ensures Does(s, t, BeginEvaluation, Staged(s, t, Exiting).(active := s.active + 1))
  {
    Basics(s, t);
    EntersPool(s, t);
    var inside := Borrower(s, t, Plain).(pool := PS.At(s.pool, t, P.BorrowEntry));
    PS.AtTwice(s.pool, t, P.BorrowEntry, P.Idle);
    assert s.pool.threads[t := P.Idle] == s.pool.threads;
    assert P.Next(inside.pool, t, P.Step) == s.pool;
    StagedTwice(s, t, Borrowing(s.version, Plain), Exiting);
    Then(s, t, BeginEvaluation, inside, PoolStep, Staged(s, t, Exiting).(active := s.active + 1));
  }

  // ---------------------------------------------------------------------------------------------
  // From the queue to the loan

  /** The instance lent: as it was if up to date, else with the published document loaded. */
  function Refreshed(s: State, v: View): View {
    if v.version == s.version then v else Reloaded(v, s.data, s.version)
  }

  /** The policy with the instance at the head of the queue on loan to t, up to date. */
  function LentReal(s: State, t: Tid): State
    requires s.pool.idle != [] && s.pool.idle[0].Real? && s.pool.idle[0].inst < |s.views|
  {
    var i := s.pool.idle[0].inst;
    Borrower(s, t, Plain).(pool := Taken(s.pool, t, P.Loaned(i)), views := s.views[i := Refreshed(s, s.views[i])])
  }

  /** An idle instance is lent, brought up to date if and only if it is behind. */
  lemma BorrowLends(s: State, t: Tid)
    requires Reachable(s) && t < |s.stages| && s.stages[t].Outside?
    requires !s.pool.closed && s.pool.idle != [] && s.pool.idle[0].Real?
    ensures s.pool.idle[0].inst < |s.views|
    ensures Does(s, t, BeginEvaluation, LentReal(s, t))
  {
    Basics(s, t);
    StartsRefresh(s, t);
    LendsHead(s, t);
  }

  lemma LendsHead(s: State, t: Tid)
    requires Has(s, t) && s.pool.idle != [] && s.pool.idle[0].Real? && s.pool.idle[0].inst < |s.views|
    requires Does(s, t, BeginEvaluation,
                  Borrower(s, t, Snapped(s.data, s.version)).(pool := Taken(s.pool, t, P.Refreshing(s.pool.idle[0].inst))))
    ensures Does(s, t, BeginEvaluation, LentReal(s, t))
  {
    var i := s.pool.idle[0].inst;
    var snapped := Borrower(s, t, Snapped(s.data, s.version)).(pool := Taken(s.pool, t, P.Refreshing(i)));
    PS.AtTwice(s.pool, t, P.Refreshing(i), P.Loaned(i));
    StagedTwice(s, t, Borrowing(s.version, Snapped(s.data, s.version)), Borrowing(s.version, Plain));
    if s.views[i].version == s.version {
      assert s.views[i := s.views[i]] == s.views;
      LendsUpToDate(s, t, snapped, i);
    } else {
      LendsReloaded(s, t, snapped, i);
    }
  }

  lemma StartsRefresh(s: State, t: Tid)
    requires Free(s, t) && s.pool.idle[0].Real?
    ensures Does(s, t, BeginEvaluation,
                 Borrower(s, t, Snapped(s.data, s.version)).(pool := Taken(s.pool, t, P.Refreshing(s.pool.idle[0].inst))))
  {
    DrawsSlot(s, t);
    var i := s.pool.idle[0].inst;
    var p1, p2 := Taken(s.pool, t, P.Drew(P.Real(i))), Taken(s.pool, t, P.Refreshing(i));
    PS.AtTwice(s.pool, t, P.Drew(P.Real(i)), P.Refreshing(i));
    assert P.Next(p1, t, P.Step) == p2;
    InPool(s, t, BeginEvaluation, Borrower(s, t, Plain).(pool := p1), p2);
    Reads(s, t, BeginEvaluation, Borrower(s, t, Plain).(pool := p2));
    StagedTwice(s, t, Borrowing(s.version, Plain), Borrowing(s.version, Snapped(s.data, s.version)));
  }

  lemma LendsUpToDate(s0: State, t: Tid, s: State, i: P.Inst)
    requires Does(s0, t, BeginEvaluation, s) && Has(s, t) && s.stages[t].Borrowing? && s.stages[t].sub.Snapped?
    requires s.pool.threads[t] == P.Refreshing(i) && i < |s.views| && s.views[i].version == s.stages[t].sub.ver
    ensures Does(s0, t, BeginEvaluation,
                 Staged(s, t, s.stages[t].(sub := Plain)).(pool := PS.At(s.pool, t, P.Loaned(i))))
  {
    Then(s0, t, BeginEvaluation, s, UpToDate,
         Staged(s, t, s.stages[t].(sub := Plain)).(pool := PS.At(s.pool, t, P.Loaned(i))));
  }

  lemma LendsReloaded(s0: State, t: Tid, s: State, i: P.Inst)
    requires Does(s0, t, BeginEvaluation, s) && Has(s, t) && s.stages[t].Borrowing? && s.stages[t].sub.Snapped?
    requires s.pool.threads[t] == P.Refreshing(i) && i < |s.views| && s.views[i].version != s.stages[t].sub.ver
    ensures var sub := s.stages[t].sub;
            Does(s0, t, BeginEvaluation,
                 Staged(s, t, s.stages[t].(sub := Plain)).(pool := PS.At(s.pool, t, P.Loaned(i)),
                                                           views := s.views[i := Reloaded(s.views[i], sub.doc, sub.ver)]))
  {
    var sub, v := s.stages[t].sub, s.views[i];
    var reloading := s.stages[t].(sub := Reloading(sub.doc, sub.ver));
    var s1 := Staged(s, t, reloading).(views := s.views[i := InReload(v)]);
    Then(s0, t, BeginEvaluation, s, BeginReload, s1);
    EndsReloading(s0, t, s1, i);
    StagedTwice(s, t, reloading, s.stages[t].(sub := Plain));
    assert s1.views[i := Reloaded(InReload(v), sub.doc, sub.ver)] == s.views[i := Reloaded(v, sub.doc, sub.ver)];
  }

  lemma EndsReloading(s0: State, t: Tid, s: State, i: P.Inst)
    requires Does(s0, t, BeginEvaluation, s) && Has(s, t) && s.stages[t].Borrowing? && s.stages[t].sub.Reloading?
    requires s.pool.threads[t] == P.Refreshing(i) && i < |s.views|
    ensures var sub := s.stages[t].sub;
            Does(s0, t, BeginEvaluation,
                 Staged(s, t, s.stages[t].(sub := Plain)).(pool := PS.At(s.pool, t, P.Loaned(i)),
                                                           views := s.views[i := Reloaded(s.views[i], sub.doc, sub.ver)]))
  {
    var sub := s.stages[t].sub;
    Then(s0, t, BeginEvaluation, s, ReloadDone,
         Staged(s, t, s.stages[t].(sub := Plain)).(pool := PS.At(s.pool, t, P.Loaned(i)),
                                                   views := s.views[i := Reloaded(s.views[i], sub.doc, sub.ver)]));
  }

  /** The policy with a new instance, built with the published pair, on loan to t. */
  function LentNew(s: State, t: Tid): State
    requires s.pool.idle != []
  {
    Borrower(s, t, Plain).(
      pool := Taken(s.pool, t, P.Loaned(s.pool.next)).(next := s.pool.next + 1, created := s.pool.created + 1),
      clock := if s.timeouts && !T.Running(s.clock) then s.clock.(handle := true, started := s.clock.started + 1) else s.clock,
      views := s.views + [BuiltWith(s.data, s.version)])
  }

  /** A placeholder is replaced by a new instance with the published document; the ticker is started if need be. */
  lemma BorrowBuilds(s: State, t: Tid)
    requires Reachable(s) && t < |s.stages| && s.stages[t].Outside?
    requires !s.pool.closed && s.pool.idle != [] && s.pool.idle[0].Placeholder? && s.clock.lock.None?
    ensures Does(s, t, BeginEvaluation, LentNew(s, t))
  {
    Basics(s, t);
    StartsBuild(s, t);
    BuildsHead(s, t);
    SnapsNew(s, t);
    LendsNew(s, t);
  }

  /** The same, with the build over and the instance about to be checked for freshness. */
  function BuiltNew(s: State, t: Tid, sub: Sub): State
    requires s.pool.idle != []
  {
    Borrower(s, t, sub).(
      pool := Taken(s.pool, t, P.Refreshing(s.pool.next)).(next := s.pool.next + 1, created := s.pool.created + 1),
      clock := LentNew(s, t).clock,
      views := s.views + [BuiltWith(s.data, s.version)])
  }

  lemma BuildsHead(s: State, t: Tid)
    requires Has(s, t) && s.pool.idle != [] && s.clock.lock.None? && s.clock.threads[t].Resting?
    requires Does(s, t, BeginEvaluation, Borrower(s, t, Snapped(s.data, s.version)).(pool := Taken(s.pool, t, P.Building)))
    ensures Does(s, t, BeginEvaluation, BuiltNew(s, t, Plain))
  {
    var p := Taken(s.pool, t, P.Building);
    var snapped, completed := Borrowing(s.version, Snapped(s.data, s.version)), Borrowing(s.version, Completed(s.data, s.version));
    EnsuresTicker(s, t, Borrower(s, t, Snapped(s.data, s.version)).(pool := p));
    StagedTwice(s, t, snapped, completed);
    FinishesBuild(s, t, Borrower(s, t, Completed(s.data, s.version)).(pool := p, clock := LentNew(s, t).clock));
    StagedTwice(s, t, completed, Borrowing(s.version, Plain));
    PS.AtTwice(s.pool, t, P.Building, P.Refreshing(s.pool.next));
  }

  lemma SnapsNew(s: State, t: Tid)
    requires Has(s, t) && s.pool.idle != [] && Does(s, t, BeginEvaluation, BuiltNew(s, t, Plain))
    ensures Does(s, t, BeginEvaluation, BuiltNew(s, t, Snapped(s.data, s.version)))
  {
    Reads(s, t, BeginEvaluation, BuiltNew(s, t, Plain));
    StagedTwice(s, t, Borrowing(s.version, Plain), Borrowing(s.version, Snapped(s.data, s.version)));
  }

  lemma LendsNew(s: State, t: Tid)
    requires Has(s, t) && s.pool.idle != [] && s.pool.next == |s.views|
    requires Does(s, t, BeginEvaluation, BuiltNew(s, t, Snapped(s.data, s.version)))
    ensures Does(s, t, BeginEvaluation, LentNew(s, t))
  {
    LendsUpToDate(s, t, BuiltNew(s, t, Snapped(s.data, s.version)), s.pool.next);
    StagedTwice(s, t, Borrowing(s.version, Snapped(s.data, s.version)), Borrowing(s.version, Plain));
    PS.AtTwice(s.pool, t, P.Refreshing(s.pool.next), P.Loaned(s.pool.next));
  }

  lemma StartsBuild(s: State, t: Tid)
    requires Free(s, t) && s.pool.idle[0].Placeholder?
    ensures Does(s, t, BeginEvaluation, Borrower(s, t, Snapped(s.data, s.version)).(pool := Taken(s.pool, t, P.Building)))
  {
    DrawsSlot(s, t);
    var p1, p2 := Taken(s.pool, t, P.Drew(P.Placeholder)), Taken(s.pool, t, P.Building);
    PS.AtTwice(s.pool, t, P.Drew(P.Placeholder), P.Building);
    assert P.Next(p1, t, P.Step) == p2;
    InPool(s, t, BeginEvaluation, Borrower(s, t, Plain).(pool := p1), p2);
    Reads(s, t, BeginEvaluation, Borrower(s, t, Plain).(pool := p2));
    StagedTwice(s, t, Borrowing(s.version, Plain), Borrowing(s.version, Snapped(s.data, s.version)));
  }

  /** The clock with thread t's phase replaced. */
  function ClockAt(c: T.Clock, t: Tid, phase: T.Phase): T.Clock {
    if t < |c.threads| then c.(threads := c.threads[t := phase]) else c
  }

  /** A statement of the ticker's own code. */
  lemma InTicker(s0: State, t: Tid, first: Event, s: State, call: T.Call, clock: T.Clock)
    requires Does(s0, t, first, s) && Has(s, t) && T.Ready(s.clock, t, call) && T.Tick(s.clock, t, call) == clock
    requires t < |clock.threads| && !clock.threads[t].Resting?
    requires (s.stages[t].Stopping? && !call.CallEnsure?)
             || (s.stages[t].Borrowing? && s.stages[t].sub.Starting? && !call.CallClose?)
    ensures Does(s0, t, first, s.(clock := clock))
  {
    assert s.stages[t := s.stages[t]] == s.stages;
    Then(s0, t, first, s, TickerStep(call), s.(clock := clock));
  }

  /** The end of the build in the factory: with deadlines, through ensure_running. */
  lemma EnsuresTicker(s0: State, t: Tid, s: State)
    requires Does(s0, t, BeginEvaluation, s) && Has(s, t) && s.stages[t].Borrowing? && s.stages[t].sub.Snapped?
    requires s.pool.threads[t].Building? && s.clock.lock.None? && s.clock.threads[t].Resting?
    ensures var sub := s.stages[t].sub;
            Does(s0, t, BeginEvaluation,
                 Staged(s, t, s.stages[t].(sub := Completed(sub.doc, sub.ver))).(
                   clock := if s.timeouts && !T.Running(s.clock) then s.clock.(handle := true, started := s.clock.started + 1)
                            else s.clock))
  {
    var sub := s.stages[t].sub;
    var done := s.stages[t].(sub := Completed(sub.doc, sub.ver));
    if s.timeouts {
      var starting := s.stages[t].(sub := Starting(sub.doc, sub.ver));
      Then(s0, t, BeginEvaluation, s, BuildReady, Staged(s, t, starting));
      StagedTwice(s, t, starting, done);
      TickerEnsured(s0, t, Staged(s, t, starting));
    } else {
      Then(s0, t, BeginEvaluation, s, BuildReady, Staged(s, t, done));
    }
  }

  lemma TickerEnsured(s0: State, t: Tid, s: State)
    requires Does(s0, t, BeginEvaluation, s) && Has(s, t) && s.stages[t].Borrowing? && s.stages[t].sub.Starting?
    requires s.clock.lock.None? && s.clock.threads[t].Resting?
    ensures var sub := s.stages[t].sub;
            Does(s0, t, BeginEvaluation,
                 Staged(s, t, s.stages[t].(sub := Completed(sub.doc, sub.ver))).(
                   clock := if !T.Running(s.clock) then s.clock.(handle := true, started := s.clock.started + 1) else s.clock))
  {
    var c := s.clock;
    TickerEnsures(c, t);
    var c1, c2 := ClockAt(c, t, T.EnsureEntry), ClockAt(c, t, T.EnsureCheck).(lock := Some(t));
    InTicker(s0, t, BeginEvaluation, s, T.CallEnsure, c1);
    InTicker(s0, t, BeginEvaluation, s.(clock := c1), T.Proceed, c2);
    TickerLooks(s0, t, s);
  }

  lemma TickerLooks(s0: State, t: Tid, s: State)
    requires Has(s, t) && s.stages[t].Borrowing? && s.stages[t].sub.Starting?
    requires s.clock.lock.None? && s.clock.threads[t].Resting?
    requires Does(s0, t, BeginEvaluation, s.(clock := ClockAt(s.clock, t, T.EnsureCheck).(lock := Some(t))))
    ensures var sub := s.stages[t].sub;
            Does(s0, t, BeginEvaluation,
                 Staged(s, t, s.stages[t].(sub := Completed(sub.doc, sub.ver))).(
                   clock := if !T.Running(s.clock) then s.clock.(handle := true, started := s.clock.started + 1) else s.clock))
  {
    var c := s.clock;
    var c2, c3 := ClockAt(c, t, T.EnsureCheck).(lock := Some(t)), ClockAt(c, t, T.EnsureStart).(lock := Some(t));
    TickerEnsures(c, t);
    if T.Running(c) {
      TickerDone(s0, t, s.(clock := c2), c);
    } else {
      InTicker(s0, t, BeginEvaluation, s.(clock := c2), T.Proceed, c3);
      TickerDone(s0, t, s.(clock := c3), c.(handle := true, started := c.started + 1));
    }
  }

  /** ensure_running by a thread alone: a look if the ticker is running or stopped, else a start. */
  lemma TickerEnsures(c: T.Clock, t: Tid)
    requires t < |c.threads| && c.lock.None? && c.threads[t].Resting?
    ensures var c1 := ClockAt(c, t, T.EnsureEntry);
            var c2, c3 := ClockAt(c, t, T.EnsureCheck).(lock := Some(t)), ClockAt(c, t, T.EnsureStart).(lock := Some(t));
            && T.Tick(c, t, T.CallEnsure) == c1 && T.Tick(c1, t, T.Proceed) == c2
            && T.Tick(c2, t, T.Proceed) == (if T.Running(c) then c else c3)
            && T.Tick(c3, t, T.Proceed) == c.(handle := true, started := c.started + 1)
  {
    assert c.threads[t := T.Resting] == c.threads;
    assert c.threads[t := T.EnsureEntry][t := T.EnsureCheck] == c.threads[t := T.EnsureCheck];
    assert c.threads[t := T.EnsureCheck][t := T.EnsureStart] == c.threads[t := T.EnsureStart];
    assert c.threads[t := T.EnsureCheck][t := T.Resting] == c.threads;
    assert c.threads[t := T.EnsureStart][t := T.Resting] == c.threads;
  }

  lemma TickerDone(s0: State, t: Tid, s: State, clock: T.Clock)
    requires Does(s0, t, BeginEvaluation, s) && Has(s, t) && s.stages[t].Borrowing? && s.stages[t].sub.Starting?
    requires T.Ready(s.clock, t, T.Proceed) && T.Tick(s.clock, t, T.Proceed) == clock
    requires t < |clock.threads| && clock.threads[t].Resting?
    ensures var sub := s.stages[t].sub;
            Does(s0, t, BeginEvaluation, Staged(s, t, s.stages[t].(sub := Completed(sub.doc, sub.ver))).(clock := clock))
  {
    var sub := s.stages[t].sub;
    Then(s0, t, BeginEvaluation, s, TickerStep(T.Proceed),
         Staged(s, t, s.stages[t].(sub := Completed(sub.doc, sub.ver))).(clock := clock));
  }

  lemma FinishesBuild(s0: State, t: Tid, s: State)
    requires Does(s0, t, BeginEvaluation, s) && Has(s, t) && s.stages[t].Borrowing? && s.stages[t].sub.Completed?
    requires s.pool.threads[t].Building?
    ensures var i, sub := s.pool.next, s.stages[t].sub;
            Does(s0, t, BeginEvaluation,
                 Staged(s, t, s.stages[t].(sub := Plain)).(
                   pool := PS.At(s.pool, t, P.Refreshing(i)).(next := i + 1, created := s.pool.created + 1),
                   views := s.views + [BuiltWith(sub.doc, sub.ver)]))
  {
    var i, sub := s.pool.next, s.stages[t].sub;
    HandsOver(s0, t, s);
    var p1 := PS.At(s.pool, t, P.Built(i)).(next := i + 1);
    var p2 := PS.At(s.pool, t, P.Refreshing(i)).(next := i + 1, created := s.pool.created + 1);
    PS.AtTwice(s.pool, t, P.Built(i), P.Refreshing(i));
    assert P.Next(p1, t, P.Step) == p2;
    InPool(s0, t, BeginEvaluation,
           Staged(s, t, s.stages[t].(sub := Plain)).(pool := p1, views := s.views + [BuiltWith(sub.doc, sub.ver)]), p2);
  }

  lemma HandsOver(s0: State, t: Tid, s: State)
    requires Does(s0, t, BeginEvaluation, s) && Has(s, t) && s.stages[t].Borrowing? && s.stages[t].sub.Completed?
    requires s.pool.threads[t].Building?
    ensures var i, sub := s.pool.next, s.stages[t].sub;
            Does(s0, t, BeginEvaluation,
                 Staged(s, t, s.stages[t].(sub := Plain)).(pool := PS.At(s.pool, t, P.Built(i)).(next := i + 1),
                                                           views := s.views + [BuiltWith(sub.doc, sub.ver)]))
  {
    var i, sub := s.pool.next, s.stages[t].sub;
    var p1 := PS.At(s.pool, t, P.Built(i)).(next := i + 1);
    assert P.Next(s.pool, t, P.Step) == p1;
    Then(s0, t, BeginEvaluation, s, BuildDone,
         Staged(s, t, s.stages[t].(sub := Plain)).(pool := p1, views := s.views + [BuiltWith(sub.doc, sub.ver)]));
  }

  // ---------------------------------------------------------------------------------------------
  // From the loan back to the queue

  /** t holds a loan of an open policy and has not entered the guest. */
  predicate Lent(s: State, t: Tid) {
    && Has(s, t) && s.stages[t].Borrowing? && s.stages[t].sub.Plain? && s.pool.threads[t].Loaned?
    && s.pool.threads[t].inst < |s.views| && !s.pool.closed && !s.closed && !s.pool.drained
    && |s.pool.idle| < s.pool.maxSize && Pristine(s.views[s.pool.threads[t].inst])
  }

  /** The policy with t's evaluation over and the slot back in the queue. */
  function BackWith(s: State, t: Tid, slot: P.Slot): State {
    Staged(s, t, Outside).(active := s.active - 1, pool := PS.At(s.pool, t, P.Idle).(idle := s.pool.idle + [slot]))
  }

  /** The history with t's guest entry. */
  function Entry(s: State, t: Tid): seq<Evaluation>
    requires Lent(s, t)
  {
    var v := s.views[s.pool.threads[t].inst];
    s.evals + [Evaluation(t, s.stages[t].since, v.doc, v.version)]
  }

  /** Inside the guest. */
  function Inside(s: State, t: Tid): State
    requires Lent(s, t)
  {
    var i := s.pool.threads[t].inst;
    Staged(s, t, s.stages[t].(sub := InGuest)).(views := s.views[i := InstanceView.InGuest(s.views[i], s.timeouts)],
                                                evals := Entry(s, t))
  }

  lemma EntersGuest(s: State, t: Tid)
    requires Lent(s, t)
    ensures Does(s, t, EnterGuest, Inside(s, t))
  {
    Begin(s, t, EnterGuest, Inside(s, t));
  }

  /** An answered evaluation is one guest entry on the lent instance, which goes back as it was. */
  lemma AnswerReturns(s: State, t: Tid)
    requires Lent(s, t)
    ensures Does(s, t, EnterGuest, BackWith(s, t, P.Real(s.pool.threads[t].inst)).(evals := Entry(s, t)))
  {
    EntersGuest(s, t);
    GuestReturns(s, t);
    GoesBack(s, t, EnterGuest, s.(evals := Entry(s, t)), s.pool.threads[t].inst);
  }

  lemma GuestReturns(s: State, t: Tid)
    requires Lent(s, t) && Does(s, t, EnterGuest, Inside(s, t))
    ensures Does(s, t, EnterGuest, s.(pool := PS.At(s.pool, t, P.Releasing(s.pool.threads[t].inst, false)), evals := Entry(s, t)))
  {
    var i, stage := s.pool.threads[t].inst, s.stages[t];
    StagedTwice(s, t, stage.(sub := InGuest), stage);
    assert s.stages[t := stage] == s.stages;
    assert Answered(InstanceView.InGuest(s.views[i], s.timeouts)) == s.views[i];
    assert Inside(s, t).views[i := s.views[i]] == s.views;
    assert P.Next(s.pool, t, P.EndLoan(false)) == PS.At(s.pool, t, P.Releasing(i, false));
    Then(s, t, EnterGuest, Inside(s, t), EvalAnswers,
         s.(pool := PS.At(s.pool, t, P.Releasing(i, false)), evals := Entry(s, t)));
  }

  /** A rejected input never enters the guest, and the instance goes back as it was. */
  lemma RejectionReturns(s: State, t: Tid)
    requires Lent(s, t)
    ensures Does(s, t, InputRejected, BackWith(s, t, P.Real(s.pool.threads[t].inst)))
  {
    var i := s.pool.threads[t].inst;
    assert s.stages[t := s.stages[t]] == s.stages;
    var p1 := PS.At(s.pool, t, P.Releasing(i, false));
    assert P.Next(s.pool, t, P.EndLoan(false)) == p1;
    Begin(s, t, InputRejected, s.(pool := p1));
    GoesBack(s, t, InputRejected, s, i);
  }

  lemma GoesBack(s0: State, t: Tid, first: Event, s: State, i: P.Inst)
    requires Lent(s, t) && s.pool.threads[t] == P.Loaned(i)
    requires Does(s0, t, first, s.(pool := PS.At(s.pool, t, P.Releasing(i, false))))
    ensures Does(s0, t, first, BackWith(s, t, P.Real(i)))
  {
    PoolReturns(s.pool, t, i);
    InPool(s0, t, first, s.(pool := PS.At(s.pool, t, P.Releasing(i, false))), PS.At(s.pool, t, P.Returning(i)));
    Leaves(s0, t, first, s, PS.At(s.pool, t, P.Returning(i)), PS.At(s.pool, t, P.Idle).(idle := s.pool.idle + [P.Real(i)]));
  }

  lemma PoolReturns(p: P.State, t: Tid, i: P.Inst)
    requires t < |p.threads| && !p.closed && !p.drained && |p.idle| < p.maxSize
    ensures var p1, p2 := PS.At(p, t, P.Releasing(i, false)), PS.At(p, t, P.Returning(i));
            && P.Enabled(p1, t, P.Step) && P.Next(p1, t, P.Step) == p2
            && P.Enabled(p2, t, P.Step) && P.Next(p2, t, P.Step) == PS.At(p, t, P.Idle).(idle := p.idle + [P.Real(i)])
  {
    PS.AtTwice(p, t, P.Releasing(i, false), P.Returning(i));
    PS.AtTwice(p, t, P.Returning(i), P.Idle);
  }

  /** The last pool statement of a borrow, and the end of the evaluation. */
  lemma Leaves(s0: State, t: Tid, first: Event, s: State, p: P.State, p': P.State)
    requires Has(s, t) && s.stages[t].Borrowing? && !s.closed && Does(s0, t, first, s.(pool := p))
    requires t < |p.threads| && Internal(p.threads[t]) && P.Enabled(p, t, P.Step) && P.Next(p, t, P.Step) == p'
    requires t < |p'.threads| && p'.threads[t].Idle?
    ensures Does(s0, t, first, Staged(s, t, Outside).(active := s.active - 1, pool := p'))
  {
    var exiting := Staged(s, t, Exiting).(pool := p');
    Then(s0, t, first, s.(pool := p), PoolStep, exiting);
    StagedTwice(s, t, Exiting, Outside);
    Then(s0, t, first, exiting, ExitEvaluation, Staged(s, t, Outside).(active := s.active - 1, pool := p'));
  }

  /** A failure in the guest costs the instance: closed, counted as a recreation, a placeholder in its slot. */
  lemma FailureDiscards(s: State, t: Tid, after: View)
    requires Lent(s, t) && EvaluationEffect(Inside(s, t).views[s.pool.threads[t].inst], after, Failed)
    ensures var i, back := s.pool.threads[t].inst, BackWith(s, t, P.Placeholder);
            Does(s, t, EnterGuest, back.(
                   evals := Entry(s, t), views := s.views[i := after],
                   pool := back.pool.(closes := s.pool.closes + multiset{i}, recreated := s.pool.recreated + 1)))
  {
    EntersGuest(s, t);
    GuestFails(s, t, after);
    IsDiscarded(s, t, EnterGuest, s.(views := s.views[s.pool.threads[t].inst := after], evals := Entry(s, t)), s.pool.threads[t].inst);
  }

  lemma GuestFails(s: State, t: Tid, after: View)
    requires Lent(s, t) && EvaluationEffect(Inside(s, t).views[s.pool.threads[t].inst], after, Failed)
    requires Does(s, t, EnterGuest, Inside(s, t))
    ensures var i := s.pool.threads[t].inst;
            Does(s, t, EnterGuest, s.(pool := PS.At(s.pool, t, P.Releasing(i, true)), views := s.views[i := after], evals := Entry(s, t)))
  {
    var i, stage := s.pool.threads[t].inst, s.stages[t];
    StagedTwice(s, t, stage.(sub := InGuest), stage);
    assert s.stages[t := stage] == s.stages;
    assert Inside(s, t).views[i := after] == s.views[i := after];
    assert P.Next(s.pool, t, P.EndLoan(true)) == PS.At(s.pool, t, P.Releasing(i, true));
    Then(s, t, EnterGuest, Inside(s, t), EvalFails(after),
         s.(pool := PS.At(s.pool, t, P.Releasing(i, true)), views := s.views[i := after], evals := Entry(s, t)));
  }

  lemma IsDiscarded(s0: State, t: Tid, first: Event, s: State, i: P.Inst)
    requires Has(s, t) && s.stages[t].Borrowing? && s.pool.threads[t] == P.Loaned(i)
    requires !s.pool.closed && !s.closed && |s.pool.idle| < s.pool.maxSize
    requires Does(s0, t, first, s.(pool := PS.At(s.pool, t, P.Releasing(i, true))))
    ensures var back := BackWith(s, t, P.Placeholder);
            Does(s0, t, first, back.(pool := back.pool.(closes := s.pool.closes + multiset{i}, recreated := s.pool.recreated + 1)))
  {
    IsRecounted(s0, t, first, s, i);
    IsReplaced(s0, t, first, s, i, s.pool.(recreated := s.pool.recreated + 1));
  }

  lemma IsRecounted(s0: State, t: Tid, first: Event, s: State, i: P.Inst)
    requires Has(s, t) && s.stages[t].Borrowing? && !s.pool.closed
    requires Does(s0, t, first, s.(pool := PS.At(s.pool, t, P.Releasing(i, true))))
    ensures Does(s0, t, first, s.(pool := PS.At(s.pool.(recreated := s.pool.recreated + 1), t, P.Vacating(i))))
  {
    var p := s.pool;
    PoolRecounts(p, t, i);
    InPool(s0, t, first, s.(pool := PS.At(p, t, P.Releasing(i, true))), PS.At(p, t, P.Recreating(i)));
    InPool(s0, t, first, s.(pool := PS.At(p, t, P.Recreating(i))), PS.At(p.(recreated := p.recreated + 1), t, P.Vacating(i)));
  }

  lemma PoolRecounts(p: P.State, t: Tid, i: P.Inst)
    requires t < |p.threads| && !p.closed
    ensures var p1, p2 := PS.At(p, t, P.Releasing(i, true)), PS.At(p, t, P.Recreating(i));
            && P.Enabled(p1, t, P.Step) && P.Next(p1, t, P.Step) == p2
            && P.Enabled(p2, t, P.Step) && P.Next(p2, t, P.Step) == PS.At(p.(recreated := p.recreated + 1), t, P.Vacating(i))
  {
    PS.AtTwice(p, t, P.Releasing(i, true), P.Recreating(i));
    PS.AtTwice(p, t, P.Recreating(i), P.Vacating(i));
  }

  lemma IsReplaced(s0: State, t: Tid, first: Event, s: State, i: P.Inst, p: P.State)
    requires Has(s, t) && s.stages[t].Borrowing? && !s.closed && t < |p.threads| && |p.idle| < p.maxSize
    requires Does(s0, t, first, s.(pool := PS.At(p, t, P.Vacating(i))))
    ensures Does(s0, t, first, Staged(s, t, Outside).(
                   active := s.active - 1,
                   pool := PS.At(p, t, P.Idle).(idle := p.idle + [P.Placeholder], closes := p.closes + multiset{i})))
  {
    PoolReplaces(p, t, i);
    var p2 := PS.At(p, t, P.Disposing(i)).(idle := p.idle + [P.Placeholder]);
    InPool(s0, t, first, s.(pool := PS.At(p, t, P.Vacating(i))), p2);
    Leaves(s0, t, first, s, p2, PS.At(p, t, P.Idle).(idle := p.idle + [P.Placeholder], closes := p.closes + multiset{i}));
  }

  lemma PoolReplaces(p: P.State, t: Tid, i: P.Inst)
    requires t < |p.threads| && |p.idle| < p.maxSize
    ensures var p1, p2 := PS.At(p, t, P.Vacating(i)), PS.At(p, t, P.Disposing(i)).(idle := p.idle + [P.Placeholder]);
            && P.Enabled(p1, t, P.Step) && P.Next(p1, t, P.Step) == p2 && P.Enabled(p2, t, P.Step)
            && P.Next(p2, t, P.Step) == PS.At(p, t, P.Idle).(idle := p.idle + [P.Placeholder], closes := p.closes + multiset{i})
  {
    PS.AtTwice(p, t, P.Vacating(i), P.Disposing(i));
    PS.AtTwice(p, t, P.Disposing(i), P.Idle);
  }

  /** A failed reload costs the instance in the same way, and the evaluation never enters the guest. */
  lemma ReloadFailureDiscards(s: State, t: Tid, after: View)
    requires Reachable(s) && t < |s.stages| && s.stages[t].Outside?
    requires !s.pool.closed && s.pool.idle != [] && s.pool.idle[0].Real? && s.pool.idle[0].inst < |s.views|
    requires var v := s.views[s.pool.idle[0].inst];
             v.version != s.version && ReloadEffect(InReload(v), after, s.data, s.version, false)
    ensures var i := s.pool.idle[0].inst;
            Does(s, t, BeginEvaluation, s.(
                   views := s.views[i := after],
                   pool := s.pool.(idle := s.pool.idle[1..] + [P.Placeholder], closes := s.pool.closes + multiset{i},
                                   recreated := s.pool.recreated + 1)))
  {
    Basics(s, t);
    OpenPolicy(s);
    StartsRefresh(s, t);
    FailsReload(s, t, after);
    DiscardsHead(s, t, after);
  }

  lemma DiscardsHead(s: State, t: Tid, after: View)
    requires Has(s, t) && s.stages[t].Outside? && s.pool.threads[t].Idle? && !s.pool.closed && !s.closed
    requires s.pool.idle != [] && s.pool.idle[0].Real? && s.pool.idle[0].inst < |s.views| && |s.pool.idle| <= s.pool.maxSize
    requires var i := s.pool.idle[0].inst;
             Does(s, t, BeginEvaluation, Borrower(s, t, Plain).(pool := Taken(s.pool, t, P.Releasing(i, true)), views := s.views[i := after]))
    ensures var i := s.pool.idle[0].inst;
            Does(s, t, BeginEvaluation, s.(
                   views := s.views[i := after],
                   pool := s.pool.(idle := s.pool.idle[1..] + [P.Placeholder], closes := s.pool.closes + multiset{i},
                                   recreated := s.pool.recreated + 1)))
  {
    var i := s.pool.idle[0].inst;
    var failed := Borrower(s, t, Plain).(pool := Taken(s.pool, t, P.Loaned(i)), views := s.views[i := after]);
    PS.AtTwice(s.pool, t, P.Loaned(i), P.Releasing(i, true));
    IsDiscarded(s, t, BeginEvaluation, failed, i);
    StagedTwice(s, t, Borrowing(s.version, Plain), Outside);
    PS.AtTwice(s.pool, t, P.Loaned(i), P.Idle);
    assert s.stages[t := Outside] == s.stages && s.pool.threads[t := P.Idle] == s.pool.threads;
  }

  lemma OpenPolicy(s: State)
    requires Reachable(s) && !s.pool.closed
    ensures !s.closed && !s.pool.drained && |s.pool.idle| <= s.pool.maxSize
  {
    ReachableInv(s);
  }

  lemma FailsReload(s: State, t: Tid, after: View)
    requires Has(s, t) && s.pool.idle != [] && s.pool.idle[0].Real? && s.pool.idle[0].inst < |s.views|
    requires var v := s.views[s.pool.idle[0].inst];
             v.version != s.version && ReloadEffect(InReload(v), after, s.data, s.version, false)
    requires Does(s, t, BeginEvaluation,
                  Borrower(s, t, Snapped(s.data, s.version)).(pool := Taken(s.pool, t, P.Refreshing(s.pool.idle[0].inst))))
    ensures var i := s.pool.idle[0].inst;
            Does(s, t, BeginEvaluation, Borrower(s, t, Plain).(pool := Taken(s.pool, t, P.Releasing(i, true)), views := s.views[i := after]))
  {
    var i := s.pool.idle[0].inst;
    var p := Taken(s.pool, t, P.Refreshing(i));
    var snapped, reloading := Snapped(s.data, s.version), Reloading(s.data, s.version);
    StagedTwice(s, t, Borrowing(s.version, snapped), Borrowing(s.version, reloading));
    var s1 := Borrower(s, t, reloading).(pool := p, views := s.views[i := InReload(s.views[i])]);
    Then(s, t, BeginEvaluation, Borrower(s, t, snapped).(pool := p), BeginReload, s1);
    EndsInFailure(s, t, s1, i, after);
    StagedTwice(s, t, Borrowing(s.version, reloading), Borrowing(s.version, Plain));
    PS.AtTwice(s.pool, t, P.Refreshing(i), P.Releasing(i, true));
    assert s1.views[i := after] == s.views[i := after];
  }

  lemma EndsInFailure(s0: State, t: Tid, s: State, i: P.Inst, after: View)
    requires Does(s0, t, BeginEvaluation, s) && Has(s, t) && s.stages[t].Borrowing? && s.stages[t].sub.Reloading?
    requires s.pool.threads[t] == P.Refreshing(i) && i < |s.views|
    requires ReloadEffect(s.views[i], after, s.stages[t].sub.doc, s.stages[t].sub.ver, false)
    ensures Does(s0, t, BeginEvaluation,
                 Staged(s, t, s.stages[t].(sub := Plain)).(pool := PS.At(s.pool, t, P.Releasing(i, true)), views := s.views[i := after]))
  {
    Then(s0, t, BeginEvaluation, s, ReloadFails(after),
         Staged(s, t, s.stages[t].(sub := Plain)).(pool := PS.At(s.pool, t, P.Releasing(i, true)), views := s.views[i := after]));
  }

  /** A failed build leaves the policy as it was, with the placeholder at the end of the queue. */
  lemma BuildFailureRestores(s: State, t: Tid)
    requires Reachable(s) && t < |s.stages| && s.stages[t].Outside?
    requires !s.pool.closed && s.pool.idle != [] && s.pool.idle[0].Placeholder?
    ensures Does(s, t, BeginEvaluation, s.(pool := s.pool.(idle := s.pool.idle[1..] + [P.Placeholder])))
  {
    Basics(s, t);
    OpenPolicy(s);
    StartsBuild(s, t);
    FailsBuild(s, t);
    RestoresHead(s, t);
  }

  lemma RestoresHead(s: State, t: Tid)
    requires Has(s, t) && s.stages[t].Outside? && s.pool.threads[t].Idle? && !s.closed
    requires s.pool.idle != [] && |s.pool.idle| <= s.pool.maxSize
    requires Does(s, t, BeginEvaluation, Borrower(s, t, Plain).(pool := Taken(s.pool, t, P.Restoring)))
    ensures Does(s, t, BeginEvaluation, s.(pool := s.pool.(idle := s.pool.idle[1..] + [P.Placeholder])))
  {
    PoolRestores(s.pool, t);
    assert s.stages[t := Outside] == s.stages;
    StagedTwice(s, t, Borrowing(s.version, Plain), Outside);
    Leaves(s, t, BeginEvaluation, Borrower(s, t, Plain), Taken(s.pool, t, P.Restoring),
           s.pool.(idle := s.pool.idle[1..] + [P.Placeholder]));
  }

  lemma PoolRestores(p: P.State, t: Tid)
    requires t < |p.threads| && p.threads[t].Idle? && p.idle != [] && |p.idle| <= p.maxSize
    ensures var p1 := Taken(p, t, P.Restoring);
            P.Enabled(p1, t, P.Step) && P.Next(p1, t, P.Step) == p.(idle := p.idle[1..] + [P.Placeholder])
  {
    PS.AtTwice(p, t, P.Restoring, P.Idle);
    assert p.threads[t := P.Idle] == p.threads;
  }

  lemma FailsBuild(s: State, t: Tid)
    requires Has(s, t) && s.pool.idle != []
    requires Does(s, t, BeginEvaluation, Borrower(s, t, Snapped(s.data, s.version)).(pool := Taken(s.pool, t, P.Building)))
    ensures Does(s, t, BeginEvaluation, Borrower(s, t, Plain).(pool := Taken(s.pool, t, P.Restoring)))
  {
    var s1 := Borrower(s, t, Snapped(s.data, s.version)).(pool := Taken(s.pool, t, P.Building));
    PS.AtTwice(s.pool, t, P.Building, P.Restoring);
    assert P.Next(s1.pool, t, P.FactoryFails) == Taken(s.pool, t, P.Restoring);
    StagedTwice(s, t, Borrowing(s.version, Snapped(s.data, s.version)), Borrowing(s.version, Plain));
    Then(s, t, BeginEvaluation, s1, BuildFails, Borrower(s, t, Plain).(pool := Taken(s.pool, t, P.Restoring)));
  }

  /**
   A whole evaluation on an idle instance: one guest entry, on the document and version published when
   it began; the instance is brought up to date if it was behind and goes to the end of the queue;
   nothing else changes.
   */
  lemma EvaluateAlone(s: State, t: Tid)
    requires Reachable(s) && t < |s.stages| && s.stages[t].Outside?
    requires !s.pool.closed && s.pool.idle != [] && s.pool.idle[0].Real?
    ensures s.pool.idle[0].inst < |s.views|
    ensures var slot := s.pool.idle[0];
            Does(s, t, BeginEvaluation, s.(
                   pool := s.pool.(idle := s.pool.idle[1..] + [slot]),
                   views := s.views[slot.inst := Refreshed(s, s.views[slot.inst])],
                   evals := s.evals + [Evaluation(t, s.version, s.data, s.version)]))
  {
    BorrowLends(s, t);
    LentIsLent(s, t);
    AnswerReturns(LentReal(s, t), t);
    BackAsBefore(s, t);
    Compose(s, t, BeginEvaluation, LentReal(s, t), EnterGuest,
            BackWith(LentReal(s, t), t, s.pool.idle[0]).(evals := s.evals + [Evaluation(t, s.version, s.data, s.version)]));
  }

  lemma BackAsBefore(s: State, t: Tid)
    requires Has(s, t) && s.stages[t].Outside? && s.pool.threads[t].Idle?
    requires s.pool.idle != [] && s.pool.idle[0].Real? && s.pool.idle[0].inst < |s.views|
    ensures var slot := s.pool.idle[0];
            BackWith(LentReal(s, t), t, slot) == s.(pool := s.pool.(idle := s.pool.idle[1..] + [slot]),
                                                    views := s.views[slot.inst := Refreshed(s, s.views[slot.inst])])
  {
    StagedTwice(s, t, Borrowing(s.version, Plain), Outside);
    PS.AtTwice(s.pool, t, P.Loaned(s.pool.idle[0].inst), P.Idle);
    assert s.stages[t := Outside] == s.stages && s.pool.threads[t := P.Idle] == s.pool.threads;
  }

  lemma LentIsLent(s: State, t: Tid)
    requires Reachable(s) && t < |s.stages| && s.stages[t].Outside?
    requires !s.pool.closed && s.pool.idle != [] && s.pool.idle[0].Real? && s.pool.idle[0].inst < |s.views|
    ensures Has(s, t) && Lent(LentReal(s, t), t) && s.pool.threads[t].Idle?
    ensures Entry(LentReal(s, t), t) == s.evals + [Evaluation(t, s.version, s.data, s.version)]
  {
    ReachableInv(s);
    assert Coupled(s.stages[t], s.pool.threads[t], s.clock.threads[t], s.pool.closed);
    assert QueuedOk(s.views, s.pool.idle[0]);
    assert Untorn(s.published, s.views[s.pool.idle[0].inst]);
  }
  // ---------------------------------------------------------------------------------------------
  // close

  /** Inside close() a thread takes plain steps until it has left. */
  lemma CloseMoves(p: P.State, t: Tid, e: P.Event)
    requires t < |p.threads| && ClosePc(p.threads[t]) && P.Enabled(p, t, e)
    ensures e == P.Step && Internal(p.threads[t]) && |P.Next(p, t, e).threads| == |p.threads|
    ensures ClosePc(P.Next(p, t, e).threads[t]) || P.Next(p, t, e).threads[t].Idle?
  {
  }

  /** The pool's close(), run for the facade. */
  lemma {:induction false} ClosesPool(s0: State, t: Tid, s: State, run: P.Schedule)
    requires Does(s0, t, BeginClose, s) && Has(s, t) && s.stages[t].ClosingPool? && ClosePc(s.pool.threads[t])
    requires run != [] && P.Legal(s.pool, run) && PS.Continues(run, t)
    requires t < |P.Run(s.pool, run).threads| && P.Run(s.pool, run).threads[t].Idle?
    ensures Does(s0, t, BeginClose, Staged(s, t, Marking).(pool := P.Run(s.pool, run)))
    decreases |run|
  {
    var pool := P.Next(s.pool, t, run[0].1);
    CloseMoves(s.pool, t, run[0].1);
    PS.OwnTail(run, t);
    if pool.threads[t].Idle? {
      PS.IdleStops(pool, t, run[1..]);
      Then(s0, t, BeginClose, s, PoolStep, Staged(s, t, Marking).(pool := pool));
    } else {
      assert s.stages[t := ClosingPool] == s.stages;
      Then(s0, t, BeginClose, s, PoolStep, s.(pool := pool));
      ClosesPool(s0, t, s.(pool := pool), run[1..]);
    }
  }

  /** The pool after the first close() by a thread alone. */
  function ClosedPool(p: P.State): P.State {
    p.(closed := true, idle := [P.Sentinel], closes := p.closes + PS.Instances(p.idle),
       atRisk := P.BeingReturned(p.threads), drained := true, posted := true)
  }

  /**
   The first close() of the facade: the pool is closed with every idle instance, the policy is marked
   closed, and the ticker is stopped by this very call if and only if no evaluation is active.
   */
  lemma CloseAlone(s: State, t: Tid)
    requires Reachable(s) && t < |s.stages| && s.stages[t].Outside?
    requires !s.pool.closed && s.pool.lock.None? && s.clock.lock.None?
    ensures Does(s, t, BeginClose, s.(
                   pool := ClosedPool(s.pool), closed := true,
                   clock := if s.active == 0 then s.clock.(stop := true, handle := false, taken := true) else s.clock))
  {
    Basics(s, t);
    PolicyPoolIsReachable(s);
    PS.CloseDisposes(s.pool, t);
    MarksAfterPool(s, t);
    Marks(s, t);
  }

  lemma MarksAfterPool(s: State, t: Tid)
    requires Has(s, t) && s.stages[t].Outside? && s.pool.threads[t].Idle?
    requires PS.Does(s.pool, t, P.StartClose, ClosedPool(s.pool))
    ensures Does(s, t, BeginClose, Staged(s, t, Marking).(pool := ClosedPool(s.pool)))
  {
    var run :| PS.Solo(s.pool, t, P.StartClose, run, ClosedPool(s.pool));
    BeginsClose(s, t);
    PS.OwnRest(s.pool, t, P.StartClose, run, ClosedPool(s.pool));
    ClosesPool(s, t, Staged(s, t, ClosingPool).(pool := PS.At(s.pool, t, P.CloseEntry)), run[1..]);
    StagedTwice(s, t, ClosingPool, Marking);
  }

  lemma BeginsClose(s: State, t: Tid)
    requires Has(s, t) && s.stages[t].Outside? && s.pool.threads[t].Idle?
    ensures P.Enabled(s.pool, t, P.StartClose) && P.Next(s.pool, t, P.StartClose) == PS.At(s.pool, t, P.CloseEntry)
    ensures Does(s, t, BeginClose, Staged(s, t, ClosingPool).(pool := PS.At(s.pool, t, P.CloseEntry)))
  {
    Begin(s, t, BeginClose, Staged(s, t, ClosingPool).(pool := PS.At(s.pool, t, P.CloseEntry)));
  }

  lemma Marks(s: State, t: Tid)
    requires Has(s, t) && s.stages[t].Outside? && s.clock.lock.None? && s.clock.threads[t].Resting?
    requires Does(s, t, BeginClose, Staged(s, t, Marking).(pool := ClosedPool(s.pool)))
    ensures Does(s, t, BeginClose, s.(
                   pool := ClosedPool(s.pool), closed := true,
                   clock := if s.active == 0 then s.clock.(stop := true, handle := false, taken := true) else s.clock))
  {
    var marked := s.(pool := ClosedPool(s.pool), closed := true);
    StagedTwice(s, t, Marking, Outside);
    assert s.stages[t := Outside] == s.stages;
    if s.active == 0 {
      StagedTwice(s, t, Marking, Stopping);
      Then(s, t, BeginClose, Staged(s, t, Marking).(pool := ClosedPool(s.pool)), MarkClosed, Staged(marked, t, Stopping));
      StopsTicker(s, t, Staged(marked, t, Stopping));
      StagedTwice(marked, t, Stopping, Outside);
    } else {
      Then(s, t, BeginClose, Staged(s, t, Marking).(pool := ClosedPool(s.pool)), MarkClosed, marked);
    }
  }

  /** The ticker's close() by a thread alone. */
  lemma StopsTicker(s0: State, t: Tid, s: State)
    requires Does(s0, t, BeginClose, s) && Has(s, t) && s.stages[t].Stopping?
    requires s.clock.lock.None? && s.clock.threads[t].Resting?
    ensures Does(s0, t, BeginClose, Staged(s, t, Outside).(clock := s.clock.(stop := true, handle := false, taken := true)))
  {
    var c := s.clock;
    TickerStops(c, t);
    var c1, c2 := ClockAt(c, t, T.CloseEntry), ClockAt(c.(stop := true), t, T.CloseLock);
    var c3 := ClockAt(c.(stop := true, lock := Some(t)), t, T.CloseTake);
    var c4 := ClockAt(c.(stop := true, handle := false, taken := true), t, T.CloseJoin);
    InTicker(s0, t, BeginClose, s, T.CallClose, c1);
    InTicker(s0, t, BeginClose, s.(clock := c1), T.Proceed, c2);
    InTicker(s0, t, BeginClose, s.(clock := c2), T.Proceed, c3);
    InTicker(s0, t, BeginClose, s.(clock := c3), T.Proceed, c4);
    StopsLast(s0, t, s.(clock := c4));
  }

  lemma StopsLast(s0: State, t: Tid, s: State)
    requires Does(s0, t, BeginClose, s) && Has(s, t) && s.stages[t].Stopping? && s.clock.threads[t].CloseJoin?
    ensures Does(s0, t, BeginClose, Staged(s, t, Outside).(clock := ClockAt(s.clock, t, T.Resting)))
  {
    Then(s0, t, BeginClose, s, TickerStep(T.Proceed), Staged(s, t, Outside).(clock := ClockAt(s.clock, t, T.Resting)));
  }

  lemma TickerStops(c: T.Clock, t: Tid)
    requires t < |c.threads| && c.lock.None? && c.threads[t].Resting?
    ensures var c1, c2 := ClockAt(c, t, T.CloseEntry), ClockAt(c.(stop := true), t, T.CloseLock);
            var c3 := ClockAt(c.(stop := true, lock := Some(t)), t, T.CloseTake);
            var c4 := ClockAt(c.(stop := true, handle := false, taken := true), t, T.CloseJoin);
            && T.Tick(c, t, T.CallClose) == c1 && T.Tick(c1, t, T.Proceed) == c2
            && T.Tick(c2, t, T.Proceed) == c3 && T.Tick(c3, t, T.Proceed) == c4
            && ClockAt(c4, t, T.Resting) == c.(stop := true, handle := false, taken := true)
  {
    assert c.threads[t := T.Resting] == c.threads;
    assert c.threads[t := T.CloseEntry][t := T.CloseLock] == c.threads[t := T.CloseLock];
    assert c.threads[t := T.CloseLock][t := T.CloseTake] == c.threads[t := T.CloseTake];
    assert c.threads[t := T.CloseTake][t := T.CloseJoin] == c.threads[t := T.CloseJoin];
    assert c.threads[t := T.CloseJoin][t := T.Resting] == c.threads;
  }
}

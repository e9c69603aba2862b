/** What the policy facade promises over every run: ticker lifetime, data freshness, clean reuse. */
module PolicyTheorems {
  import opened Types
  import opened InstanceView
  import opened Policy
  import opened PolicyInvariant
  import P = Pool
  import PI = PoolInvariant
  import T = Ticker

  /**
   Ticker safety: once any thread has decided to stop the ticker, no thread holds a loan or is on
   its way to one, now or in any continuation.
   */
  lemma TickerSafety(s: State, run: Schedule)
    requires Reachable(s) && Legal(s, run)
    ensures Decided(s) ==> Decided(Run(s, run)) && NobodyPastEntry(Run(s, run).pool)
  {
    ReachableInv(s);
    RunInv(s, run);
    if Decided(s) {
      StaysDecided(s, run);
    }
  }

  /** No thread holds a loan, or is waiting, building or refreshing on its way to one. */
  ghost predicate NobodyPastEntry(p: P.State) {
    forall t :: 0 <= t < |p.threads| ==> !PastEntry(p.threads[t])
  }

  lemma {:induction false} StaysDecided(s: State, run: Schedule)
    requires Inv(s) && Decided(s) && Legal(s, run)
    ensures Decided(Run(s, run))
    decreases |run|
  {
    if run == [] {
    } else {
      DecidedStays(s, run[0].0, run[0].1);
      StepInv(s, run[0].0, run[0].1);
      StaysDecided(Next(s, run[0].0, run[0].1), run[1..]);
    }
  }

  /** Whenever evaluations have deadlines and some thread holds a loan, the ticker thread is running. */
  lemma TickerRunsDuringLoans(s: State, t: Tid)
    requires Reachable(s) && s.timeouts && t < |s.pool.threads| && s.pool.threads[t].Loaned?
    ensures s.clock.started == 1 && s.clock.handle && !s.clock.stop
  {
    ReachableInv(s);
    assert PastEntry(s.pool.threads[t]);
    assert !Decided(s);
    assert HeldOk(s.views, s.stages[t], s.pool.threads[t]);
  }

  /** Without deadlines no ticker thread is ever started. */
  lemma NoTickerWithoutDeadlines(s: State)
    requires Reachable(s) && !s.timeouts
    ensures s.clock.started == 0 && !s.clock.handle
  {
    ReachableInv(s);
  }

  /** The ticker is not left running: policy closed, nothing active, no decision pending: stop was requested. */
  lemma TickerNotLeftRunning(s: State)
    requires Reachable(s) && s.closed && s.active == 0
    requires forall t :: 0 <= t < |s.stages| ==> !s.stages[t].Stopping?
    ensures s.clock.stop
  {
    ReachableInv(s);
  }

  /**
   Data freshness: every evaluation ran against a pair that was the published pair at some moment
   after its borrow began; no version it could have been is missing or torn.
   */
  lemma DataFreshness(s: State, k: nat)
    requires Reachable(s) && k < |s.evals|
    ensures s.evals[k].since <= s.evals[k].version <= s.version < |s.published|
    ensures s.published[s.evals[k].version] == s.evals[k].doc
  {
    ReachableInv(s);
    assert EvaluationOk(s.published, s.evals[k]);
  }

  /** A borrow that began at version since began at or after floor, or was in progress in stages. */
  predicate NewOrCarried(stages: seq<Stage>, floor: nat, t: Tid, since: nat) {
    floor <= since || (t < |stages| && stages[t].Borrowing? && stages[t].since == since)
  }

  /**
   An evaluation whose borrow began after set_data returned never sees an older version: of all
   evaluations after s, only those of borrows in progress at s may run below s's version.
   */
  lemma FreshAfterSetData(s: State, run: Schedule)
    requires Reachable(s) && Legal(s, run)
    ensures forall k :: |s.evals| <= k < |Run(s, run).evals| ==> FreshOrInProgress(s, Run(s, run).evals[k])
  {
    ReachableInv(s);
    RunInv(s, run);
    SinceGrows(s, run, s.stages, s.version, |s.evals|);
    forall k | |s.evals| <= k < |Run(s, run).evals| ensures FreshOrInProgress(s, Run(s, run).evals[k]) {
      assert EvaluationOk(Run(s, run).published, Run(s, run).evals[k]);
    }
  }

  /** e saw s's version or a later one, or belongs to a borrow that was in progress in s. */
  predicate FreshOrInProgress(s: State, e: Evaluation) {
    || s.version <= e.version
    || (e.thread < |s.stages| && s.stages[e.thread].Borrowing? && s.stages[e.thread].since == e.since)
  }

  lemma SinceStep(s: State, t: Tid, e: Event)
    requires Enabled(s, t, e)
    ensures StageAfter(s, t, e).Borrowing? ==>
              || StageAfter(s, t, e).since == s.version
              || (s.stages[t].Borrowing? && StageAfter(s, t, e).since == s.stages[t].since)
    ensures EvalsAfter(s, t, e) == s.evals
            || (s.stages[t].Borrowing? && |EvalsAfter(s, t, e)| == |s.evals| + 1
                && EvalsAfter(s, t, e)[..|s.evals|] == s.evals
                && EvalsAfter(s, t, e)[|s.evals|].thread == t
                && EvalsAfter(s, t, e)[|s.evals|].since == s.stages[t].since)
  {
  }

  /** Along a run, every borrow and every evaluation is new or carried over. */
  lemma {:induction false} SinceGrows(s: State, run: Schedule, stages: seq<Stage>, floor: nat, from: nat)
    requires Legal(s, run) && floor <= s.version && from <= |s.evals|
    requires forall t :: 0 <= t < |s.stages| && s.stages[t].Borrowing? ==>
               NewOrCarried(stages, floor, t, s.stages[t].since)
    requires forall j :: from <= j < |s.evals| ==> NewOrCarried(stages, floor, s.evals[j].thread, s.evals[j].since)
    ensures forall j :: from <= j < |Run(s, run).evals| ==>
              NewOrCarried(stages, floor, Run(s, run).evals[j].thread, Run(s, run).evals[j].since)
    decreases |run|
  {
    if run == [] {
    } else {
      var t, e := run[0].0, run[0].1;
      SinceStep(s, t, e);
      NewOrCarriedStep(s, Next(s, t, e), t, stages, floor, from);
      SinceGrows(Next(s, t, e), run[1..], stages, floor, from);
    }
  }

  lemma NewOrCarriedStep(s: State, s': State, t: Tid, stages: seq<Stage>, floor: nat, from: nat)
    requires floor <= s.version && from <= |s.evals| && t < |s.stages| == |s'.stages|
    requires s'.stages == s.stages[t := s'.stages[t]]
    requires s'.stages[t].Borrowing? ==>
               || s'.stages[t].since == s.version
               || (s.stages[t].Borrowing? && s'.stages[t].since == s.stages[t].since)
    requires || s'.evals == s.evals
             || (s.stages[t].Borrowing? && |s'.evals| == |s.evals| + 1 && s'.evals[..|s.evals|] == s.evals
                 && s'.evals[|s.evals|].thread == t && s'.evals[|s.evals|].since == s.stages[t].since)
    requires forall u :: 0 <= u < |s.stages| && s.stages[u].Borrowing? ==>
               NewOrCarried(stages, floor, u, s.stages[u].since)
    requires forall j :: from <= j < |s.evals| ==> NewOrCarried(stages, floor, s.evals[j].thread, s.evals[j].since)
    ensures forall u :: 0 <= u < |s'.stages| && s'.stages[u].Borrowing? ==>
              NewOrCarried(stages, floor, u, s'.stages[u].since)
    ensures forall j :: from <= j < |s'.evals| ==> NewOrCarried(stages, floor, s'.evals[j].thread, s'.evals[j].since)
  {
    forall j | from <= j < |s'.evals| ensures NewOrCarried(stages, floor, s'.evals[j].thread, s'.evals[j].since) {
      if j < |s.evals| {
        assert s'.evals[j] == s'.evals[..|s.evals|][j] || s'.evals == s.evals;
      }
    }
  }

  /**
   No torn data: an instance that is not poisoned was last loaded with the document published under
   its version tag. It holds that document whole, even while an evaluation runs on it, except during
   a reload, when it is in the reloading thread's hands and in nobody else's.
   */
  lemma NoTornData(s: State, i: nat)
    requires Reachable(s) && i < |s.views| && !s.views[i].poisoned
    ensures s.views[i].version <= s.version < |s.published|
    ensures s.published[s.views[i].version] == s.views[i].doc
    ensures s.views[i].intact || exists t :: BeingReloadedBy(s, i, t)
  {
    ReachableInv(s);
    assert Untorn(s.published, s.views[i]);
    assert Whole(s, i);
    if !s.views[i].intact {
      var t :| 0 <= t < |s.stages| && Reloads(s.stages[t], s.pool.threads[t], i);
      Exclusive(s.pool, t);
      assert BeingReloadedBy(s, i, t);
    }
  }

  /** Thread t is inside the reload of instance i; nobody else has it and it is not queued. */
  ghost predicate BeingReloadedBy(s: State, i: nat, t: Tid) {
    && t < |s.stages| == |s.pool.threads| && Reloads(s.stages[t], s.pool.threads[t], i)
    && P.Real(i) !in s.pool.idle
    && forall u :: 0 <= u < |s.pool.threads| && u != t && PI.HasInst(s.pool.threads[u]) ==>
         PI.InstOf(s.pool.threads[u]) != i
  }

  /**
   Every queued instance is pristine (unpoisoned, far-future deadline, heap at its checkpoint, data
   region intact) and nobody is using it; two evaluations in progress run on different instances.
   */
  lemma QueuedInstancesArePristine(s: State, k: nat)
    requires Reachable(s) && k < |s.pool.idle| && s.pool.idle[k].Real?
    ensures s.pool.idle[k].inst < |s.views| && Pristine(s.views[s.pool.idle[k].inst])
    ensures forall t :: 0 <= t < |s.pool.threads| && PI.HasInst(s.pool.threads[t]) ==>
              PI.InstOf(s.pool.threads[t]) != s.pool.idle[k].inst
  {
    ReachableInv(s);
    assert QueuedOk(s.views, s.pool.idle[k]);
    forall t | 0 <= t < |s.pool.threads| && PI.HasInst(s.pool.threads[t])
      ensures PI.InstOf(s.pool.threads[t]) != s.pool.idle[k].inst
    {
      Exclusive(s.pool, t);
    }
  }

  lemma EvaluationsAreDisjoint(s: State, t: Tid, u: Tid)
    requires Reachable(s) && t < u < |s.stages| && |s.stages| == |s.pool.threads|
    requires s.stages[t].Borrowing? && s.stages[t].sub.InGuest? && s.stages[u].Borrowing? && s.stages[u].sub.InGuest?
    ensures s.pool.threads[t].Loaned? && s.pool.threads[u].Loaned? && s.pool.threads[t].inst != s.pool.threads[u].inst
  {
    ReachableInv(s);
    assert Coupled(s.stages[t], s.pool.threads[t], s.clock.threads[t], s.pool.closed);
    assert Coupled(s.stages[u], s.pool.threads[u], s.clock.threads[u], s.pool.closed);
    Exclusive(s.pool, t);
  }

  /** A reload is never idle and never goes back: it always moves the instance to a later version. */
  lemma ReloadMovesForward(s: State, t: Tid)
    requires Reachable(s) && Enabled(s, t, BeginReload)
    ensures s.views[s.pool.threads[t].inst].version < s.stages[t].sub.ver <= s.version
  {
    ReachableInv(s);
    assert HeldOk(s.views, s.stages[t], s.pool.threads[t]);
    assert SnapshotOk(s.published, s.version, s.stages[t]);
  }

  predicate Without(run: Schedule, t: Tid) {
    forall k :: 0 <= k < |run| ==> run[k].0 != t
  }

  /** What happens to an instance happens at the hands of its holder. */
  lemma {:induction false} HolderDecides(s: State, run: Schedule, t: Tid)
    requires Inv(s) && Legal(s, run) && Without(run, t)
    requires t < |s.pool.threads| && PI.HasInst(s.pool.threads[t])
    ensures var s', i := Run(s, run), PI.InstOf(s.pool.threads[t]);
            && Inv(s') && s'.timeouts == s.timeouts
            && |s'.pool.threads| == |s.pool.threads| && s'.pool.threads[t] == s.pool.threads[t]
            && s'.stages[t] == s.stages[t] && s'.clock.threads[t] == s.clock.threads[t]
            && i < |s.views| && i < |s'.views| && s'.views[i] == s.views[i]
    decreases |run|
  {
    assert HeldOk(s.views, s.stages[t], s.pool.threads[t]);
    if run == [] {
    } else {
      var u, e := run[0].0, run[0].1;
      StepInv(s, u, e);
      OtherStays(s, u, e, t);
      assert Without(run[1..], t) by {
        assert forall k :: 0 <= k < |run[1..]| ==> run[1..][k] == run[k + 1];
      }
      HolderDecides(Next(s, u, e), run[1..], t);
    }
  }

  /** Another thread's step leaves the holder and its instance alone. */
  lemma OtherStays(s: State, u: Tid, e: Event, t: Tid)
    requires Inv(s) && Enabled(s, u, e) && u != t && t < |s.stages|
    requires PI.HasInst(s.pool.threads[t]) && PI.InstOf(s.pool.threads[t]) < |s.views|
    ensures var s', i := Next(s, u, e), PI.InstOf(s.pool.threads[t]);
            && |s'.pool.threads| == |s.pool.threads| && |s'.stages| == |s.stages| && |s'.clock.threads| == |s.clock.threads|
            && s'.pool.threads[t] == s.pool.threads[t]
            && s'.stages[t] == s.stages[t] && s'.clock.threads[t] == s.clock.threads[t]
            && i < |s'.views| && s'.views[i] == s.views[i]
  {
    Exclusive(s.pool, t);
    ViewFrame(s, u, e);
    if PoolEvent(e).Some? {
      PoolMove(s.pool, u, PoolEvent(e).value);
    }
    if e.TickerStep? {
      T.TickerStep(s.clock, u, e.call);
    }
  }

  /** How the end of a guest run looks to the instance. */
  predicate EndsGuest(e: Event, outcome: Outcome) {
    (e.EvalAnswers? && outcome.Answer?) || (e.EvalFails? && outcome.Failed?)
  }

  /** If t ends its guest run in s by e, the view of instance i, v at guest entry, has changed as by outcome. */
  predicate EndsAsProved(s: State, t: Tid, e: Event, i: nat, v: View, outcome: Outcome) {
    Enabled(s, t, e) && EndsGuest(e, outcome) ==>
      var views := ViewsAfter(s, t, e);
      i < |views| && EvaluationEffect(v, views[i], outcome)
  }

  /** t is inside the guest, on an instance whose view was v at entry. */
  predicate RunsGuest(s: State, t: Tid, v: View) {
    && t < |s.stages| == |s.pool.threads| == |s.clock.threads|
    && s.stages[t].Borrowing? && s.stages[t].sub.InGuest?
    && s.pool.threads[t].Loaned? && s.pool.threads[t].inst < |s.views|
    && Pristine(v) && s.views[s.pool.threads[t].inst] == InstanceView.InGuest(v, s.timeouts)
  }

  lemma GuestBegins(s: State, t: Tid)
    requires Inv(s) && Enabled(s, t, EnterGuest)
    ensures Next(s, t, EnterGuest).pool == s.pool && Next(s, t, EnterGuest).timeouts == s.timeouts
    ensures RunsGuest(Next(s, t, EnterGuest), t, s.views[s.pool.threads[t].inst])
  {
    assert HeldOk(s.views, s.stages[t], s.pool.threads[t]);
  }

  lemma GuestEnds(s: State, t: Tid, v: View, e: Event, outcome: Outcome)
    requires RunsGuest(s, t, v)
    ensures Enabled(s, t, EvalAnswers)
    ensures EndsAsProved(s, t, e, s.pool.threads[t].inst, v, outcome)
  {
  }

  /**
   An evaluation is atomic for its instance: from guest entry to its end, whatever the other
   threads do meanwhile, it can end in an answer, and either end has exactly the effect that
   PolicyInstance.Evaluate is proved to have.
   */
  lemma EvaluationIsAtomic(s: State, t: Tid, run: Schedule, e: Event, outcome: Outcome)
    requires Reachable(s) && Enabled(s, t, EnterGuest)
    requires Without(run, t) && Legal(Next(s, t, EnterGuest), run)
    ensures Enabled(Run(Next(s, t, EnterGuest), run), t, EvalAnswers)
    ensures var i := s.pool.threads[t].inst;
            EndsAsProved(Run(Next(s, t, EnterGuest), run), t, e, i, s.views[i], outcome)
  {
    ReachableInv(s);
    StepInv(s, t, EnterGuest);
    GuestBegins(s, t);
    HolderDecides(Next(s, t, EnterGuest), run, t);
    GuestEnds(Run(Next(s, t, EnterGuest), run), t, s.views[s.pool.threads[t].inst], e, outcome);
  }

  /** How the end of a reload looks to the instance. */
  predicate EndsReload(e: Event, ok: bool) {
    (e.ReloadDone? && ok) || (e.ReloadFails? && !ok)
  }

  /** If t ends its reload in s by e, the view of instance i, v when it began, has changed as proved. */
  predicate ReloadsAsProved(s: State, t: Tid, e: Event, i: nat, v: View, doc: Document, ver: nat, ok: bool) {
    Enabled(s, t, e) && EndsReload(e, ok) ==>
      var views := ViewsAfter(s, t, e);
      i < |views| && ReloadEffect(v, views[i], doc, ver, ok)
  }

  /** t is inside the reload of an instance whose view was v when it began. */
  predicate RunsReload(s: State, t: Tid, v: View, doc: Document, ver: nat) {
    && t < |s.stages| == |s.pool.threads| == |s.clock.threads|
    && s.stages[t].Borrowing? && s.stages[t].sub == Reloading(doc, ver)
    && s.pool.threads[t].Refreshing? && s.pool.threads[t].inst < |s.views|
    && Pristine(v) && s.views[s.pool.threads[t].inst] == InReload(v)
  }

  lemma ReloadBegins(s: State, t: Tid)
    requires Inv(s) && Enabled(s, t, BeginReload)
    ensures Next(s, t, BeginReload).pool == s.pool
    ensures RunsReload(Next(s, t, BeginReload), t, s.views[s.pool.threads[t].inst], s.stages[t].sub.doc, s.stages[t].sub.ver)
  {
    assert HeldOk(s.views, s.stages[t], s.pool.threads[t]);
  }

  lemma ReloadEnds(s: State, t: Tid, v: View, doc: Document, ver: nat, e: Event, ok: bool)
    requires RunsReload(s, t, v, doc, ver)
    ensures Enabled(s, t, ReloadDone)
    ensures ReloadsAsProved(s, t, e, s.pool.threads[t].inst, v, doc, ver, ok)
  {
  }

  /**
   A reload is atomic for its instance: whatever the other threads do while it is half done, it can
   succeed, and either end has exactly the effect that PolicyInstance.ReloadData is proved to have,
   for the pair read under the data lock.
   */
  lemma ReloadIsAtomic(s: State, t: Tid, run: Schedule, e: Event, ok: bool)
    requires Reachable(s) && Enabled(s, t, BeginReload)
    requires Without(run, t) && Legal(Next(s, t, BeginReload), run)
    ensures Enabled(Run(Next(s, t, BeginReload), run), t, ReloadDone)
    ensures var i := s.pool.threads[t].inst;
            ReloadsAsProved(Run(Next(s, t, BeginReload), run), t, e, i, s.views[i],
                            s.stages[t].sub.doc, s.stages[t].sub.ver, ok)
  {
    ReachableInv(s);
    StepInv(s, t, BeginReload);
    ReloadBegins(s, t);
    HolderDecides(Next(s, t, BeginReload), run, t);
    ReloadEnds(Run(Next(s, t, BeginReload), run), t, s.views[s.pool.threads[t].inst],
               s.stages[t].sub.doc, s.stages[t].sub.ver, e, ok);
  }

  /** The instance the pool gets from the factory is the one whose view is added, as proved of Build. */
  lemma BuildsAsProved(s: State, t: Tid)
    requires Reachable(s) && Enabled(s, t, BuildDone)
    ensures Next(s, t, BuildDone).pool.threads[t] == P.Built(|s.views|)
    ensures Next(s, t, BuildDone).views == s.views + [BuiltWith(s.stages[t].sub.doc, s.stages[t].sub.ver)]
  {
    ReachableInv(s);
  }

  /** The holder of an instance changes its view only while it is unpoisoned. */
  lemma PoisonStays(s: State, t: Tid, e: Event, i: nat)
    requires Shaped(s) && Kept(s) && Enabled(s, t, e) && i < |s.views| && s.views[i].poisoned
    ensures i < |ViewsAfter(s, t, e)| && ViewsAfter(s, t, e)[i].poisoned
  {
    assert HeldOk(s.views, s.stages[t], s.pool.threads[t]);
    assert Coupled(s.stages[t], s.pool.threads[t], s.clock.threads[t], s.pool.closed);
  }

  lemma {:induction false} PoisonIsForever(s: State, run: Schedule, i: nat)
    requires Inv(s) && Legal(s, run) && i < |s.views| && s.views[i].poisoned
    ensures i < |Run(s, run).views| && Run(s, run).views[i].poisoned
    decreases |run|
  {
    if run == [] {
    } else {
      PoisonStays(s, run[0].0, run[0].1, i);
      StepInv(s, run[0].0, run[0].1);
      PoisonIsForever(Next(s, run[0].0, run[0].1), run[1..], i);
    }
  }

  /** Neither queued, nor lent, nor on its way back. */
  ghost predicate OutOfUse(p: P.State, i: nat) {
    && P.Real(i) !in p.idle
    && forall t :: 0 <= t < |p.threads| ==> p.threads[t] != P.Loaned(i) && p.threads[t] != P.Returning(i)
  }

  lemma PoisonedIsOut(s: State, i: nat)
    requires Shaped(s) && Kept(s) && i < |s.views| && s.views[i].poisoned
    ensures OutOfUse(s.pool, i)
  {
    forall k | 0 <= k < |s.pool.idle| ensures s.pool.idle[k] != P.Real(i) {
      assert QueuedOk(s.views, s.pool.idle[k]);
    }
    forall t | 0 <= t < |s.pool.threads|
      ensures s.pool.threads[t] != P.Loaned(i) && s.pool.threads[t] != P.Returning(i)
    {
      assert HeldOk(s.views, s.stages[t], s.pool.threads[t]);
    }
  }

  /** A failure after guest entry or during a reload forces a discard: the instance is never lent or queued again. */
  lemma PoisonedIsDiscarded(s: State, run: Schedule, i: nat)
    requires Reachable(s) && Legal(s, run) && i < |s.views| && s.views[i].poisoned
    ensures OutOfUse(Run(s, run).pool, i)
  {
    ReachableInv(s);
    RunInv(s, run);
    PoisonIsForever(s, run, i);
    PoisonedIsOut(Run(s, run), i);
  }

  /** Every run of the policy is, for its pool, a run of the pool: the pool's theorems hold inside the policy. */
  lemma {:induction false} PoolProjection(s: State, run: Schedule) returns (poolRun: P.Schedule)
    requires Legal(s, run)
    ensures P.Legal(s.pool, poolRun) && P.Run(s.pool, poolRun) == Run(s, run).pool
    ensures |poolRun| <= |run|
    decreases |run|
  {
    if run == [] {
      poolRun := [];
    } else {
      var t, e := run[0].0, run[0].1;
      var rest := PoolProjection(Next(s, t, e), run[1..]);
      if PoolEvent(e).Some? {
        poolRun := [(t, PoolEvent(e).value)] + rest;
        assert poolRun[1..] == rest;
      } else {
        poolRun := rest;
      }
    }
  }

  lemma PolicyPoolIsReachable(s: State)
    requires Reachable(s)
    ensures P.Reachable(s.pool)
  {
    var threads: nat, maxSize: nat, timeouts: bool, probed: bool, run: Schedule :|
      && maxSize >= 1 && Legal(Init(threads, maxSize, timeouts, probed), run)
      && s == Run(Init(threads, maxSize, timeouts, probed), run);
    var poolRun := PoolProjection(Init(threads, maxSize, timeouts, probed), run);
    assert P.Legal(P.Init(threads, maxSize), poolRun) && s.pool == P.Run(P.Init(threads, maxSize), poolRun);
  }
}

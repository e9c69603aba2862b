/**
 The policy facade as a step system around the pool and the ticker: `evaluate_raw`, `set_data` and
 `close` on any number of threads. A step of the policy is one statement of policy.py, or one step
 of the pool or of the ticker taken on behalf of the thread; the pool's open choices (does the
 factory fail, is the released instance bad) are resolved here by what happens to the instances.
 */
module Policy {
  import opened Types
  import opened InstanceView
  import P = Pool
  import T = Ticker

  /** What a borrowing thread is doing inside the pool's callbacks. */
  datatype Sub =
    | Plain                               // at the pool's own statement
    | Snapped(doc: Document, ver: nat)    // has read the (data, version) pair under the data lock
    | Starting(doc: Document, ver: nat)   // instance built, at or inside the ticker's ensure_running
    | Completed(doc: Document, ver: nat)  // ticker ensured, about to return the instance to the pool
    | Reloading(doc: Document, ver: nat)  // instance found stale, inside its reload
    | InGuest                             // evaluation has entered the guest

  datatype Stage =
    | Outside
    | Entered                             // active count raised, about to borrow
    | Borrowing(since: nat, sub: Sub)     // inside pool.borrow(); since is the version when it began
    | Exiting                             // about to lower the active count
    | Stopping                            // has decided to stop the ticker
    | ClosingPool                         // inside pool.close()
    | Marking                             // about to set the policy's closed flag
    | Checking(doc: Document)             // set_data: about to read the closed flag
    | Swapping(doc: Document)             // set_data: about to publish

  datatype Event =
    | BeginEvaluation
    | BeginBorrow
    | PoolStep
    | PoolTimeOut
    | ReadSnapshot
    | BuildFails
    | BuildReady
    | TickerStep(call: T.Call)
    | BuildDone
    | UpToDate
    | BeginReload
    | ReloadDone
    | ReloadFails(after: View)
    | InputRejected
    | EnterGuest
    | EvalAnswers
    | EvalFails(after: View)
    | ExitEvaluation
    | BeginClose
    | MarkClosed
    | BeginSetData(doc: Document)
    | CheckOpen
    | SerialiseFails
    | Publish

  /** One guest entry: which pair the evaluation ran against, and the version when its borrow began. */
  datatype Evaluation = Evaluation(thread: Tid, since: nat, doc: Document, version: nat)

  /**
   Source fields: pool, clock (the ticker), active, closed, data, version. views holds each
   instance's state by instance number. History: published (every document in version order) and
   evals (every guest entry).
   */
  datatype State = State(
    pool: P.State,
    clock: T.Clock,
    stages: seq<Stage>,
    timeouts: bool,
    active: int,
    closed: bool,
    data: Document,
    version: nat,
    views: seq<View>,
    published: seq<Document>,
    evals: seq<Evaluation>)

  /**
   A constructed policy. probed: the constructor's probe instance has been through ensure_running,
   as it is when evaluations have deadlines; nothing proved here relies on it.
   */
  function Init(threads: nat, maxSize: nat, timeouts: bool, probed: bool): State {
    State(P.Init(threads, maxSize),
          if timeouts && probed then T.Probed(threads) else T.Init(threads),
          seq(threads, _ => Outside), timeouts, 0, false, None, 0, [], [None], [])
  }

  /** The pool event a policy event carries out, if any. */
  function PoolEvent(e: Event): Option<P.Event> {
    match e
    case BeginBorrow => Some(P.StartBorrow)
    case PoolStep => Some(P.Step)
    case PoolTimeOut => Some(P.TimeOut)
    case BuildFails => Some(P.FactoryFails)
    case BuildDone => Some(P.Step)
    case UpToDate => Some(P.Step)
    case ReloadDone => Some(P.Step)
    case ReloadFails(_) => Some(P.RefreshFails(true))
    case InputRejected => Some(P.EndLoan(false))
    case EvalAnswers => Some(P.EndLoan(false))
    case EvalFails(_) => Some(P.EndLoan(true))
    case BeginClose => Some(P.StartClose)
    case _ => None
  }

  /** Pool statements that run no callback of the policy. */
  predicate Internal(pc: P.Pc) {
    !pc.Idle? && !pc.Building? && !pc.Refreshing? && !pc.Loaned?
  }

  /** The policy event fits the thread's stage. */
  predicate Fits(s: State, t: Tid, e: Event)
    requires t < |s.stages| && t < |s.pool.threads| && t < |s.clock.threads|
  {
    var stage, pc := s.stages[t], s.pool.threads[t];
    match e
    case BeginEvaluation => stage.Outside?
    case BeginBorrow => stage.Entered?
    case PoolStep => (stage.ClosingPool? || stage.Borrowing?) && Internal(pc)
    case PoolTimeOut => stage.Borrowing?
    case ReadSnapshot => stage.Borrowing? && stage.sub.Plain? && (pc.Building? || pc.Refreshing?)
    case BuildFails => stage.Borrowing? && stage.sub.Snapped? && pc.Building?
    case BuildReady => stage.Borrowing? && stage.sub.Snapped? && pc.Building?
    case TickerStep(call) =>
      || (stage.Stopping? && !call.CallEnsure?)
      || (stage.Borrowing? && stage.sub.Starting? && !call.CallClose?)
    case BuildDone => stage.Borrowing? && stage.sub.Completed? && pc.Building?
    case UpToDate => Refreshable(s, stage, pc) && stage.sub.Snapped? && s.views[pc.inst].version == stage.sub.ver
    case BeginReload => Refreshable(s, stage, pc) && stage.sub.Snapped? && s.views[pc.inst].version != stage.sub.ver
    case ReloadDone => Refreshable(s, stage, pc) && stage.sub.Reloading?
    case ReloadFails(after) =>
      && Refreshable(s, stage, pc) && stage.sub.Reloading?
      && ReloadEffect(s.views[pc.inst], after, stage.sub.doc, stage.sub.ver, false)
    case InputRejected => stage.Borrowing? && stage.sub.Plain? && pc.Loaned? && pc.inst < |s.views|
    case EnterGuest => stage.Borrowing? && stage.sub.Plain? && pc.Loaned? && pc.inst < |s.views|
    case EvalAnswers => stage.Borrowing? && stage.sub.InGuest? && pc.Loaned? && pc.inst < |s.views|
    case EvalFails(after) =>
      && stage.Borrowing? && stage.sub.InGuest? && pc.Loaned? && pc.inst < |s.views|
      && EvaluationEffect(s.views[pc.inst], after, Failed)
    case ExitEvaluation => stage.Exiting?
    case BeginClose => stage.Outside?
    case MarkClosed => stage.Marking?
    case BeginSetData(_) => stage.Outside?
    case CheckOpen => stage.Checking?
    case SerialiseFails => stage.Swapping?
    case Publish => stage.Swapping?
  }

  predicate Refreshable(s: State, stage: Stage, pc: P.Pc) {
    stage.Borrowing? && pc.Refreshing? && pc.inst < |s.views|
  }

  predicate Enabled(s: State, t: Tid, e: Event) {
    && t < |s.stages| && t < |s.pool.threads| && t < |s.clock.threads|
    && Fits(s, t, e)
    && (PoolEvent(e).Some? ==> P.Enabled(s.pool, t, PoolEvent(e).value))
    && (e.TickerStep? ==> T.Ready(s.clock, t, e.call))
  }

  function PoolAfter(s: State, t: Tid, e: Event): P.State
    requires Enabled(s, t, e)
  {
    if PoolEvent(e).Some? then P.Next(s.pool, t, PoolEvent(e).value) else s.pool
  }

  function ClockAfter(s: State, t: Tid, e: Event): T.Clock
    requires Enabled(s, t, e)
  {
    if e.TickerStep? then T.Tick(s.clock, t, e.call) else s.clock
  }

  function ActiveAfter(s: State, e: Event): int {
    s.active + (if e.BeginEvaluation? then 1 else 0) - (if e.ExitEvaluation? then 1 else 0)
  }

  /** Back in the caller once the pool operation is over. */
  function WhileInPool(inPool: Stage, after: Stage, pc: P.Pc): Stage {
    if pc.Idle? then after else inPool
  }

  function StageAfter(s: State, t: Tid, e: Event): Stage
    requires Enabled(s, t, e)
  {
    var stage := s.stages[t];
    var pc' := PoolAfter(s, t, e).threads[t];
    match e
    case BeginEvaluation => Entered
    case BeginBorrow => Borrowing(s.version, Plain)
    case PoolStep => if stage.ClosingPool? then WhileInPool(ClosingPool, Marking, pc') else WhileInPool(stage, Exiting, pc')
    case PoolTimeOut => Exiting
    case ReadSnapshot => stage.(sub := Snapped(s.data, s.version))
    case BuildFails => stage.(sub := Plain)
    case BuildReady =>
      stage.(sub := if s.timeouts then Starting(stage.sub.doc, stage.sub.ver) else Completed(stage.sub.doc, stage.sub.ver))
    case TickerStep(_) =>
      if !ClockAfter(s, t, e).threads[t].Resting? then stage
      else if stage.Stopping? then Outside
      else stage.(sub := Completed(stage.sub.doc, stage.sub.ver))
    case BuildDone => stage.(sub := Plain)
    case UpToDate => stage.(sub := Plain)
    case BeginReload => stage.(sub := Reloading(stage.sub.doc, stage.sub.ver))
    case ReloadDone => stage.(sub := Plain)
    case ReloadFails(_) => stage.(sub := Plain)
    case InputRejected => stage
    case EnterGuest => stage.(sub := InGuest)
    case EvalAnswers => stage.(sub := Plain)
    case EvalFails(_) => stage.(sub := Plain)
    case ExitEvaluation => if s.closed && ActiveAfter(s, e) == 0 then Stopping else Outside
    case BeginClose => ClosingPool
    case MarkClosed => if s.active == 0 then Stopping else Outside
    case BeginSetData(doc) => Checking(doc)
    case CheckOpen => if s.closed then Outside else Swapping(stage.doc)
    case SerialiseFails => Outside
    case Publish => Outside
  }

  /** What the step does to the instance in the thread's hands. */
  function ViewsAfter(s: State, t: Tid, e: Event): seq<View>
    requires Enabled(s, t, e)
  {
    var stage, pc := s.stages[t], s.pool.threads[t];
    match e
    case BuildDone => s.views + [BuiltWith(stage.sub.doc, stage.sub.ver)]
    case BeginReload => s.views[pc.inst := InReload(s.views[pc.inst])]
    case ReloadDone => s.views[pc.inst := Reloaded(s.views[pc.inst], stage.sub.doc, stage.sub.ver)]
    case ReloadFails(after) => s.views[pc.inst := after]
    case EnterGuest => s.views[pc.inst := InstanceView.InGuest(s.views[pc.inst], s.timeouts)]
    case EvalAnswers => s.views[pc.inst := Answered(s.views[pc.inst])]
    case EvalFails(after) => s.views[pc.inst := after]
    case _ => s.views
  }

  function EvalsAfter(s: State, t: Tid, e: Event): seq<Evaluation>
    requires Enabled(s, t, e)
  {
    if e.EnterGuest? then
      var v := s.views[s.pool.threads[t].inst];
      s.evals + [Evaluation(t, s.stages[t].since, v.doc, v.version)]
    else s.evals
  }

  function Next(s: State, t: Tid, e: Event): State
    requires Enabled(s, t, e)
  {
    State(
      PoolAfter(s, t, e),
      ClockAfter(s, t, e),
      s.stages[t := StageAfter(s, t, e)],
      s.timeouts,
      ActiveAfter(s, e),
      s.closed || e.MarkClosed?,
      if e.Publish? then s.stages[t].doc else s.data,
      if e.Publish? then s.version + 1 else s.version,
      ViewsAfter(s, t, e),
      if e.Publish? then s.published + [s.stages[t].doc] else s.published,
      EvalsAfter(s, t, e))
  }

  type Schedule = seq<(Tid, Event)>

  predicate Legal(s: State, run: Schedule)
    decreases |run|
  {
    run == [] || (Enabled(s, run[0].0, run[0].1) && Legal(Next(s, run[0].0, run[0].1), run[1..]))
  }

  function Run(s: State, run: Schedule): State
    requires Legal(s, run)
    decreases |run|
  {
    if run == [] then s else Run(Next(s, run[0].0, run[0].1), run[1..])
  }

  ghost predicate Reachable(s: State) {
    exists threads: nat, maxSize: nat, timeouts: bool, probed: bool, run: Schedule ::
      && maxSize >= 1 && Legal(Init(threads, maxSize, timeouts, probed), run)
      && s == Run(Init(threads, maxSize, timeouts, probed), run)
  }
}

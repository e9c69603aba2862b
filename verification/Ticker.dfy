/**
 The epoch ticker's start/stop protocol: any number of threads call `ensure_running` and `close`;
 the stop event is set outside the lock, the thread handle is read and written under it.
 */
module Ticker {
  import opened Types

  datatype Phase =
    | Resting
    | EnsureEntry    // about to acquire the lock
    | EnsureCheck    // holding the lock, about to test handle and stop event
    | EnsureStart    // holding the lock, about to start the thread
    | CloseEntry     // about to set the stop event
    | CloseLock      // about to acquire the lock
    | CloseTake      // holding the lock, about to take the handle
    | CloseJoin      // about to join and return

  datatype Call = CallEnsure | CallClose | Proceed

  /** started counts ticker threads ever started; taken says some close() has got past the lock. */
  datatype Clock = Clock(stop: bool, handle: bool, lock: Option<Tid>, started: nat, threads: seq<Phase>, taken: bool)

  function Init(threads: nat): Clock {
    Clock(false, false, None, 0, seq(threads, _ => Resting), false)
  }

  predicate Ready(c: Clock, t: Tid, call: Call) {
    && t < |c.threads|
    && match c.threads[t]
       case Resting => !call.Proceed?
       case EnsureEntry => call.Proceed? && c.lock.None?
       case CloseLock => call.Proceed? && c.lock.None?
       case _ => call.Proceed?
  }

  function Tick(c: Clock, t: Tid, call: Call): Clock
    requires Ready(c, t, call)
  {
    match c.threads[t]
    case Resting => c.(threads := c.threads[t := if call.CallEnsure? then EnsureEntry else CloseEntry])
    case EnsureEntry => c.(lock := Some(t), threads := c.threads[t := EnsureCheck])
    case EnsureCheck =>
      if c.handle || c.stop then c.(lock := None, threads := c.threads[t := Resting])
      else c.(threads := c.threads[t := EnsureStart])
    case EnsureStart =>
      c.(handle := true, started := c.started + 1, lock := None, threads := c.threads[t := Resting])
    case CloseEntry => c.(stop := true, threads := c.threads[t := CloseLock])
    case CloseLock => c.(lock := Some(t), threads := c.threads[t := CloseTake])
    case CloseTake => c.(handle := false, lock := None, taken := true, threads := c.threads[t := CloseJoin])
    case CloseJoin => c.(threads := c.threads[t := Resting])
  }

  predicate PhaseFits(c: Clock, t: Tid)
    requires t < |c.threads|
  {
    var p := c.threads[t];
    && (p.EnsureCheck? || p.EnsureStart? || p.CloseTake? <==> c.lock == Some(t))
    && (p.EnsureStart? ==> !c.handle && c.started == 0 && !c.taken)
    && (p.CloseLock? || p.CloseTake? || p.CloseJoin? ==> c.stop)
    && (p.CloseJoin? ==> c.taken)
  }

  ghost predicate TickerInv(c: Clock) {
    && (forall t :: 0 <= t < |c.threads| ==> PhaseFits(c, t))
    && c.started <= 1
    && (c.handle ==> c.started == 1)
    && (c.started == 1 && !c.handle ==> c.taken)
    && (c.taken ==> c.stop && !c.handle)
    && (c.lock.Some? ==> c.lock.value < |c.threads|)
    && (c.stop && !c.taken ==> exists t :: 0 <= t < |c.threads| && WillTake(c.threads[t]))
  }

  /** Has set the stop event and not yet taken the handle. */
  predicate WillTake(p: Phase) { p.CloseLock? || p.CloseTake? }

  /** The ticker thread is running, or the ticker has been told to stop. */
  predicate Running(c: Clock) { c.handle || c.stop }

  /** Inside ensure_running. */
  predicate Ensuring(p: Phase) { p.EnsureEntry? || p.EnsureCheck? || p.EnsureStart? }

  lemma TickerStep(c: Clock, t: Tid, call: Call)
    requires TickerInv(c) && Ready(c, t, call)
    ensures TickerInv(Tick(c, t, call))
    ensures |Tick(c, t, call).threads| == |c.threads|
    ensures forall u :: 0 <= u < |c.threads| && u != t ==> Tick(c, t, call).threads[u] == c.threads[u]
    ensures c.taken ==> Tick(c, t, call).started == c.started && Tick(c, t, call).taken
    ensures c.stop ==> Tick(c, t, call).stop
    ensures c.started <= Tick(c, t, call).started
    ensures Running(c) ==> Running(Tick(c, t, call))
    ensures Ensuring(c.threads[t]) && !Ensuring(Tick(c, t, call).threads[t]) ==> Running(Tick(c, t, call))
  {
    var c' := Tick(c, t, call);
    assert PhaseFits(c, t);
    forall u | 0 <= u < |c'.threads| ensures PhaseFits(c', u) {
      assert PhaseFits(c, u);
    }
    if c'.stop && !c'.taken && !WillTake(c'.threads[t]) {
      var u :| 0 <= u < |c.threads| && WillTake(c.threads[u]);
      assert WillTake(c'.threads[u]);
    }
  }

  type Calls = seq<(Tid, Call)>

  predicate Allowed(c: Clock, calls: Calls)
    decreases |calls|
  {
    calls == [] || (Ready(c, calls[0].0, calls[0].1) && Allowed(Tick(c, calls[0].0, calls[0].1), calls[1..]))
  }

  function Play(c: Clock, calls: Calls): Clock
    requires Allowed(c, calls)
    decreases |calls|
  {
    if calls == [] then c else Play(Tick(c, calls[0].0, calls[0].1), calls[1..])
  }

  lemma {:induction false} PlayInv(c: Clock, calls: Calls)
    requires TickerInv(c) && Allowed(c, calls)
    ensures TickerInv(Play(c, calls))
    ensures c.taken ==> Play(c, calls).started == c.started
    decreases |calls|
  {
    if calls == [] {
    } else {
      TickerStep(c, calls[0].0, calls[0].1);
      PlayInv(Tick(c, calls[0].0, calls[0].1), calls[1..]);
    }
  }

  /**
   ensure_running does start the ticker: when a call of it has returned, whatever the other callers
   did meanwhile and later, the one ticker thread is running, unless the ticker has been told to stop.
   */
  lemma {:induction false} EnsureStarts(c: Clock, t: Tid, calls: Calls)
    requires TickerInv(c) && Allowed(c, calls) && t < |c.threads| && (Ensuring(c.threads[t]) || Running(c))
    ensures var c' := Play(c, calls);
            |c'.threads| == |c.threads| && (Ensuring(c'.threads[t]) || c'.stop || (c'.handle && c'.started == 1))
    decreases |calls|
  {
    if calls == [] {
    } else {
      TickerStep(c, calls[0].0, calls[0].1);
      EnsureStarts(Tick(c, calls[0].0, calls[0].1), t, calls[1..]);
    }
  }

  /** One call of ensure_running by thread 0 with nobody else about. */
  const ENSURE_ALONE: Calls := [(0, CallEnsure), (0, Proceed), (0, Proceed), (0, Proceed)]

  /** On a new ticker it starts the thread and changes nothing else. */
  lemma EnsureAlone(threads: nat)
    requires threads > 0
    ensures Allowed(Init(threads), ENSURE_ALONE)
    ensures Play(Init(threads), ENSURE_ALONE) == Init(threads).(handle := true, started := 1)
  {
    var c := Init(threads);
    var c1 := c.(threads := c.threads[0 := EnsureEntry]);
    var c2 := c.(lock := Some(0), threads := c.threads[0 := EnsureCheck]);
    var c3 := c.(lock := Some(0), threads := c.threads[0 := EnsureStart]);
    var c4 := c.(handle := true, started := 1);
    assert Tick(c, 0, CallEnsure) == c1 && Tick(c1, 0, Proceed) == c2 && Tick(c2, 0, Proceed) == c3;
    assert c3.threads[0 := Resting] == c.threads;
    assert Tick(c3, 0, Proceed) == c4;
    assert ENSURE_ALONE[1..] == [(0, Proceed), (0, Proceed), (0, Proceed)];
    assert ENSURE_ALONE[1..][1..] == [(0, Proceed), (0, Proceed)];
    assert ENSURE_ALONE[1..][1..][1..] == [(0, Proceed)];
    assert ENSURE_ALONE[1..][1..][1..][1..] == [];
    assert Play(c3, [(0, Proceed)]) == c4;
    assert Play(c2, [(0, Proceed), (0, Proceed)]) == c4;
  }

  /** The ticker after the policy constructor's probe instance has been built by thread 0. */
  function Probed(threads: nat): Clock {
    if threads == 0 then Init(0)
    else
      EnsureAlone(threads);
      Play(Init(threads), ENSURE_ALONE)
  }

  /** Thread t's close() returns with this call. */
  predicate CloseReturns(c: Clock, t: Tid) {
    t < |c.threads| && c.threads[t].CloseJoin?
  }

  /**
   At most one ticker thread is ever started, whoever races; and once any close() returns, none
   starts in any continuation, the stop event stays set and no handle is left behind.
   */
  lemma OneTickerThread(threads: nat, before: Calls, t: Tid, after: Calls)
    requires Allowed(Init(threads), before)
    requires var c := Play(Init(threads), before);
             CloseReturns(c, t) ==> Allowed(Tick(c, t, Proceed), after)
    ensures Play(Init(threads), before).started <= 1
    ensures var c := Play(Init(threads), before);
            CloseReturns(c, t) ==>
              && Play(Tick(c, t, Proceed), after).started == c.started
              && !Play(Tick(c, t, Proceed), after).handle && Play(Tick(c, t, Proceed), after).stop
  {
    PlayInv(Init(threads), before);
    var c := Play(Init(threads), before);
    if CloseReturns(c, t) {
      assert PhaseFits(c, t);
      TickerStep(c, t, Proceed);
      PlayInv(Tick(c, t, Proceed), after);
      TakenStays(Tick(c, t, Proceed), after);
    }
  }

  lemma {:induction false} TakenStays(c: Clock, calls: Calls)
    requires TickerInv(c) && c.taken && Allowed(c, calls)
    ensures Play(c, calls).taken
    decreases |calls|
  {
    if calls == [] {
    } else {
      TickerStep(c, calls[0].0, calls[0].1);
      TakenStays(Tick(c, calls[0].0, calls[0].1), calls[1..]);
    }
  }
}

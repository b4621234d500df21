/** The timer queue: all timers run for the same time, so the first added is the first due. The
    history of a run is kept in ghosts: what was added, what was cancelled in time, what was called. */
module Timers {
  import opened Wrappers

  const TICK := 5
  const TWO_32 := 0x1_0000_0000
  const MAX_IDS := 0x8000_0000

  /** A timer in the queue; its handler is gone once it is cancelled. */
  datatype Entry = Entry(time: int, handler: Option<nat>)

  /** The key that `add` returns: whether it still points to the queue, and the number of the timer. */
  datatype Key = Key(live: bool, id: int)

  datatype Added = Added(time: int, handler: nat)

  datatype Call = Call(id: nat, at: int)

  /** The first `n` timers without the cancelled ones, in order. */
  ghost function Due(cancelled: set<nat>, n: nat): seq<nat> {
    if n == 0 then [] else Due(cancelled, n - 1) + if n - 1 in cancelled then [] else [n - 1]
  }

  /** Each timer is there at most once, and they are in the order in which they were added. */
  lemma {:induction false} DueIsOrdered(cancelled: set<nat>, n: nat)
    ensures forall i | 0 <= i < |Due(cancelled, n)| :: Due(cancelled, n)[i] < n && Due(cancelled, n)[i] !in cancelled
    ensures forall i, j | 0 <= i < j < |Due(cancelled, n)| :: Due(cancelled, n)[i] < Due(cancelled, n)[j]
    ensures forall k | 0 <= k < n && k !in cancelled :: k in Due(cancelled, n)
  {
    if n > 0 { DueIsOrdered(cancelled, n - 1); }
  }

  /** A timer still to come is not among those called, cancelled or not. */
  lemma {:induction false} DueIgnoresLater(cancelled: set<nat>, n: nat, k: nat)
    requires k >= n
    ensures Due(cancelled + {k}, n) == Due(cancelled, n)
  {
    if n > 0 { DueIgnoresLater(cancelled, n - 1, k); }
  }

  function Ids(calls: seq<Call>): seq<nat> {
    seq(|calls|, i requires 0 <= i < |calls| => calls[i].id)
  }

  /** What holds of the history of any run. */
  ghost predicate History(added: seq<Added>, cancelled: set<nat>, calls: seq<Call>, step: nat, clock: int) {
    && step <= |added|
    && (forall k | k in cancelled :: k < |added|)
    && (forall i, j | 0 <= i <= j < |added| :: added[i].time <= added[j].time)
    && (forall i | 0 <= i < |added| :: added[i].time <= clock)
    && Ids(calls) == Due(cancelled, step)
    && (forall c | 0 <= c < |calls| ::
          calls[c].id < |added| && calls[c].at - added[calls[c].id].time >= TICK && calls[c].at <= clock)
    && (forall c, e | 0 <= c <= e < |calls| :: calls[c].at <= calls[e].at)
  }

  /** The guarantees of a run: every timer is called at most once, in the order of adding, never before
      its time, and never once it is cancelled. */
  lemma Guarantees(added: seq<Added>, cancelled: set<nat>, calls: seq<Call>, step: nat, clock: int)
    requires History(added, cancelled, calls, step, clock)
    ensures forall i, j | 0 <= i < j < |calls| :: calls[i].id < calls[j].id
    ensures forall c | 0 <= c < |calls| :: calls[c].id < step && calls[c].id !in cancelled
    ensures forall c | 0 <= c < |calls| :: calls[c].at >= added[calls[c].id].time + TICK
    ensures forall k | 0 <= k < step && k !in cancelled :: exists c :: 0 <= c < |calls| && calls[c].id == k
  {
    DueIsOrdered(cancelled, step);
    var due := Due(cancelled, step);
    assert forall c | 0 <= c < |calls| :: Ids(calls)[c] == calls[c].id;
    forall k | 0 <= k < step && k !in cancelled ensures exists c :: 0 <= c < |calls| && calls[c].id == k {
      var c :| 0 <= c < |due| && due[c] == k;
      assert calls[c].id == k;
    }
  }

  /* ---- one step of a run ---- */

  /** The queue holds the timers from the `step`-th on, without the handlers of the cancelled ones. */
  ghost predicate Waiting(dq: seq<Entry>, added: seq<Added>, cancelled: set<nat>, step: nat) {
    step + |dq| == |added|
    && forall k | 0 <= k < |dq| :: dq[k] == Entry(added[step + k].time,
         if step + k in cancelled then None else Some(added[step + k].handler))
  }

  ghost predicate Handled(called: seq<nat>, added: seq<Added>, calls: seq<Call>) {
    && |called| == |calls|
    && forall c | 0 <= c < |calls| :: calls[c].id < |added| && called[c] == added[calls[c].id].handler
  }

  lemma LaterClock(added: seq<Added>, cancelled: set<nat>, calls: seq<Call>, step: nat, clock: int, now: int)
    requires History(added, cancelled, calls, step, clock) && clock <= now
    ensures History(added, cancelled, calls, step, now)
  {
  }

  lemma AddStep(added: seq<Added>, cancelled: set<nat>, calls: seq<Call>, step: nat, now: int, handler: nat)
    requires History(added, cancelled, calls, step, now)
    ensures |added| !in cancelled && History(added + [Added(now, handler)], cancelled, calls, step, now)
  {
  }

  lemma CancelStep(added: seq<Added>, cancelled: set<nat>, calls: seq<Call>, step: nat, clock: int, k: nat)
    requires History(added, cancelled, calls, step, clock) && step <= k < |added|
    ensures History(added, cancelled + {k}, calls, step, clock)
  {
    hide Due;
    DueIgnoresLater(cancelled, step, k);
  }

  lemma CallStep(added: seq<Added>, cancelled: set<nat>, calls: seq<Call>, step: nat, clock: int)
    requires History(added, cancelled, calls, step, clock) && step < |added| && step !in cancelled
      && clock - added[step].time >= TICK
    ensures History(added, cancelled, calls + [Call(step, clock)], step + 1, clock)
  {
    assert Ids(calls + [Call(step, clock)]) == Ids(calls) + [step];
  }

  lemma SkipStep(added: seq<Added>, cancelled: set<nat>, calls: seq<Call>, step: nat, clock: int)
    requires History(added, cancelled, calls, step, clock) && step < |added| && step in cancelled
    ensures History(added, cancelled, calls, step + 1, clock)
  {
    assert Due(cancelled, step) + [] == Due(cancelled, step);
  }

  lemma HistoryFacts(added: seq<Added>, cancelled: set<nat>, calls: seq<Call>, step: nat, clock: int)
    requires History(added, cancelled, calls, step, clock)
    ensures step <= |added| && forall i, j | 0 <= i <= j < |added| :: added[i].time <= added[j].time
  {
  }

  lemma WaitingAdd(dq: seq<Entry>, added: seq<Added>, cancelled: set<nat>, step: nat, t: Added)
    requires Waiting(dq, added, cancelled, step) && |added| !in cancelled
    ensures Waiting(dq + [Entry(t.time, Some(t.handler))], added + [t], cancelled, step)
  {
  }

  lemma WaitingCancel(dq: seq<Entry>, added: seq<Added>, cancelled: set<nat>, step: nat, k: nat)
    requires Waiting(dq, added, cancelled, step) && step <= k < |added|
    ensures k - step < |dq| && Waiting(dq[k - step := dq[k - step].(handler := None)], added, cancelled + {k}, step)
  {
  }

  lemma WaitingPop(dq: seq<Entry>, added: seq<Added>, cancelled: set<nat>, step: nat)
    requires Waiting(dq, added, cancelled, step) && dq != []
    ensures step < |added| && Waiting(dq[1..], added, cancelled, step + 1)
    ensures dq[0].time == added[step].time
    ensures dq[0].handler == if step in cancelled then None else Some(added[step].handler)
  {
    assert forall k | 0 <= k < |dq| - 1 :: dq[1..][k] == dq[k + 1];
  }

  /** If the first timer in the queue is not due, none is. */
  lemma FirstIsDueFirst(dq: seq<Entry>, added: seq<Added>, cancelled: set<nat>, step: nat, now: int)
    requires Waiting(dq, added, cancelled, step) && dq != [] && now - dq[0].time < TICK
    requires forall i, j | 0 <= i <= j < |added| :: added[i].time <= added[j].time
    ensures forall k | 0 <= k < |dq| :: now - dq[k].time < TICK
  {
    assert dq[0].time == added[step].time;
  }

  lemma NothingYet(now: int)
    ensures History([], {}, [], 0, now) && Waiting([], [], {}, 0) && Handled([], [], [])
  {
  }

  class TimerQueue {
    var dq: seq<Entry>
    var step: nat
    var ioService: bool
    /** The handlers called so far. */
    var called: seq<nat>
    ghost var added: seq<Added>
    ghost var cancelled: set<nat>
    ghost var calls: seq<Call>
    ghost var clock: int

    ghost predicate Valid()
      reads this
    {
      && |added| < MAX_IDS && |added| == step + |dq|
      && History(added, cancelled, calls, step, clock)
      && Waiting(dq, added, cancelled, step)
      && Handled(called, added, calls)
    }

    constructor (now: int)
      ensures Valid() && added == [] && calls == [] && cancelled == {} && clock == now && !ioService
    {
      hide History, Waiting, Handled;
      NothingYet(now);
      dq, step, ioService, called := [], 0, false, [];
      added, cancelled, calls, clock := [], {}, [], now;
    }

    method SetIoService()
      requires Valid()
      modifies this`ioService
      ensures Valid() && ioService
    {
      ioService := true;
    }

    /** Adds a timer; its number is the count of those added before. */
    method Add(handler: nat, now: int) returns (k: Key)
      requires Valid() && clock <= now && |added| + 1 < MAX_IDS
      modifies this
      ensures Valid() && k == Key(true, |old(added)|) && clock == now
      ensures added == old(added) + [Added(now, handler)] && cancelled == old(cancelled) && calls == old(calls)
    {
      hide History, Waiting;
      LaterClock(added, cancelled, calls, step, clock, now);
      AddStep(added, cancelled, calls, step, now, handler);
      WaitingAdd(dq, added, cancelled, step, Added(now, handler));
      dq := dq + [Entry(now, Some(handler))];
      var ret := step + |dq| - 1;
      added, clock := added + [Added(now, handler)], now;
      k := Key(true, ret);
    }

    /** Cancels a timer. The key loses its queue; if the timer is no longer waiting, nothing else changes. */
    method Cancel(k: Key) returns (k': Key)
      requires Valid() && (k.live ==> 0 <= k.id < |added|)
      modifies this`dq, this`cancelled
      ensures Valid() && k' == Key(false, k.id)
      ensures !k.live || k.id < step ==> dq == old(dq) && cancelled == old(cancelled)
      ensures k.live && k.id >= step ==> cancelled == old(cancelled) + {k.id}
    {
      hide History, Waiting, Handled;
      k' := Key(false, k.id);
      if !k.live {
        return;
      }
      var index := Unsigned(k.id - step);
      if index < |dq| {
        CancelStep(added, cancelled, calls, step, clock, k.id);
        WaitingCancel(dq, added, cancelled, step, k.id);
        dq := dq[index := dq[index].(handler := None)];
        cancelled := cancelled + {k.id};
      }
    }

    /** Calls the first timer of the queue, which is due, unless it was cancelled, and takes it off. */
    method PopFirst()
      requires Valid() && dq != [] && clock - dq[0].time >= TICK
      modifies this`dq, this`step, this`called, this`calls
      ensures Valid() && dq == old(dq[1..]) && step == old(step) + 1
      ensures calls == old(calls) + if old(step) in cancelled then [] else [Call(old(step), clock)]
    {
      hide History, Waiting;
      WaitingPop(dq, added, cancelled, step);
      var x := dq[0];
      if x.handler.Some? {
        CallStep(added, cancelled, calls, step, clock);
        called := called + [x.handler.value];
        calls := calls + [Call(step, clock)];
      } else {
        SkipStep(added, cancelled, calls, step, clock);
      }
      dq := dq[1..];
      step := step + 1;
    }

    /** Calls what is due, in order. */
    method Process(now: int)
      requires Valid() && clock <= now
      modifies this`dq, this`step, this`called, this`calls, this`clock
      ensures Valid() && clock == now && old(step) <= step
      ensures old(calls) <= calls && forall c | |old(calls)| <= c < |calls| :: calls[c].at == now
      ensures if ioService then forall k | 0 <= k < |dq| :: now - dq[k].time < TICK
        else dq == old(dq) && calls == old(calls)
      ensures forall k | old(step) <= k < step :: now - added[k].time >= TICK
    {
      hide History, Waiting;
      LaterClock(added, cancelled, calls, step, clock, now);
      clock := now;
      if !ioService {
        return;
      }
      while |dq| != 0
        invariant Valid() && clock == now && old(step) <= step
        invariant old(calls) <= calls && forall c | |old(calls)| <= c < |calls| :: calls[c].at == now
        invariant forall k | old(step) <= k < step :: now - added[k].time >= TICK
        decreases |dq|
      {
        HistoryFacts(added, cancelled, calls, step, clock);
        WaitingPop(dq, added, cancelled, step);
        if now - dq[0].time < TICK {
          FirstIsDueFirst(dq, added, cancelled, step, now);
          break;
        }
        PopFirst();
      }
    }
  }

  /** The difference as a 32-bit unsigned number. */
  function Unsigned(x: int): nat { x % TWO_32 }
}

/**
 * The counted wake lock of ril.cpp for callback versions 13 and up. grabPartialWakeLock, releaseWakeLock and an armed
 * timeout exclude each other by a mutex. The rest of the timer callback runs on the event loop without it, so both
 * sides are split wherever one can come between the other's accesses to the last-timer pointer and its timer.
 */
module WakeLock {
  import opened Options

  /** Where the event loop is in userTimerCallback for a wake timer. */
  datatype Phase =
    | Quiet
    | Started(timer: int, armed: bool)   // userParam was read; armed: it was NULL
    | Timed(timer: int)                  // wakeTimeoutCallback returned
    | Clearing(timer: int)               // the last-timer pointer was equal and is about to be set to NULL
    | Freeing(timer: int)

  /** Who has the mutex, and how far that thread is. */
  datatype Mutex =
    | Open
    | GrabTest(timer: int)                  // about to test the last-timer pointer
    | GrabWrite(timer: int, previous: int)  // the pointer was not NULL; about to cancel the timer behind it
    | GrabSet(timer: int)                   // about to make the new timer the last one
    | ReleaseWrite(previous: int)           // the lock is given up; about to cancel the last timer

  /**
   * `live` maps every allocated wake timer to whether it was cancelled (userParam != NULL). `fault`: a cancellation
   * was written through a pointer that had become NULL or whose timer was freed.
   */
  datatype State = State(
    held: bool, count: int, last: Option<int>, live: map<int, bool>, phase: Phase, mutex: Mutex, fault: bool)

  datatype Step =
    | Grab(timer: int)   // lock; acquire; the allocation gave `timer`; count
    | GrabFails          // lock; acquire; the allocation gave NULL; release; unlock
    | TestLast
    | CancelLast
    | SetLast            // and unlock
    | Release            // lock; count down and unlock, or give up and test the pointer
    | Fire(timer: int)
    | Timeout            // under the mutex if armed
    | CompareLast
    | ClearLast
    | Free

  predicate Grabbing(s: State) {
    s.mutex.GrabTest? || s.mutex.GrabWrite? || s.mutex.GrabSet?
  }

  predicate Enabled(s: State, step: Step) {
    match step
    case Grab(timer) => s.mutex.Open? && timer !in s.live
    case GrabFails => s.mutex.Open?
    case TestLast => s.mutex.GrabTest?
    case CancelLast => s.mutex.GrabWrite? || s.mutex.ReleaseWrite?
    case SetLast => s.mutex.GrabSet?
    case Release => s.mutex.Open?
    case Fire(timer) => s.phase.Quiet? && timer in s.live
    case Timeout => s.phase.Started? && (s.phase.armed ==> s.mutex.Open?)
    case CompareLast => s.phase.Timed?
    case ClearLast => s.phase.Clearing?
    case Free => s.phase.Freeing?
  }

  function Do(s: State, step: Step): State
    requires Enabled(s, step)
  {
    match step
    case Grab(timer) =>
      s.(held := true, count := s.count + 1, live := s.live[timer := false], mutex := GrabTest(timer))
    case GrabFails => s.(held := false)
    case TestLast =>
      s.(mutex := if s.last.Some? then GrabWrite(s.mutex.timer, s.last.value) else GrabSet(s.mutex.timer))
    case CancelLast =>
      var previous := s.mutex.previous;
      var hit := s.last == Some(previous) && previous in s.live;
      s.(live := if hit then s.live[previous := true] else s.live, fault := s.fault || !hit,
         mutex := if s.mutex.GrabWrite? then GrabSet(s.mutex.timer) else Open)
    case SetLast => s.(last := Some(s.mutex.timer), mutex := Open)
    case Release =>
      if s.count > 1 then s.(count := s.count - 1)
      else s.(count := 0, held := false, mutex := if s.last.Some? then ReleaseWrite(s.last.value) else Open)
    case Fire(timer) => s.(phase := Started(timer, !s.live[timer]))
    case Timeout =>
      if s.phase.armed then s.(held := false, count := 0, phase := Timed(s.phase.timer))
      else s.(phase := Timed(s.phase.timer))
    case CompareLast =>
      s.(phase := if s.last == Some(s.phase.timer) then Clearing(s.phase.timer) else Freeing(s.phase.timer))
    case ClearLast => s.(last := None, phase := Freeing(s.phase.timer))
    case Free => s.(live := s.live - {s.phase.timer}, phase := Quiet)
  }

  /** A timer whose timeout has already happened. */
  predicate Spent(s: State, timer: int) {
    !s.phase.Quiet? && !s.phase.Started? && s.phase.timer == timer
  }

  /** A timer that is still going to release the lock. */
  predicate Armed(s: State, timer: int) {
    timer in s.live && !s.live[timer] && !Spent(s, timer)
  }

  /** The timer of the newest grab. */
  function Newest(s: State): Option<int> {
    if Grabbing(s) then Some(s.mutex.timer) else s.last
  }

  /** A last timer that the thread with the mutex has yet to cancel. */
  predicate ToCancel(s: State, timer: int) {
    s.last == Some(timer) && (s.mutex.GrabTest? || s.mutex.GrabWrite? || s.mutex.ReleaseWrite?)
  }

  /** What the wake lock is meant to keep; with the mutex open, Newest is the last-timer pointer. */
  ghost predicate Sound(s: State) {
    && s.count >= 0
    && (s.held <==> s.count > 0)
    && (s.last.Some? ==> s.last.value in s.live)
    && (s.held ==> Newest(s).Some? && Armed(s, Newest(s).value))
    && (forall t :: t in s.live && Armed(s, t) ==> Newest(s) == Some(t) || ToCancel(s, t))
    && !s.fault
  }

  ghost predicate Inv(s: State) {
    && Sound(s)
    && (!s.phase.Quiet? ==> s.phase.timer in s.live)
    && (s.phase.Started? && !s.phase.armed ==> s.live[s.phase.timer])
    && (s.phase.Clearing? ==> s.last == Some(s.phase.timer))
    && (s.phase.Freeing? ==> s.last != Some(s.phase.timer))
    && (Grabbing(s) ==> s.held && s.last != Some(s.mutex.timer))
    && (s.mutex.GrabWrite? || s.mutex.ReleaseWrite? ==> s.last == Some(s.mutex.previous))
    && (s.mutex.ReleaseWrite? ==> !s.held)
  }

  /**
   * The event loop does not clear the pointer between a grab's or release's test and its write, no grab sets it
   * between the event loop's compare and clear, and no allocation fails while the lock is held.
   */
  predicate Careful(s: State, step: Step) {
    && (step.ClearLast? ==> !s.mutex.GrabWrite? && !s.mutex.ReleaseWrite?)
    && (step.SetLast? ==> !s.phase.Clearing?)
    && (step.GrabFails? ==> s.count <= 0)
  }

  /** Exactly the careful steps keep the invariant. */
  lemma StepKeepsInvIff(s: State, step: Step)
    requires Inv(s) && Enabled(s, step)
    ensures Inv(Do(s, step)) <==> Careful(s, step)
  {
  }

  /** A pointer set between compare and clear is lost: the lock is held by a timer that nothing points to. */
  lemma SetWhileClearing(s: State)
    requires Inv(s) && s.phase.Clearing? && s.mutex.GrabSet?
    ensures var s' := Do(Do(s, SetLast), ClearLast);
      s'.held && s'.last == None && Armed(s', s.mutex.timer) && !Sound(s')
  {
  }

  /** A pointer cleared between test and write makes the write go wrong; the timer may even be freed by then. */
  lemma ClearWhileWriting(s: State)
    requires Inv(s) && s.phase.Clearing? && (s.mutex.GrabWrite? || s.mutex.ReleaseWrite?)
    ensures Do(Do(s, ClearLast), CancelLast).fault
    ensures var s' := Do(Do(s, ClearLast), Free); s.mutex.previous !in s'.live && Do(s', CancelLast).fault
  {
  }

  ghost predicate Init(s: State) {
    s == State(false, 0, None, map[], Quiet, Open, false)
  }

  ghost predicate Taken(trace: seq<State>, steps: seq<Step>, i: nat)
    requires i < |steps| && |trace| == |steps| + 1
  {
    Enabled(trace[i], steps[i]) && trace[i + 1] == Do(trace[i], steps[i])
  }

  ghost predicate Run(trace: seq<State>, steps: seq<Step>) {
    && |trace| == |steps| + 1
    && Init(trace[0])
    && forall i :: 0 <= i < |steps| ==> Taken(trace, steps, i)
  }

  ghost predicate CarefulRun(trace: seq<State>, steps: seq<Step>) {
    Run(trace, steps) && forall i :: 0 <= i < |steps| ==> Careful(trace[i], steps[i])
  }

  /** In every careful run: held iff counted, held by a live uncancelled last timer, every other one cancelled. */
  lemma {:induction false} RunKeepsInv(trace: seq<State>, steps: seq<Step>, n: nat)
    requires CarefulRun(trace, steps) && n < |trace|
    ensures Inv(trace[n])
  {
    if n > 0 {
      RunKeepsInv(trace, steps, n - 1);
      assert Taken(trace, steps, n - 1);
      assert Careful(trace[n - 1], steps[n - 1]);
      StepKeepsInvIff(trace[n - 1], steps[n - 1]);
    }
  }

  /** A held lock never leaks: its last timer can fire, and its timeout gives the lock up. */
  lemma HeldLockTimesOut(trace: seq<State>, steps: seq<Step>, n: nat)
    requires CarefulRun(trace, steps) && n < |trace|
    requires trace[n].held && trace[n].phase.Quiet? && trace[n].mutex.Open?
    ensures trace[n].last.Some? && Enabled(trace[n], Fire(trace[n].last.value))
    ensures var s' := Do(Do(trace[n], Fire(trace[n].last.value)), Timeout); !s'.held && s'.count == 0
  {
    RunKeepsInv(trace, steps, n);
  }

  // ---- Grabs against timeouts on their way to the mutex ----

  /** No grab while an armed timeout is on its way, and no such timeout of an older timer while a grab is under way. */
  predicate Unhurried(s: State, step: Step) {
    && (step.Grab? ==> !(s.phase.Started? && s.phase.armed))
    && (step.Fire? && Grabbing(s) && step.timer in s.live && !s.live[step.timer] ==> step.timer == s.mutex.timer)
  }

  /** A timeout on its way to the mutex belongs to the newest grab, and no timer stays armed for a lock given up. */
  ghost predicate NewestTimesOut(s: State) {
    && (s.phase.Started? && s.phase.armed && s.held ==> Newest(s) == Some(s.phase.timer))
    && (!s.held ==> forall t :: t in s.live ==> !Armed(s, t) || ToCancel(s, t))
  }

  lemma StepKeepsNewestIff(s: State, step: Step)
    requires Inv(s) && NewestTimesOut(s) && Enabled(s, step) && Careful(s, step)
    ensures NewestTimesOut(Do(s, step)) <==> Unhurried(s, step)
  {
  }

  lemma {:induction false} RunKeepsNewest(trace: seq<State>, steps: seq<Step>, n: nat)
    requires CarefulRun(trace, steps) && n < |trace|
    requires forall i :: 0 <= i < n ==> Unhurried(trace[i], steps[i])
    ensures NewestTimesOut(trace[n])
  {
    if n > 0 {
      RunKeepsNewest(trace, steps, n - 1);
      RunKeepsInv(trace, steps, n - 1);
      assert Taken(trace, steps, n - 1);
      assert Unhurried(trace[n - 1], steps[n - 1]);
      StepKeepsNewestIff(trace[n - 1], steps[n - 1]);
    }
  }

  /** In such a run, whenever the mutex is open, the lock is held exactly while a timer is armed to give it up. */
  lemma HeldIffArmed(trace: seq<State>, steps: seq<Step>, n: nat)
    requires CarefulRun(trace, steps) && n < |trace| && trace[n].mutex.Open?
    requires forall i :: 0 <= i < n ==> Unhurried(trace[i], steps[i])
    ensures trace[n].held <==> exists t :: t in trace[n].live && Armed(trace[n], t)
  {
    RunKeepsNewest(trace, steps, n);
    RunKeepsInv(trace, steps, n);
  }

  /** The lock is given up only by the release that matches the last grab, or by the newest grab's own timer. */
  lemma HeldUntil(trace: seq<State>, steps: seq<Step>, n: nat)
    requires CarefulRun(trace, steps) && n < |steps| && trace[n].held && !trace[n + 1].held
    requires forall i :: 0 <= i < n ==> Unhurried(trace[i], steps[i])
    ensures (steps[n].Release? && trace[n].count == 1) ||
            (steps[n].Timeout? && trace[n].phase.Started? && trace[n].last == Some(trace[n].phase.timer))
  {
    RunKeepsNewest(trace, steps, n);
    RunKeepsInv(trace, steps, n);
    assert Taken(trace, steps, n);
    assert Careful(trace[n], steps[n]);
  }

  // ---- What the count counts ----

  function Grabs(steps: seq<Step>): nat {
    if steps == [] then 0 else Grabs(steps[..|steps| - 1]) + if steps[|steps| - 1].Grab? then 1 else 0
  }

  function Releases(steps: seq<Step>): nat {
    if steps == [] then 0 else Releases(steps[..|steps| - 1]) + if steps[|steps| - 1].Release? then 1 else 0
  }

  /** Neither a timeout nor a release gives the lock up. */
  ghost predicate KeepsLock(s: State, step: Step) {
    && (step.Timeout? && s.phase.Started? ==> !s.phase.armed)
    && (step.Release? ==> s.count > 1)
  }

  /** Over any stretch of any run in which nothing gives the lock up, the count changes by grabs less releases. */
  lemma {:induction false} CountIs(trace: seq<State>, steps: seq<Step>, m: nat, n: nat)
    requires Run(trace, steps) && m <= n < |trace| && forall i :: m <= i < n ==> KeepsLock(trace[i], steps[i])
    ensures trace[n].count - trace[m].count == Grabs(steps[m..n]) - Releases(steps[m..n])
  {
    if m < n {
      CountIs(trace, steps, m, n - 1);
      assert Taken(trace, steps, n - 1) && KeepsLock(trace[n - 1], steps[n - 1]);
      assert steps[m..n][..n - 1 - m] == steps[m..n - 1];
    }
  }

  /**
   * In every careful run the lock is held, counting the grabs not released yet, from the moment it was free for as
   * long as fewer releases than grabs have happened and no armed timeout.
   */
  lemma {:induction false} HeldWhileOutstanding(trace: seq<State>, steps: seq<Step>, m: nat, n: nat)
    requires CarefulRun(trace, steps) && m < n < |trace| && trace[m].count == 0
    requires forall i :: m <= i < n && steps[i].Timeout? && trace[i].phase.Started? ==> !trace[i].phase.armed
    requires forall j :: m < j <= n ==> Releases(steps[m..j]) < Grabs(steps[m..j])
    ensures trace[n].held && trace[n].count == Grabs(steps[m..n]) - Releases(steps[m..n])
  {
    assert steps[m..n][..n - 1 - m] == steps[m..n - 1];
    assert Taken(trace, steps, n - 1);
    if n == m + 1 {
      assert steps[m..m] == [];
    } else {
      HeldWhileOutstanding(trace, steps, m, n - 1);
    }
    RunKeepsInv(trace, steps, n);
  }

  /** Step i allocated the timer, and it was not freed before n. */
  ghost predicate Allocated(trace: seq<State>, steps: seq<Step>, i: nat, n: nat, timer: int) {
    && i < |steps| && steps[i] == Grab(timer)
    && forall j :: i < j < n && j < |steps| && j < |trace| && steps[j].Free? && trace[j].phase.Freeing? ==>
         trace[j].phase.timer != timer
  }

  /** In every run the live timers are those of grabs, until their callback frees them. */
  lemma {:induction false} LiveIff(trace: seq<State>, steps: seq<Step>, n: nat, timer: int)
    requires Run(trace, steps) && n < |trace|
    ensures timer in trace[n].live <==> exists i: nat :: i < n && Allocated(trace, steps, i, n, timer)
  {
    if n > 0 {
      LiveIff(trace, steps, n - 1, timer);
      var m := n - 1;
      assert Taken(trace, steps, m);
      assert Allocated(trace, steps, m, n, timer) <==> steps[m] == Grab(timer);
      if i: nat :| i < m && Allocated(trace, steps, i, m, timer) {
        assert Allocated(trace, steps, i, n, timer) <==> !(steps[m].Free? && trace[m].phase.timer == timer);
      }
      assert forall i: nat :: i < m && Allocated(trace, steps, i, n, timer) ==> Allocated(trace, steps, i, m, timer);
    }
  }

  /** The steps of a grab with nothing beside it. */
  ghost function Grabbed(s: State, timer: int): State
    requires s.mutex.Open? && timer !in s.live
  {
    var tested := Do(Do(s, Grab(timer)), TestLast);
    Do(if tested.mutex.GrabWrite? then Do(tested, CancelLast) else tested, SetLast)
  }

  /** A grab that overtakes an armed timeout loses its lock to that older timer. */
  lemma HurriedGrabIsLost(s: State, timer: int)
    requires Inv(s) && s.mutex.Open? && s.phase.Started? && s.phase.armed && timer !in s.live
    ensures var s' := Do(Grabbed(s, timer), Timeout);
      Grabbed(s, timer).held && !s'.held && Armed(s', timer) && s'.phase != Timed(timer)
  {
  }

  /** The steps of a timer callback with nothing beside it. */
  ghost function CalledBack(s: State, timer: int): State
    requires s.mutex.Open? && s.phase.Quiet? && timer in s.live
  {
    var compared := Do(Do(Do(s, Fire(timer)), Timeout), CompareLast);
    Do(if compared.phase.Clearing? then Do(compared, ClearLast) else compared, Free)
  }

  /** All of them together free the timer; only the last timer's gives the lock up, and then nothing points to it. */
  lemma CalledBackIs(s: State, timer: int)
    requires Inv(s) && s.mutex.Open? && s.phase.Quiet? && timer in s.live
    ensures var s', wasLast := CalledBack(s, timer), s.last == Some(timer);
      && Inv(s') && s'.phase.Quiet? && s'.mutex.Open? && s'.live == s.live - {timer}
      && s'.held == (s.held && !wasLast) && s'.count == (if wasLast then 0 else s.count)
      && s'.last == (if wasLast then None else s.last)
  {
    var s1 := Do(s, Fire(timer));
    StepKeepsInvIff(s, Fire(timer));
    var s2 := Do(s1, Timeout);
    StepKeepsInvIff(s1, Timeout);
    var s3 := Do(s2, CompareLast);
    StepKeepsInvIff(s2, CompareLast);
    if s3.phase.Clearing? {
      StepKeepsInvIff(s3, ClearLast);
      StepKeepsInvIff(Do(s3, ClearLast), Free);
    } else {
      StepKeepsInvIff(s3, Free);
    }
    assert !s.live[timer] ==> Armed(s, timer);
  }

  // ---- The globals on the heap ----

  /** The globals of ril.cpp, with the timers as the addresses of their callback records. */
  class WakeLockState {
    var held: bool
    var count: int
    var last: Option<int>
    var live: map<int, bool>
    ghost var phase: Phase

    ghost function Value(): State
      reads this
    {
      State(held, count, last, live, phase, Open, false)
    }

    constructor ()
      ensures Init(Value())
    {
      held, count, last, live, phase := false, 0, None, map[], Quiet;
    }

    /** Cancels the last timer, if there is one. */
    method Cancel()
      requires last.Some? ==> last.value in live
      modifies `live
      ensures live == if last.Some? then old(live)[last.value := true] else old(live)
    {
      match last {
        case Some(timer) => live := live[timer := true];
        case None =>
      }
    }

    /**
     * `timer` is what internalRequestTimedCallback returned. After a grab the new timer alone is armed, and the
     * invariant is kept unless the event loop is about to clear the pointer. A failed allocation gives the lock up.
     */
    method GrabPartialWakeLock(timer: Option<int>)
      requires Inv(Value()) && (timer.Some? ==> timer.value !in live)
      modifies `held, `count, `last, `live
      ensures timer.Some? ==> held && count == old(count) + 1 && last == timer && Armed(Value(), timer.value)
      ensures timer.Some? ==> live.Keys == old(live.Keys) + {timer.value}
      ensures timer.Some? ==> forall t :: t in live && t != timer.value ==> !Armed(Value(), t)
      ensures timer.Some? ==> (Inv(Value()) <==> !phase.Clearing?)
      ensures timer.None? ==> !held && count == old(count) && last == old(last) && live == old(live)
      ensures timer.None? ==> (Inv(Value()) <==> old(count) == 0)
    {
      held := true;
      match timer {
        case None => held := false;
        case Some(t) =>
          count := count + 1;
          Cancel();
          live := live[t := false];
          last := timer;
      }
    }

    /** A release that does not match the last grab changes only the count; the matching one leaves no timer armed. */
    method ReleaseWakeLock()
      requires Inv(Value())
      modifies `held, `count, `live
      ensures Inv(Value()) && live.Keys == old(live.Keys)
      ensures old(count) > 1 ==> held && count == old(count) - 1 && live == old(live)
      ensures old(count) <= 1 ==> !held && count == 0 && forall t :: t in live ==> !Armed(Value(), t)
    {
      if count > 1 {
        count := count - 1;
      } else {
        count := 0;
        held := false;
        Cancel();
      }
    }

    /** userTimerCallback with nothing running beside it. */
    method UserTimerCallback(timer: int)
      requires Inv(Value()) && phase.Quiet? && timer in live
      modifies `held, `count, `last, `live
      ensures Value() == CalledBack(old(Value()), timer) && Inv(Value())
    {
      CalledBackIs(Value(), timer);
      hide Inv;
      WakeTimeoutCallback(!live[timer]);
      if last == Some(timer) {
        last := None;
      }
      live := live - {timer};
    }

    /** An armed timeout gives the lock up whatever the count. */
    method WakeTimeoutCallback(armed: bool)
      modifies `held, `count
      ensures armed ==> !held && count == 0
      ensures !armed ==> held == old(held) && count == old(count)
    {
      if armed {
        count := 0;
        held := false;
      }
    }
  }
}

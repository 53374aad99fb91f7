/**
 * The event loop and the threads that add timers and watches to it, as a step system over a monotone clock.
 * The timer list changes by `TimerQueue.Insert` and `TimerQueue.FirstDueAt`, as the list code does.
 * calcNextTimeout reads the list without its lock; it is one step here.
 */
module TimerRuns {
  import opened Options
  import opened TimerQueue

  /** Where the loop thread is in ril_event_loop. */
  datatype Phase =
    | Top                          // about to copy the watched descriptors
    | Copied(fds: set<int>)        // about to compute the bound
    | Blocked(bound: Option<int>, fds: set<int>)  // in select, until the given time or without bound
    | Returned(wakeReady: bool)    // select returned; is the wake pipe among the ready descriptors?
    | Queued(wakeReady: bool)      // processTimeouts done
    | Firing(wakeQueued: bool)     // in firePending; is processWakeupCallback still to be called?

  datatype Fired = Fired(timer: Timer, at: int)

  datatype State = State(
    clock: int,
    phase: Phase,
    queue: seq<Timer>,     // timer_list
    pending: seq<Timer>,   // the timers on pending_list
    history: seq<Fired>,   // timers whose function was called, in order
    next: nat,             // number of ril_timer_add calls so far
    owing: set<nat>,       // calls by other threads that have not reached triggerEvLoop yet
    bytes: nat,            // unread bytes in the wake pipe
    readFds: set<int>,     // watched descriptors beside the wake pipe
    owingFds: set<int>)    // descriptors added by other threads that have not reached triggerEvLoop yet

  datatype Step =
    | Tick(elapsed: nat)
    | AddFromThread(delay: nat)  // ril_timer_add on another thread
    | Trigger(stamp: nat)        // triggerEvLoop on that thread
    | AddFromLoop(delay: nat)    // ril_timer_add by a callback: triggerEvLoop does nothing on the loop thread
    | AddFd(fd: int)             // rilEventAddWakeup on another thread: ril_event_add
    | TriggerFd(fd: int)         // and triggerEvLoop
    | AddFdFromLoop(fd: int)     // by a callback
    | RemoveFd(fd: int)          // ril_event_del, or a one-shot event that is ready
    | CopyFds
    | ComputeBound               // calcNextTimeout
    | Interrupted                // select fails with EINTR
    | SelectReturns
    | ProcessTimeouts
    | ProcessReadReadies
    | FireTimer
    | ReadPipe                   // one read of at most 16 bytes in processWakeupCallback
    | PipeEmpty                  // the read that finds no more
    | EndOfPass

  const READ_SIZE: nat := 16

  function Timers(h: seq<Fired>): (ts: seq<Timer>)
    ensures |ts| == |h| && forall i :: 0 <= i < |h| ==> ts[i] == h[i].timer
  {
    if h == [] then [] else Timers(h[..|h| - 1]) + [h[|h| - 1].timer]
  }

  /** select can return: a byte in the wake pipe, or the bound reached. */
  predicate Wakeable(s: State)
    requires s.phase.Blocked?
  {
    s.bytes > 0 || (s.phase.bound.Some? && s.phase.bound.value <= s.clock)
  }

  predicate Enabled(s: State, step: Step) {
    match step
    case Tick(_) => true
    case AddFromThread(_) => true
    case Trigger(stamp) => stamp in s.owing
    case AddFromLoop(_) => s.phase.Firing?
    case AddFd(_) => true
    case TriggerFd(fd) => fd in s.owingFds
    case AddFdFromLoop(_) => s.phase.Firing?
    case RemoveFd(_) => true
    case CopyFds => s.phase.Top?
    case ComputeBound => s.phase.Copied?
    case Interrupted => s.phase.Blocked?
    case SelectReturns => s.phase.Blocked?  // also for other descriptors, which may be ready at any time
    case ProcessTimeouts => s.phase.Returned?
    case ProcessReadReadies => s.phase.Queued?
    case FireTimer => s.phase.Firing? && s.pending != []
    case ReadPipe => s.phase == Firing(true) && s.pending == [] && s.bytes > 0
    case PipeEmpty => s.phase == Firing(true) && s.pending == [] && s.bytes == 0
    case EndOfPass => s.phase == Firing(false) && s.pending == []
  }

  function Do(s: State, step: Step): State
    requires Enabled(s, step)
  {
    match step
    case Tick(elapsed) => s.(clock := s.clock + elapsed)
    case AddFromThread(delay) =>
      s.(queue := Insert(s.queue, Timer(s.next, s.clock + delay)), next := s.next + 1, owing := s.owing + {s.next})
    case Trigger(stamp) => s.(owing := s.owing - {stamp}, bytes := s.bytes + 1)
    case AddFromLoop(delay) =>
      s.(queue := Insert(s.queue, Timer(s.next, s.clock + delay)), next := s.next + 1)
    case AddFd(fd) => s.(readFds := s.readFds + {fd}, owingFds := s.owingFds + {fd})
    case TriggerFd(fd) => s.(owingFds := s.owingFds - {fd}, bytes := s.bytes + 1)
    case AddFdFromLoop(fd) => s.(readFds := s.readFds + {fd})
    case RemoveFd(fd) => s.(readFds := s.readFds - {fd})
    case CopyFds => s.(phase := Copied(s.readFds))
    case ComputeBound =>
      var bound := if s.queue == [] then None else Some(s.clock + TimeToFirst(s.queue, s.clock));
      s.(phase := Blocked(bound, s.phase.fds))
    case Interrupted => s.(phase := Top)
    case SelectReturns => s.(phase := Returned(s.bytes > 0))
    case ProcessTimeouts =>
      var k := FirstDueAt(s.queue, s.clock);
      s.(phase := Queued(s.phase.wakeReady), pending := s.pending + s.queue[..k], queue := s.queue[k..])
    case ProcessReadReadies => s.(phase := Firing(s.phase.wakeReady))
    case FireTimer => s.(history := s.history + [Fired(s.pending[0], s.clock)], pending := s.pending[1..])
    case ReadPipe => s.(bytes := if s.bytes < READ_SIZE then 0 else s.bytes - READ_SIZE)
    case PipeEmpty => s.(phase := Firing(false))
    case EndOfPass => s.(phase := Top)
  }

  ghost predicate Init(s: State) {
    s.phase == Top && s.queue == [] && s.pending == [] && s.history == [] && s.next == 0 &&
    s.owing == {} && s.owingFds == {}
  }

  ghost predicate Taken(trace: seq<State>, steps: seq<Step>, i: nat)
    requires i < |steps| && |trace| == |steps| + 1
  {
    Enabled(trace[i], steps[i]) && trace[i + 1] == Do(trace[i], steps[i])
  }

  ghost predicate Run(trace: seq<State>, steps: seq<Step>) {
    && |trace| == |steps| + 1
    && Init(trace[0])
    && forall i :: 0 <= i < |steps| ==> Taken(trace, steps, i)
  }

  // ---- The invariant ----

  /** All timers ever added, in the order they fire or will fire. */
  ghost function Line(s: State): seq<Timer> {
    Timers(s.history) + s.pending + s.queue
  }

  /** Every call of ril_timer_add is on the line exactly once. */
  ghost predicate Complete(line: seq<Timer>, n: nat) {
    |line| == n && StampsBelow(line, n) && DistinctStamps(line)
  }

  ghost predicate PendingPast(s: State) {
    && (forall i :: 0 <= i < |s.pending| ==> s.pending[i].deadline < s.clock)
    && (forall i :: 0 <= i < |s.history| ==> s.history[i].timer.deadline < s.history[i].at <= s.clock)
  }

  /** Nothing listed is due before the bound unless a wake-up is on its way. */
  ghost predicate Covered(s: State) {
    s.phase.Blocked? ==> forall t :: t in s.queue ==>
      || t.stamp in s.owing
      || s.bytes > 0
      || (s.phase.bound.Some? && (s.phase.bound.value <= s.clock || s.phase.bound.value <= t.deadline))
  }

  /** A watched descriptor that select does not know of has a wake-up on its way. */
  ghost predicate FdsCovered(s: State) {
    s.phase.Copied? || s.phase.Blocked? ==>
      forall fd :: fd in s.readFds ==> fd in s.phase.fds || fd in s.owingFds || s.bytes > 0
  }

  ghost predicate Inv(s: State) {
    && Ordered(Line(s))
    && Complete(Line(s), s.next)
    && PendingPast(s)
    && (s.phase.Top? || s.phase.Copied? || s.phase.Blocked? || s.phase.Returned? ==> s.pending == [])
    && Covered(s) && FdsCovered(s)
  }

  /** A timer added now goes behind everything that fired or is about to fire. */
  lemma AddKeepsLine(s: State, t: Timer)
    requires Inv(s) && t.stamp == s.next && s.clock <= t.deadline
    ensures forall r: State :: r.history == s.history && r.pending == s.pending && r.queue == Insert(s.queue, t) ==>
      Ordered(Line(r)) && Complete(Line(r), s.next + 1)
  {
    var past := Timers(s.history) + s.pending;
    assert past + s.queue == Line(s);
    InsertBehind(past, s.queue, t);
    InsertOrdered(Line(s), t);
    InsertDistinct(Line(s), t);
  }

  /** Every step that adds no timer leaves the line as it is. */
  lemma StepKeepsLine(s: State, step: Step)
    requires Enabled(s, step) && !step.AddFromThread? && !step.AddFromLoop?
    ensures Line(Do(s, step)) == Line(s)
  {
    hide Line;
    if step.ProcessTimeouts? {
      DueMove(s, Do(s, step), FirstDueAt(s.queue, s.clock));
    } else if step.FireTimer? {
      FirstFires(s, Do(s, step));
    } else {
      NothingMoves(s, Do(s, step));
    }
  }

  lemma NothingMoves(s: State, s': State)
    requires s'.history == s.history && s'.pending == s.pending && s'.queue == s.queue
    ensures Line(s') == Line(s)
  {
  }

  lemma DueMove(s: State, s': State, k: nat)
    requires k <= |s.queue| && s'.history == s.history
    requires s'.pending == s.pending + s.queue[..k] && s'.queue == s.queue[k..]
    ensures Line(s') == Line(s)
  {
  }

  lemma FirstFires(s: State, s': State)
    requires s.pending != [] && s'.queue == s.queue && s'.pending == s.pending[1..]
    requires s'.history == s.history + [Fired(s.pending[0], s.clock)]
    ensures Line(s') == Line(s)
  {
  }

  lemma StepKeepsInv(s: State, step: Step)
    requires Inv(s) && Enabled(s, step)
    ensures Inv(Do(s, step))
  {
    hide Ordered, Complete, Line, Insert;
    match step {
      case AddFromThread(delay) =>
        AddKeepsLine(s, Timer(s.next, s.clock + delay));
        AddKeepsCovered(s, delay);
      case AddFromLoop(delay) =>
        AddKeepsLine(s, Timer(s.next, s.clock + delay));
      case ComputeBound =>
        StepKeepsLine(s, step);
        ComputeCovers(s);
      case _ =>
        StepKeepsLine(s, step);
    }
  }

  lemma AddKeepsCovered(s: State, delay: nat)
    requires Inv(s)
    ensures Covered(Do(s, AddFromThread(delay)))
  {
  }

  /** The timer list is the end of the line, so it is in firing order itself. */
  lemma QueueOrdered(s: State)
    requires Inv(s)
    ensures Ordered(s.queue)
  {
    var k := |s.history| + |s.pending|;
    assert Line(s)[k..] == s.queue;
    OrderedSuffix(Line(s), k, s.next);
  }

  lemma ComputeCovers(s: State)
    requires Inv(s) && s.phase.Copied?
    ensures Covered(Do(s, ComputeBound))
  {
    QueueOrdered(s);
    hide Ordered, Line, Complete;
    if s.queue != [] { TimeToFirstIsLeast(s.queue, s.clock); }
  }

  lemma {:induction false} RunKeepsInv(trace: seq<State>, steps: seq<Step>, i: nat)
    requires Run(trace, steps) && i < |trace|
    ensures Inv(trace[i])
  {
    if i > 0 {
      RunKeepsInv(trace, steps, i - 1);
      assert Taken(trace, steps, i - 1);
      StepKeepsInv(trace[i - 1], steps[i - 1]);
    }
  }

  // ---- What holds of every run ----

  /**
   * In every run, the timers fire in order of their deadlines, equal deadlines newest first, each at most once
   * and strictly after its deadline; those not fired yet come later in that order; none is lost.
   */
  lemma FiringOrder(trace: seq<State>, steps: seq<Step>, n: nat)
    requires Run(trace, steps) && n < |trace|
    ensures var s := trace[n];
      && (forall i, j :: 0 <= i < j < |s.history| ==>
            Before(s.history[i].timer, s.history[j].timer) && s.history[i].timer.stamp != s.history[j].timer.stamp)
      && (forall i :: 0 <= i < |s.history| ==> s.history[i].timer.deadline < s.history[i].at <= s.clock)
      && (forall f, t :: f in s.history && (t in s.pending || t in s.queue) ==> Before(f.timer, t))
      && |s.history| + |s.pending| + |s.queue| == s.next
  {
    RunKeepsInv(trace, steps, n);
    var s := trace[n];
    var line := Line(s);
    forall i, j | 0 <= i < j < |s.history|
      ensures Before(s.history[i].timer, s.history[j].timer) && s.history[i].timer.stamp != s.history[j].timer.stamp
    {
      assert line[i] == s.history[i].timer && line[j] == s.history[j].timer;
    }
    forall f, t | f in s.history && (t in s.pending || t in s.queue) ensures Before(f.timer, t) {
      var i :| 0 <= i < |s.history| && s.history[i] == f;
      assert line[i] == f.timer;
      if t in s.pending {
        var j :| 0 <= j < |s.pending| && s.pending[j] == t;
        assert line[|s.history| + j] == t;
      } else {
        var j :| 0 <= j < |s.queue| && s.queue[j] == t;
        assert line[|s.history| + |s.pending| + j] == t;
      }
    }
  }

  /** What has fired stays fired: a later state's history extends an earlier one's. */
  lemma {:induction false} HistoryGrows(trace: seq<State>, steps: seq<Step>, i: nat, j: nat)
    requires Run(trace, steps) && i <= j < |trace|
    ensures trace[i].history <= trace[j].history
  {
    if i < j {
      HistoryGrows(trace, steps, i, j - 1);
      assert Taken(trace, steps, j - 1);
    }
  }

  /**
   * No missed wake-up: while the loop sleeps with a timer listed that is due before select's bound, either the
   * thread that added it has yet to write the wake byte, or an unread byte (or the bound) ends the sleep.
   */
  lemma NoMissedWakeup(trace: seq<State>, steps: seq<Step>, n: nat, t: Timer)
    requires Run(trace, steps) && n < |trace|
    requires trace[n].phase.Blocked? && t in trace[n].queue && t.stamp !in trace[n].owing
    requires trace[n].phase.bound.None? || t.deadline < trace[n].phase.bound.value || t.deadline <= trace[n].clock
    ensures Wakeable(trace[n])
  {
    RunKeepsInv(trace, steps, n);
  }

  /** The same for descriptors: one that is watched and not in select's set gets there, once its adder has triggered. */
  lemma NewFdReachesSelect(trace: seq<State>, steps: seq<Step>, n: nat, fd: int)
    requires Run(trace, steps) && n < |trace| && trace[n].phase.Blocked?
    requires fd in trace[n].readFds && fd !in trace[n].phase.fds && fd !in trace[n].owingFds
    ensures Wakeable(trace[n])
  {
    RunKeepsInv(trace, steps, n);
  }

  /** A pass takes every timer whose deadline has passed, whether or not it was the one select waited for. */
  lemma PassTakesAllDue(trace: seq<State>, steps: seq<Step>, n: nat)
    requires Run(trace, steps) && n < |steps| && steps[n].ProcessTimeouts?
    ensures forall t :: t in trace[n + 1].queue ==> trace[n].clock <= t.deadline
    ensures forall t :: t in trace[n].queue && t.deadline < trace[n].clock ==> t in trace[n + 1].pending
  {
    RunKeepsInv(trace, steps, n);
    var s := trace[n];
    assert Taken(trace, steps, n);
    QueueOrdered(s);
    hide Ordered, Line, Complete;
    ExpiredIsAllDue(s.queue, s.clock);
    var k := FirstDueAt(s.queue, s.clock);
    forall t | t in s.queue && t.deadline < s.clock ensures t in trace[n + 1].pending {
      var i :| 0 <= i < |s.queue| && s.queue[i] == t;
      assert s.queue[..k][i] == t;
    }
  }

  /** What is pending stays so until it fires. */
  lemma {:induction false} PendingFires(trace: seq<State>, steps: seq<Step>, m: nat, n: nat, t: Timer)
    requires Run(trace, steps) && m <= n < |trace| && t in trace[m].pending
    ensures t in trace[n].pending || exists f :: f in trace[n].history && f.timer == t
  {
    if m < n {
      PendingFires(trace, steps, m, n - 1, t);
      assert Taken(trace, steps, n - 1);
      var s, s' := trace[n - 1], trace[n];
      if steps[n - 1].FireTimer? {
        assert s.pending == [s.pending[0]] + s.pending[1..];
        assert s'.history[|s.history|].timer == s.pending[0] && s'.history[|s.history|] in s'.history;
      }
    }
  }

  /** A timer whose deadline has passed when a pass looks has fired by the time the loop is back at its top. */
  lemma DueTimerFires(trace: seq<State>, steps: seq<Step>, m: nat, n: nat, t: Timer)
    requires Run(trace, steps) && m < n < |trace| && steps[m].ProcessTimeouts? && trace[n].phase.Top?
    requires t in trace[m].queue && t.deadline < trace[m].clock
    ensures exists f :: f in trace[n].history && f.timer == t && f.at <= trace[n].clock
  {
    PassTakesAllDue(trace, steps, m);
    PendingFires(trace, steps, m + 1, n, t);
    RunKeepsInv(trace, steps, n);
  }

  /** processWakeupCallback is still to be called, or not finished, in this pass. */
  ghost predicate WakePending(p: Phase) {
    p == Returned(true) || p == Queued(true) || p == Firing(true)
  }

  /**
   * The wake pipe is drained before the bound is computed again: a pass that began with the pipe ready does not
   * get back to calcNextTimeout without a read that finds the pipe empty.
   */
  lemma {:induction false} DrainedBeforeBound(trace: seq<State>, steps: seq<Step>, i: nat, j: nat)
    requires Run(trace, steps) && i < j < |trace| && WakePending(trace[i].phase) && trace[j].phase.Top?
    ensures exists m :: i <= m < j && steps[m].PipeEmpty? && trace[m].bytes == 0
    decreases j - i
  {
    assert Taken(trace, steps, i);
    if !steps[i].PipeEmpty? {
      DrainedBeforeBound(trace, steps, i + 1, j);
    }
  }

  /** Once select has returned with the wake pipe ready, the pipe has been empty before the loop is at its top again. */
  lemma ReadyPipeIsDrained(trace: seq<State>, steps: seq<Step>, i: nat, j: nat)
    requires Run(trace, steps) && i < j < |trace| && steps[i].SelectReturns?
    requires trace[i].bytes > 0 && trace[j].phase.Top?
    ensures exists m :: i < m < j && steps[m].PipeEmpty? && trace[m].bytes == 0
  {
    assert Taken(trace, steps, i);
    DrainedBeforeBound(trace, steps, i + 1, j);
  }

  ghost function Reads(s: State, n: nat): State
    requires s.phase == Firing(true) && s.pending == []
    decreases n
  {
    if n == 0 || s.bytes == 0 then s else Reads(Do(s, ReadPipe), n - 1)
  }

  /** processWakeupCallback ends: with nothing written meanwhile, b bytes take b / 16 reads, rounded up. */
  lemma {:induction false} DrainEnds(s: State, n: nat)
    requires s.phase == Firing(true) && s.pending == []
    ensures Reads(s, n).bytes == if s.bytes <= READ_SIZE * n then 0 else s.bytes - READ_SIZE * n
    ensures Reads(s, n) == s.(bytes := Reads(s, n).bytes)
    decreases n
  {
    if n > 0 && s.bytes > 0 {
      DrainEnds(Do(s, ReadPipe), n - 1);
    }
  }

  // ---- Where the parts of the state come from ----

  /** Step i added this timer: its deadline is the time of the call plus the delay. */
  ghost predicate AddedAt(trace: seq<State>, steps: seq<Step>, i: nat, t: Timer) {
    && i < |steps| && i < |trace| && (steps[i].AddFromThread? || steps[i].AddFromLoop?)
    && t == Timer(trace[i].next, trace[i].clock + steps[i].delay)
  }

  lemma LineGains(s: State, step: Step, t: Timer)
    requires Enabled(s, step) && (step.AddFromThread? || step.AddFromLoop?)
    ensures t in Line(Do(s, step)) <==> t in Line(s) || t == Timer(s.next, s.clock + step.delay)
  {
    InsertMembers(s.queue, Timer(s.next, s.clock + step.delay), t);
  }

  /** In every run the timers fired, pending or listed are exactly those added, with the deadlines they were given. */
  lemma {:induction false} TimersAreThoseAdded(trace: seq<State>, steps: seq<Step>, n: nat, t: Timer)
    requires Run(trace, steps) && n < |trace|
    ensures t in Line(trace[n]) <==> exists i: nat :: i < n && AddedAt(trace, steps, i, t)
  {
    if n > 0 {
      TimersAreThoseAdded(trace, steps, n - 1, t);
      assert Taken(trace, steps, n - 1);
      var step := steps[n - 1];
      if step.AddFromThread? || step.AddFromLoop? {
        LineGains(trace[n - 1], step, t);
      } else {
        StepKeepsLine(trace[n - 1], step);
      }
      hide Line, Do;
      assert t in Line(trace[n]) <==> t in Line(trace[n - 1]) || AddedAt(trace, steps, n - 1, t);
    }
  }

  /** In every run a timer that fired was added, and fired only when more than its delay had passed since. */
  lemma FiredAfterItsDelay(trace: seq<State>, steps: seq<Step>, n: nat, f: Fired) returns (i: nat)
    requires Run(trace, steps) && n < |trace| && f in trace[n].history
    ensures i < n && AddedAt(trace, steps, i, f.timer) && trace[i].clock + steps[i].delay < f.at
  {
    RunKeepsInv(trace, steps, n);
    var s := trace[n];
    var k :| 0 <= k < |s.history| && s.history[k] == f;
    assert Line(s)[k] == f.timer;
    TimersAreThoseAdded(trace, steps, n, f.timer);
    i :| i < n && AddedAt(trace, steps, i, f.timer);
  }

  /** Step i called the function of f's timer, the first pending one, at the time that f says. */
  ghost predicate FiredAt(trace: seq<State>, steps: seq<Step>, i: nat, f: Fired) {
    && i < |steps| && i < |trace| && steps[i].FireTimer?
    && trace[i].pending != [] && f == Fired(trace[i].pending[0], trace[i].clock)
  }

  lemma {:induction false} HistoryIff(trace: seq<State>, steps: seq<Step>, n: nat, f: Fired)
    requires Run(trace, steps) && n < |trace|
    ensures f in trace[n].history <==> exists i: nat :: i < n && FiredAt(trace, steps, i, f)
  {
    if n > 0 {
      HistoryIff(trace, steps, n - 1, f);
      assert Taken(trace, steps, n - 1);
      assert f in trace[n].history <==> f in trace[n - 1].history || FiredAt(trace, steps, n - 1, f);
    }
  }

  function Elapsed(steps: seq<Step>): nat {
    if steps == [] then 0
    else Elapsed(steps[..|steps| - 1]) + if steps[|steps| - 1].Tick? then steps[|steps| - 1].elapsed else 0
  }

  lemma {:induction false} ClockIs(trace: seq<State>, steps: seq<Step>, n: nat)
    requires Run(trace, steps) && n < |trace|
    ensures trace[n].clock == trace[0].clock + Elapsed(steps[..n])
  {
    if n > 0 {
      ClockIs(trace, steps, n - 1);
      assert Taken(trace, steps, n - 1) && steps[..n][..n - 1] == steps[..n - 1];
    }
  }

  /** Step i was done, and nothing undid it before n. */
  ghost predicate Lasts(steps: seq<Step>, i: nat, n: nat, undo: Step) {
    forall j :: i < j < n && j < |steps| ==> steps[j] != undo
  }

  ghost predicate Owes(trace: seq<State>, steps: seq<Step>, i: nat, n: nat, stamp: nat) {
    && i < |steps| && i < |trace| && steps[i].AddFromThread? && trace[i].next == stamp
    && Lasts(steps, i, n, Trigger(stamp))
  }

  /** In every run the inserters that still have to trigger are those that have not. */
  lemma {:induction false} OwingIff(trace: seq<State>, steps: seq<Step>, n: nat, stamp: nat)
    requires Run(trace, steps) && n < |trace|
    ensures stamp in trace[n].owing <==> exists i: nat :: i < n && Owes(trace, steps, i, n, stamp)
  {
    if n > 0 {
      OwingIff(trace, steps, n - 1, stamp);
      assert Taken(trace, steps, n - 1);
      var m := n - 1;
      if i: nat :| i < m && Owes(trace, steps, i, m, stamp) {
        assert Owes(trace, steps, i, n, stamp) <==> steps[m] != Trigger(stamp);
      }
      assert forall i: nat :: i < m && Owes(trace, steps, i, n, stamp) ==> Owes(trace, steps, i, m, stamp);
      assert Owes(trace, steps, n - 1, n, stamp) <==> steps[n - 1].AddFromThread? && trace[n - 1].next == stamp;
    }
  }

  ghost predicate Watched(steps: seq<Step>, i: nat, n: nat, fd: int) {
    && i < |steps| && (steps[i] == AddFd(fd) || steps[i] == AddFdFromLoop(fd)) && Lasts(steps, i, n, RemoveFd(fd))
  }

  /** Descriptors watched from the beginning, and never removed. */
  ghost predicate AlwaysWatched(trace: seq<State>, steps: seq<Step>, n: nat, fd: int) {
    trace != [] && fd in trace[0].readFds && forall j :: 0 <= j < n && j < |steps| ==> steps[j] != RemoveFd(fd)
  }

  /** In every run the watched descriptors are those added and not removed since. */
  lemma {:induction false} WatchedIff(trace: seq<State>, steps: seq<Step>, n: nat, fd: int)
    requires Run(trace, steps) && n < |trace|
    ensures fd in trace[n].readFds <==>
      AlwaysWatched(trace, steps, n, fd) || exists i: nat :: i < n && Watched(steps, i, n, fd)
  {
    if n > 0 {
      WatchedIff(trace, steps, n - 1, fd);
      assert Taken(trace, steps, n - 1);
      var m := n - 1;
      if i: nat :| i < m && Watched(steps, i, m, fd) {
        assert Watched(steps, i, n, fd) <==> steps[m] != RemoveFd(fd);
      }
      assert forall i: nat :: i < m && Watched(steps, i, n, fd) ==> Watched(steps, i, m, fd);
      assert Watched(steps, n - 1, n, fd) <==> steps[n - 1] == AddFd(fd) || steps[n - 1] == AddFdFromLoop(fd);
    }
  }

  ghost predicate OwesFd(steps: seq<Step>, i: nat, n: nat, fd: int) {
    i < |steps| && steps[i] == AddFd(fd) && Lasts(steps, i, n, TriggerFd(fd))
  }

  lemma {:induction false} OwingFdsIff(trace: seq<State>, steps: seq<Step>, n: nat, fd: int)
    requires Run(trace, steps) && n < |trace|
    ensures fd in trace[n].owingFds <==> exists i: nat :: i < n && OwesFd(steps, i, n, fd)
  {
    if n > 0 {
      OwingFdsIff(trace, steps, n - 1, fd);
      assert Taken(trace, steps, n - 1);
      var m := n - 1;
      if i: nat :| i < m && OwesFd(steps, i, m, fd) {
        assert OwesFd(steps, i, n, fd) <==> steps[m] != TriggerFd(fd);
      }
      assert forall i: nat :: i < m && OwesFd(steps, i, n, fd) ==> OwesFd(steps, i, m, fd);
      assert OwesFd(steps, m, n, fd) <==> steps[m] == AddFd(fd);
    }
  }

  function Triggers(steps: seq<Step>): nat {
    if steps == [] then 0
    else
      var last := steps[|steps| - 1];
      Triggers(steps[..|steps| - 1]) + if last.Trigger? || last.TriggerFd? then 1 else 0
  }

  /** Between reads the pipe holds one more byte for each trigger. */
  lemma {:induction false} BytesAreTriggers(trace: seq<State>, steps: seq<Step>, m: nat, n: nat)
    requires Run(trace, steps) && m <= n < |trace| && forall i :: m <= i < n ==> !steps[i].ReadPipe?
    ensures trace[n].bytes == trace[m].bytes + Triggers(steps[m..n])
  {
    if m < n {
      BytesAreTriggers(trace, steps, m, n - 1);
      assert Taken(trace, steps, n - 1) && steps[m..n][..n - 1 - m] == steps[m..n - 1];
    }
  }

  /** In every run select waits for exactly the descriptors watched at the copy, and until the least deadline. */
  lemma SelectIsTold(trace: seq<State>, steps: seq<Step>, m: nat, n: nat)
    requires Run(trace, steps) && m < n < |steps| && steps[m].CopyFds? && steps[n].ComputeBound?
    requires forall i :: m < i < n ==> !steps[i].CopyFds? && !steps[i].ComputeBound?
    ensures trace[n + 1].phase.Blocked? && trace[n + 1].phase.fds == trace[m].readFds
    ensures trace[n + 1].phase.bound.None? <==> trace[n].queue == []
    ensures var s, bound := trace[n], trace[n + 1].phase.bound;
      bound.Some? ==>
        && (forall t :: t in s.queue ==> bound.value - s.clock <= Wait(t, s.clock))
        && (exists t :: t in s.queue && bound.value - s.clock == Wait(t, s.clock))
  {
    assert Taken(trace, steps, n);
    CopyKept(trace, steps, m, n);
    RunKeepsInv(trace, steps, n);
    QueueOrdered(trace[n]);
    if trace[n].queue != [] { TimeToFirstIsLeast(trace[n].queue, trace[n].clock); }
  }

  lemma {:induction false} CopyKept(trace: seq<State>, steps: seq<Step>, m: nat, n: nat)
    requires Run(trace, steps) && m < n <= |steps| && steps[m].CopyFds?
    requires forall i :: m < i < n ==> !steps[i].CopyFds? && !steps[i].ComputeBound?
    ensures trace[n].phase == Copied(trace[m].readFds)
  {
    assert Taken(trace, steps, n - 1);
    if n > m + 1 {
      CopyKept(trace, steps, m, n - 1);
    }
  }

  // ---- The order of a pass ----

  /** Steps that move the loop thread on; what its callbacks add is not among them. */
  predicate Moves(step: Step) {
    || step.CopyFds? || step.ComputeBound? || step.Interrupted? || step.SelectReturns? || step.ProcessTimeouts?
    || step.ProcessReadReadies? || step.FireTimer? || step.ReadPipe? || step.PipeEmpty? || step.EndOfPass?
  }

  /** What the loop thread has to have done last before it takes a step. */
  predicate MayFollow(a: Step, b: Step)
    requires Moves(b)
  {
    match b
    case CopyFds => a.Interrupted? || a.EndOfPass?
    case ComputeBound => a.CopyFds?
    case Interrupted => a.ComputeBound?
    case SelectReturns => a.ComputeBound?
    case ProcessTimeouts => a.SelectReturns?
    case ProcessReadReadies => a.ProcessTimeouts?
    case FireTimer => a.ProcessReadReadies? || a.FireTimer?
    case ReadPipe => a.ProcessReadReadies? || a.FireTimer? || a.ReadPipe?
    case PipeEmpty => a.ProcessReadReadies? || a.FireTimer? || a.ReadPipe?
    case EndOfPass => a.ProcessReadReadies? || a.FireTimer? || a.PipeEmpty?
  }

  lemma {:induction false} StandsStill(trace: seq<State>, steps: seq<Step>, m: nat, n: nat)
    requires Run(trace, steps) && m <= n < |trace| && forall i :: m <= i < n ==> !Moves(steps[i])
    ensures trace[n].phase == trace[m].phase && trace[n].pending == trace[m].pending
  {
    if m < n {
      StandsStill(trace, steps, m, n - 1);
      assert Taken(trace, steps, n - 1) && !Moves(steps[n - 1]);
    }
  }

  /**
   * In every run a pass goes in order: copy, bound, select, timeouts, readable descriptors, callbacks, and only then
   * the next copy. An interrupted select goes straight back to the copy.
   */
  lemma PassInOrder(trace: seq<State>, steps: seq<Step>, m: nat, n: nat)
    requires Run(trace, steps) && m < n < |steps| && Moves(steps[m]) && Moves(steps[n])
    requires forall i :: m < i < n ==> !Moves(steps[i])
    ensures MayFollow(steps[m], steps[n])
  {
    RunKeepsInv(trace, steps, m);
    StandsStill(trace, steps, m + 1, n);
    assert Taken(trace, steps, m) && Taken(trace, steps, n);
  }

  lemma FirstIsCopy(trace: seq<State>, steps: seq<Step>, n: nat)
    requires Run(trace, steps) && n < |steps| && Moves(steps[n]) && forall i :: 0 <= i < n ==> !Moves(steps[i])
    ensures steps[n].CopyFds?
  {
    StandsStill(trace, steps, 0, n);
    assert Taken(trace, steps, n);
  }

  /** While a pass lasts, processWakeupCallback is pending only if the pipe was ready when select returned. */
  lemma {:induction false} NotReadyNotPending(trace: seq<State>, steps: seq<Step>, i: nat, n: nat)
    requires Run(trace, steps) && i < n < |trace| && steps[i].SelectReturns? && trace[i].bytes == 0
    requires forall j :: i < j < n ==> !steps[j].SelectReturns?
    ensures !WakePending(trace[n].phase)
  {
    assert Taken(trace, steps, n - 1);
    if n > i + 1 { NotReadyNotPending(trace, steps, i, n - 1); }
  }

  /** In every run a pass reads the wake pipe exactly when select found it ready. */
  lemma PipeReadIff(trace: seq<State>, steps: seq<Step>, i: nat, n: nat)
    requires Run(trace, steps) && i < n < |steps| && steps[i].SelectReturns? && steps[n].EndOfPass?
    requires forall j :: i < j < n ==> !steps[j].SelectReturns? && !steps[j].EndOfPass?
    ensures trace[i].bytes > 0 <==> exists j :: i < j < n && steps[j].PipeEmpty?
    ensures trace[i].bytes == 0 ==> forall j :: i < j < n ==> !steps[j].ReadPipe?
  {
    assert Taken(trace, steps, i) && Taken(trace, steps, n);
    if trace[i].bytes > 0 {
      ReadyPipeIsDrained(trace, steps, i, n + 1);
    } else {
      forall j | i < j < n ensures !steps[j].PipeEmpty? && !steps[j].ReadPipe? {
        NotReadyNotPending(trace, steps, i, j);
        assert Taken(trace, steps, j);
      }
    }
  }
}

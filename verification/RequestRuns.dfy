/**
 * Requests on their way through ril.cpp: the pending list of their slot, the one-in-flight channel queues of proxies
 * 1 and 3, and completion. my_enqueue and the channel part of a completion are single steps.
 */
module RequestRuns {
  import opened PendingRequests

  datatype Slot = Sim1 | Sim2

  datatype Proxy = Proxy1 | Proxy3 | OtherProxy

  /**
   * `ignored`: sent with FMT_IGNORE; `local`: serial -1, answered inside the library; `responds`: its command has a
   * response function.
   */
  datatype Request = Request(
    token: int, slot: Slot, proxy: Proxy, radioPower: bool, ignored: bool, local: bool, responds: bool)

  datatype Key = Key(proxy: Proxy, slot: Slot)

  /** Busy flags, queues, and the onRequest calls made so far for each channel. */
  datatype Queues = Queues(busy: map<Key, bool>, queue: map<Key, seq<Request>>, sent: map<Key, seq<Request>>)

  ghost predicate Total(q: Queues) {
    forall k: Key :: k in q.busy && k in q.queue && k in q.sent
  }

  function KeyOf(r: Request): Key {
    Key(r.proxy, r.slot)
  }

  /** The busy flag that my_enqueue looks at and sets. */
  function BusyKey(r: Request): Key {
    if r.proxy == Proxy1 && r.radioPower then Key(Proxy1, Sim1) else KeyOf(r)
  }

  predicate Channelled(r: Request) {
    r.proxy != OtherProxy && !r.ignored
  }

  ghost function Send(q: Queues, r: Request): Queues
    requires Total(q)
  {
    q.(sent := q.sent[KeyOf(r) := q.sent[KeyOf(r)] + [r]])
  }

  ghost predicate Waits(q: Queues, r: Request)
    requires Total(q)
  {
    Channelled(r) && q.busy[BusyKey(r)]
  }

  /** my_enqueue */
  ghost function Enqueued(q: Queues, r: Request): (q': Queues)
    requires Total(q)
    ensures Total(q')
  {
    if !Channelled(r) then Send(q, r)
    else if q.busy[BusyKey(r)] then q.(queue := q.queue[KeyOf(r) := q.queue[KeyOf(r)] + [r]])
    else Send(q.(busy := q.busy[BusyKey(r) := true]), r)
  }

  /** my_dequeue */
  ghost function Dequeued(q: Queues, k: Key): (q': Queues)
    requires Total(q)
    ensures Total(q')
  {
    if k.proxy == OtherProxy then q
    else if q.queue[k] == [] then q.(busy := q.busy[k := false])
    else Send(q.(queue := q.queue[k := q.queue[k][1..]], busy := q.busy[k := true]), q.queue[k][0])
  }

  datatype Status = Unknown | Added | Queued | Dispatched | Completing | Done

  datatype State = State(
    q: Queues,
    arrivals: map<Key, seq<Request>>,   // what my_enqueue was given, per channel
    finished: map<Key, int>,            // completions, per channel
    pending: map<Slot, seq<Request>>,
    status: map<Request, Status>,
    acked: set<Request>,
    responses: seq<Request>)            // calls of response functions by RIL_onRequestComplete

  datatype Step =
    | Add(r: Request)                         // addRequestToList
    | Enqueue(r: Request)                     // my_enqueue
    | Ack(r: Request)                         // RIL_onRequestAck
    | Complete(r: Request)                    // RIL_onRequestComplete up to the unlinking
    | Finish(r: Request, cancelled: bool)     // its response and its channel part

  ghost predicate Shaped(s: State) {
    && Total(s.q)
    && (forall k: Key :: k in s.arrivals && k in s.finished)
    && (forall slot: Slot :: slot in s.pending)
  }

  ghost function StatusOf(s: State, r: Request): Status {
    if r in s.status then s.status[r] else Unknown
  }

  ghost predicate Sent(s: State, r: Request) {
    StatusOf(s, r).Dispatched? || StatusOf(s, r).Completing? || StatusOf(s, r).Done?
  }

  ghost predicate Enabled(s: State, step: Step) {
    && Shaped(s)
    && match step
       case Add(r) => StatusOf(s, r) == Unknown
       case Enqueue(r) => StatusOf(s, r) == Added
       // the vendor library only knows the tokens it was sent, but may use them again
       case Ack(r) => Sent(s, r)
       case Complete(r) => Sent(s, r)
       case Finish(r, _) => StatusOf(s, r) == Completing
  }

  ghost function IndexOf<T>(list: seq<T>, x: T): (i: nat)
    requires x in list
    ensures i < |list| && list[i] == x
  {
    if list[0] == x then 0 else 1 + IndexOf(list[1..], x)
  }

  ghost function Finished(s: State, r: Request, cancelled: bool): State
    requires Shaped(s)
  {
    var k := KeyOf(r);
    var next := k.proxy != OtherProxy && s.q.queue[k] != [];
    s.(q := Dequeued(s.q, k),
       finished := s.finished[k := s.finished[k] + 1],
       status := if next then s.status[r := Done][s.q.queue[k][0] := Dispatched] else s.status[r := Done],
       responses := if r.local || cancelled || !r.responds then s.responses else s.responses + [r])
  }

  ghost function Do(s: State, step: Step): State
    requires Enabled(s, step)
  {
    match step
    case Add(r) => s.(pending := s.pending[r.slot := [r] + s.pending[r.slot]], status := s.status[r := Added])
    case Enqueue(r) =>
      s.(q := Enqueued(s.q, r),
         arrivals := s.arrivals[KeyOf(r) := s.arrivals[KeyOf(r)] + [r]],
         status := s.status[r := if Waits(s.q, r) then Queued else Dispatched])
    case Ack(r) => if r in s.pending[r.slot] then s.(acked := s.acked + {r}) else s
    case Complete(r) =>
      var list := s.pending[r.slot];
      if r in list
      then s.(pending := s.pending[r.slot := RemoveAt(list, IndexOf(list, r))], status := s.status[r := Completing])
      else s
    case Finish(r, cancelled) => Finished(s, r, cancelled)
  }

  ghost predicate Distinct<T(!new)>(list: seq<T>) {
    forall i, j :: 0 <= i < j < |list| ==> list[i] != list[j]
  }

  lemma RemoveAtMembers<T(!new)>(list: seq<T>, i: nat)
    requires Distinct(list) && i < |list|
    ensures Distinct(RemoveAt(list, i))
    ensures forall x :: x in RemoveAt(list, i) <==> x in list && x != list[i]
  {
  }

  // ---- what every run keeps ----

  ghost predicate QueueOk(s: State, k: Key)
    requires Shaped(s)
  {
    && Distinct(s.q.queue[k])
    && forall r :: r in s.q.queue[k] ==> StatusOf(s, r) == Queued && KeyOf(r) == k
  }

  /** Not completed yet. */
  ghost predicate Open(s: State, r: Request) {
    StatusOf(s, r).Added? || StatusOf(s, r).Queued? || StatusOf(s, r).Dispatched?
  }

  /** The pending list of a slot holds exactly the slot's requests that were not completed, once each. */
  ghost predicate PendingOk(s: State, slot: Slot)
    requires Shaped(s)
  {
    && Distinct(s.pending[slot])
    && forall r :: r in s.pending[slot] <==> Open(s, r) && r.slot == slot
  }

  ghost predicate ResponsesOk(s: State) {
    Distinct(s.responses) && forall r :: r in s.responses ==> StatusOf(s, r) == Done
  }

  ghost predicate Inv(s: State) {
    && Shaped(s)
    && (forall k: Key :: QueueOk(s, k))
    && (forall slot: Slot :: PendingOk(s, slot))
    && ResponsesOk(s)
  }

  /** How a finished request changes the states of requests: it is done, and the head of its queue is dispatched. */
  lemma FinishedStatus(s: State, r: Request, cancelled: bool)
    requires Shaped(s) && QueueOk(s, KeyOf(r)) && StatusOf(s, r) == Completing
    ensures var s', k := Finished(s, r, cancelled), KeyOf(r);
      && Shaped(s') && StatusOf(s', r) == Done
      && (k.proxy != OtherProxy && s.q.queue[k] != [] ==>
            var head := s.q.queue[k][0];
            StatusOf(s, head) == Queued && StatusOf(s', head) == Dispatched && head.slot == r.slot && KeyOf(head) == k)
      && (forall x :: x != r && StatusOf(s', x) != StatusOf(s, x) ==>
            StatusOf(s, x) == Queued && StatusOf(s', x) == Dispatched)
  {
  }

  ghost predicate SameBut(s: State, s': State, r: Request) {
    forall x :: x != r ==> StatusOf(s', x) == StatusOf(s, x)
  }

  /** What the other steps change: the state of their own request, and its pending list. */
  lemma StepStatus(s: State, step: Step)
    requires Enabled(s, step) && !step.Finish?
    ensures var s', r := Do(s, step), step.r;
      && Shaped(s') && SameBut(s, s', r) && s'.responses == s.responses
      && (step.Add? ==> StatusOf(s', r) == Added && s'.pending == s.pending[r.slot := [r] + s.pending[r.slot]])
      && (step.Enqueue? ==> s'.pending == s.pending)
      && (step.Enqueue? ==> StatusOf(s', r) == if Waits(s.q, r) then Queued else Dispatched)
      && (step.Ack? || (step.Complete? && r !in s.pending[r.slot]) ==> s'.status == s.status && s'.pending == s.pending)
      && (step.Complete? && r in s.pending[r.slot] ==>
            var list := s.pending[r.slot];
            StatusOf(s', r) == Completing && s'.pending == s.pending[r.slot := RemoveAt(list, IndexOf(list, r))])
  {
  }

  lemma StepKeepsPending(s: State, step: Step, slot: Slot)
    requires Inv(s) && Enabled(s, step) && Shaped(Do(s, step))
    ensures PendingOk(Do(s, step), slot)
  {
    assert PendingOk(s, slot);
    if step.Finish? {
      assert QueueOk(s, KeyOf(step.r));
      FinishKeepsPending(s, step.r, step.cancelled, slot);
    } else {
      StepStatus(s, step);
      if step.Complete? && step.r in s.pending[step.r.slot] && step.r.slot == slot {
        RemoveAtMembers(s.pending[slot], IndexOf(s.pending[slot], step.r));
      }
      hide Do, StatusOf, Inv, RemoveAt, IndexOf, Shaped;
    }
  }

  lemma FinishKeepsPending(s: State, r: Request, cancelled: bool, slot: Slot)
    requires Shaped(s) && QueueOk(s, KeyOf(r)) && PendingOk(s, slot) && StatusOf(s, r) == Completing
    ensures Shaped(Finished(s, r, cancelled)) && PendingOk(Finished(s, r, cancelled), slot)
  {
  }

  lemma StepKeepsQueue(s: State, step: Step, k: Key)
    requires Inv(s) && Enabled(s, step) && Shaped(Do(s, step))
    ensures QueueOk(Do(s, step), k)
  {
    assert QueueOk(s, k);
    if step.Finish? {
      assert QueueOk(s, KeyOf(step.r));
      FinishKeepsQueue(s, step.r, step.cancelled, k);
    } else if step.Complete? {
      assert PendingOk(s, step.r.slot);
      StepStatus(s, step);
      assert step.r in s.pending[step.r.slot] ==> StatusOf(s, step.r) == Dispatched;
      hide StatusOf, PendingOk;
    } else {
      StepStatus(s, step);
      hide StatusOf;
    }
  }

  lemma FinishKeepsQueue(s: State, r: Request, cancelled: bool, k: Key)
    requires Shaped(s) && QueueOk(s, KeyOf(r)) && QueueOk(s, k) && StatusOf(s, r) == Completing
    ensures Shaped(Finished(s, r, cancelled)) && QueueOk(Finished(s, r, cancelled), k)
  {
    FinishedStatus(s, r, cancelled);
    var queue := s.q.queue[KeyOf(r)];
    assert queue != [] ==> queue[0] in queue && queue[0] !in queue[1..];
  }

  lemma StepKeepsResponses(s: State, step: Step)
    requires Inv(s) && Enabled(s, step)
    ensures ResponsesOk(Do(s, step))
  {
    if step.Finish? {
      assert QueueOk(s, KeyOf(step.r));
      FinishKeepsResponses(s, step.r, step.cancelled);
    } else {
      assert PendingOk(s, step.r.slot);
      StepStatus(s, step);
      assert StatusOf(Do(s, step), step.r) != StatusOf(s, step.r) ==> StatusOf(s, step.r) != Done;
      hide Do, StatusOf;
    }
  }

  lemma FinishKeepsResponses(s: State, r: Request, cancelled: bool)
    requires Shaped(s) && QueueOk(s, KeyOf(r)) && ResponsesOk(s) && StatusOf(s, r) == Completing
    ensures ResponsesOk(Finished(s, r, cancelled))
  {
  }

  lemma StepKeepsShape(s: State, step: Step)
    requires Enabled(s, step)
    ensures Shaped(Do(s, step))
  {
  }

  lemma StepKeepsInv(s: State, step: Step)
    requires Inv(s) && Enabled(s, step)
    ensures Inv(Do(s, step))
  {
    var s' := Do(s, step);
    StepKeepsShape(s, step);
    forall k: Key ensures QueueOk(s', k) { StepKeepsQueue(s, step, k); }
    forall slot: Slot ensures PendingOk(s', slot) { StepKeepsPending(s, step, slot); }
    StepKeepsResponses(s, step);
    hide Do, QueueOk, PendingOk, ResponsesOk;
  }

  ghost predicate Init(s: State) {
    && Shaped(s)
    && (forall k: Key :: !s.q.busy[k] && s.q.queue[k] == [] && s.q.sent[k] == [])
    && (forall k: Key :: s.arrivals[k] == [] && s.finished[k] == 0)
    && (forall slot: Slot :: s.pending[slot] == [])
    && s.status == map[] && s.acked == {} && s.responses == []
  }

  ghost predicate Taken(trace: seq<State>, steps: seq<Step>, i: nat)
    requires i < |steps| && |trace| == |steps| + 1
  {
    Enabled(trace[i], steps[i]) && trace[i + 1] == Do(trace[i], steps[i])
  }

  ghost predicate Run(trace: seq<State>, steps: seq<Step>) {
    && |trace| == |steps| + 1
    && Init(trace[0])
    && forall i :: 0 <= i < |steps| ==> Taken(trace, steps, i)
  }

  lemma InitHolds(s: State)
    requires Init(s)
    ensures Inv(s) && Serial(s)
  {
  }

  lemma {:induction false} RunKeepsInv(trace: seq<State>, steps: seq<Step>, n: nat)
    requires Run(trace, steps) && n < |trace|
    ensures Inv(trace[n])
  {
    hide Inv, Do, Init;
    if n == 0 {
      InitHolds(trace[0]);
    } else {
      RunKeepsInv(trace, steps, n - 1);
      assert Taken(trace, steps, n - 1);
      StepKeepsInv(trace[n - 1], steps[n - 1]);
    }
  }

  /** In every run a queued or dispatched request is on its own slot's pending list, once, and on no other. */
  lemma OnItsPendingList(trace: seq<State>, steps: seq<Step>, n: nat, r: Request, slot: Slot)
    requires Run(trace, steps) && n < |trace| && (StatusOf(trace[n], r).Queued? || StatusOf(trace[n], r).Dispatched?)
    ensures Shaped(trace[n]) && (r in trace[n].pending[slot] <==> slot == r.slot)
    ensures multiset(trace[n].pending[r.slot])[r] == 1
  {
    RunKeepsInv(trace, steps, n);
    assert PendingOk(trace[n], slot) && PendingOk(trace[n], r.slot);
    DistinctOnce(trace[n].pending[r.slot], r);
  }

  lemma {:induction false} DistinctOnce<T(!new)>(list: seq<T>, x: T)
    requires Distinct(list) && x in list
    ensures multiset(list)[x] == 1
  {
    assert list == [list[0]] + list[1..];
    if x == list[0] {
      assert x !in list[1..] && x !in multiset(list[1..]);
    } else {
      DistinctOnce(list[1..], x);
    }
  }

  /** In every run no request is answered twice, however often its token is completed. */
  lemma AtMostOneResponse(trace: seq<State>, steps: seq<Step>, n: nat, i: nat, j: nat)
    requires Run(trace, steps) && n < |trace| && i < j < |trace[n].responses|
    ensures trace[n].responses[i] != trace[n].responses[j]
  {
    RunKeepsInv(trace, steps, n);
  }

  /** A request goes through its states in this order. */
  ghost function Progress(s: State, r: Request): nat {
    match StatusOf(s, r)
    case Unknown => 0
    case Added => 1
    case Queued => 2
    case Dispatched => 3
    case Completing => 4
    case Done => 5
  }

  lemma StepProgress(s: State, step: Step, r: Request)
    requires Inv(s) && Enabled(s, step)
    ensures Progress(s, r) <= Progress(Do(s, step), r)
  {
    if step.Finish? {
      assert QueueOk(s, KeyOf(step.r));
      FinishedStatus(s, step.r, step.cancelled);
    } else {
      assert PendingOk(s, step.r.slot);
      StepStatus(s, step);
    }
    hide Do, StatusOf;
  }

  lemma {:induction false} RunProgress(trace: seq<State>, steps: seq<Step>, m: nat, n: nat, r: Request)
    requires Run(trace, steps) && m <= n < |trace|
    ensures Progress(trace[m], r) <= Progress(trace[n], r)
  {
    hide Progress, Do;
    if m < n {
      RunProgress(trace, steps, m, n - 1, r);
      RunKeepsInv(trace, steps, n - 1);
      assert Taken(trace, steps, n - 1);
      StepProgress(trace[n - 1], steps[n - 1], r);
    }
  }

  /** A completion whose token is on the pending list: the source calls any other one invalid. */
  ghost predicate Accepted(trace: seq<State>, steps: seq<Step>, i: nat, r: Request) {
    && i < |steps| && i < |trace| && Shaped(trace[i])
    && steps[i] == Complete(r) && r in trace[i].pending[r.slot]
  }

  /** In every run the first completion of a request is accepted, and every later one changes nothing. */
  lemma OnlyFirstCompletion(trace: seq<State>, steps: seq<Step>, i: nat, r: Request)
    requires Run(trace, steps) && i < |steps| && steps[i] == Complete(r)
    ensures Accepted(trace, steps, i, r) <==> forall j :: 0 <= j < i ==> steps[j] != Complete(r)
    ensures !Accepted(trace, steps, i, r) ==> trace[i + 1] == trace[i]
  {
    RunKeepsInv(trace, steps, i);
    assert Taken(trace, steps, i) && PendingOk(trace[i], r.slot);
    if j :| 0 <= j < i && steps[j] == Complete(r) {
      assert Taken(trace, steps, j);
      RunKeepsInv(trace, steps, j);
      assert PendingOk(trace[j], r.slot);
      StepStatus(trace[j], steps[j]);
      assert Progress(trace[j + 1], r) >= 4;
      RunProgress(trace, steps, j + 1, i, r);
    } else {
      NotCompletedYet(trace, steps, i, r);
    }
  }

  lemma {:induction false} NotCompletedYet(trace: seq<State>, steps: seq<Step>, n: nat, r: Request)
    requires Run(trace, steps) && n < |trace| && forall j :: 0 <= j < n ==> steps[j] != Complete(r)
    ensures Progress(trace[n], r) <= 3
  {
    if n > 0 {
      NotCompletedYet(trace, steps, n - 1, r);
      RunKeepsInv(trace, steps, n - 1);
      assert Taken(trace, steps, n - 1);
      NotCompletedByStep(trace[n - 1], steps[n - 1], r);
    }
  }

  lemma NotCompletedByStep(s: State, step: Step, r: Request)
    requires Inv(s) && Enabled(s, step) && Progress(s, r) <= 3 && step != Complete(r)
    ensures Progress(Do(s, step), r) <= 3
  {
    if step.Finish? {
      assert QueueOk(s, KeyOf(step.r));
      FinishedStatus(s, step.r, step.cancelled);
    } else {
      StepStatus(s, step);
    }
    hide Do;
  }

  lemma FinishProgress(trace: seq<State>, steps: seq<Step>, n: nat, r: Request)
    requires Run(trace, steps) && n < |steps| && steps[n].Finish? && steps[n].r == r
    ensures Progress(trace[n], r) == 4 && Progress(trace[n + 1], r) == 5
  {
    assert Taken(trace, steps, n);
    RunKeepsInv(trace, steps, n);
    assert QueueOk(trace[n], KeyOf(r));
    FinishedStatus(trace[n], r, steps[n].cancelled);
  }

  lemma OneFinish(trace: seq<State>, steps: seq<Step>, m: nat, n: nat, r: Request)
    requires Run(trace, steps) && m <= n < |steps|
    requires steps[m].Finish? && steps[m].r == r && steps[n].Finish? && steps[n].r == r
    ensures m == n
  {
    hide Progress, Taken, Init;
    FinishProgress(trace, steps, m, r);
    FinishProgress(trace, steps, n, r);
    if m < n {
      RunProgress(trace, steps, m + 1, n, r);
    }
  }

  /** In every run a request finishes at most once, and only behind its accepted completion. */
  lemma FinishesOnce(trace: seq<State>, steps: seq<Step>, n: nat, r: Request) returns (i: nat)
    requires Run(trace, steps) && n < |steps| && steps[n].Finish? && steps[n].r == r
    ensures i < n && Accepted(trace, steps, i, r)
    ensures forall j :: 0 <= j < |steps| && steps[j].Finish? && steps[j].r == r ==> j == n
  {
    hide Progress, Accepted;
    FinishProgress(trace, steps, n, r);
    if forall j :: 0 <= j < n ==> steps[j] != Complete(r) {
      NotCompletedYet(trace, steps, n, r);
      assert false;
    }
    i := FirstCompletion(steps, n, r);
    OnlyFirstCompletion(trace, steps, i, r);
    forall j | 0 <= j < |steps| && steps[j].Finish? && steps[j].r == r ensures j == n {
      if j <= n { OneFinish(trace, steps, j, n, r); } else { OneFinish(trace, steps, n, j, r); }
    }
  }

  lemma {:induction false} FirstCompletion(steps: seq<Step>, n: nat, r: Request) returns (i: nat)
    requires n <= |steps| && exists j :: 0 <= j < n && steps[j] == Complete(r)
    ensures i < n && steps[i] == Complete(r) && forall j :: 0 <= j < i ==> steps[j] != Complete(r)
  {
    i := n - 1;
    if exists j :: 0 <= j < n - 1 && steps[j] == Complete(r) {
      i := FirstCompletion(steps, n - 1, r);
    }
  }

  ghost predicate FinishedBy(steps: seq<Step>, n: nat, r: Request) {
    exists i :: 0 <= i < n && i < |steps| && steps[i] == Finish(r, false)
  }

  /**
   * In every run a request has been answered once if it finished uncancelled, is not local and has a response
   * function, and not at all otherwise.
   */
  lemma AnsweredIff(trace: seq<State>, steps: seq<Step>, n: nat, r: Request)
    requires Run(trace, steps) && n < |trace|
    ensures multiset(trace[n].responses)[r] == if !r.local && r.responds && FinishedBy(steps, n, r) then 1 else 0
  {
    AnsweredAtAll(trace, steps, n, r);
    RunKeepsInv(trace, steps, n);
    if r in trace[n].responses {
      DistinctOnce(trace[n].responses, r);
    } else {
      assert r !in multiset(trace[n].responses);
    }
  }

  lemma {:induction false} AnsweredAtAll(trace: seq<State>, steps: seq<Step>, n: nat, r: Request)
    requires Run(trace, steps) && n < |trace|
    ensures r in trace[n].responses <==> !r.local && r.responds && FinishedBy(steps, n, r)
  {
    if n > 0 {
      AnsweredAtAll(trace, steps, n - 1, r);
      assert Taken(trace, steps, n - 1);
    }
  }

  // ---- every request reaches the vendor library, careful or not ----

  /** onRequest was called once for each request that left its queue, and for nothing else; the others wait. */
  ghost predicate CallsAt(s: State, k: Key)
    requires Shaped(s)
  {
    && Distinct(s.q.sent[k])
    && (forall r :: r in s.q.sent[k] <==> Sent(s, r) && KeyOf(r) == k)
    && (forall r :: StatusOf(s, r).Queued? && KeyOf(r) == k ==> r in s.q.queue[k])
    && (k.proxy == OtherProxy ==> s.q.queue[k] == [] && s.q.sent[k] == s.arrivals[k])
  }

  lemma EnqueueCalls(s: State, r: Request, k: Key)
    requires Inv(s) && CallsAt(s, k) && Enabled(s, Enqueue(r)) && Shaped(Do(s, Enqueue(r)))
    ensures CallsAt(Do(s, Enqueue(r)), k)
  {
    var s' := Do(s, Enqueue(r));
    StepStatus(s, Enqueue(r));
    assert r !in s.q.sent[k];
    assert KeyOf(r) != k ==> s'.q.sent[k] == s.q.sent[k] && s'.q.queue[k] == s.q.queue[k];
    assert KeyOf(r) == k ==> if Waits(s.q, r)
      then s'.q.sent[k] == s.q.sent[k] && s'.q.queue[k] == s.q.queue[k] + [r]
      else s'.q.sent[k] == s.q.sent[k] + [r] && s'.q.queue[k] == s.q.queue[k];
    assert k.proxy == OtherProxy && KeyOf(r) == k ==> !Waits(s.q, r);
    hide Do, StatusOf, Inv, Waits;
  }

  /** A completion dispatches the head of the queue. */
  lemma HeadCalled(s: State, s': State, k: Key, r: Request, head: Request)
    requires Shaped(s) && Shaped(s') && CallsAt(s, k) && k.proxy != OtherProxy
    requires s.q.queue[k] == [head] + s'.q.queue[k] && s'.q.sent[k] == s.q.sent[k] + [head]
    requires StatusOf(s, r) == Completing && StatusOf(s', r) == Done
    requires StatusOf(s, head) == Queued && StatusOf(s', head) == Dispatched && KeyOf(head) == k
    requires forall x :: x != r && x != head ==> StatusOf(s', x) == StatusOf(s, x)
    ensures CallsAt(s', k)
  {
    assert head !in s.q.sent[k];
    hide StatusOf, Shaped;
  }

  lemma NoneCalled(s: State, s': State, k: Key, r: Request)
    requires Shaped(s) && Shaped(s') && CallsAt(s, k)
    requires s'.q.queue[k] == s.q.queue[k] && s'.q.sent[k] == s.q.sent[k] && s'.arrivals == s.arrivals
    requires StatusOf(s, r) == Completing && StatusOf(s', r) == Done
    requires forall x :: KeyOf(x) == k && x != r ==> StatusOf(s', x) == StatusOf(s, x)
    ensures CallsAt(s', k)
  {
    hide StatusOf, Shaped;
  }

  lemma FinishCalls(s: State, r: Request, cancelled: bool, k: Key)
    requires Shaped(s) && QueueOk(s, KeyOf(r)) && CallsAt(s, k) && StatusOf(s, r) == Completing
    requires Shaped(Finished(s, r, cancelled))
    ensures CallsAt(Finished(s, r, cancelled), k)
  {
    hide CallsAt;
    var s', queue := Finished(s, r, cancelled), s.q.queue[KeyOf(r)];
    FinishedStatus(s, r, cancelled);
    if KeyOf(r) == k && k.proxy != OtherProxy && queue != [] {
      HeadCalled(s, s', k, r, queue[0]);
    } else {
      NoneCalled(s, s', k, r);
    }
  }

  lemma StepCalls(s: State, step: Step, k: Key)
    requires Inv(s) && CallsAt(s, k) && Enabled(s, step)
    ensures Shaped(Do(s, step)) && CallsAt(Do(s, step), k)
  {
    StepKeepsShape(s, step);
    if step.Finish? {
      assert QueueOk(s, KeyOf(step.r));
      FinishCalls(s, step.r, step.cancelled, k);
    } else if step.Enqueue? {
      EnqueueCalls(s, step.r, k);
    } else {
      assert PendingOk(s, step.r.slot);
      StepStatus(s, step);
      assert Do(s, step).q == s.q && Do(s, step).arrivals == s.arrivals;
      hide Do, StatusOf;
    }
  }

  /**
   * In every run onRequest has been called exactly once for every request that is dispatched or further on, a queued
   * request is in its channel's queue, and off proxies 1 and 3 the calls are the arrivals, in order.
   */
  lemma {:induction false} CalledOnce(trace: seq<State>, steps: seq<Step>, n: nat, k: Key)
    requires Run(trace, steps) && n < |trace|
    ensures Shaped(trace[n]) && CallsAt(trace[n], k)
  {
    if n > 0 {
      CalledOnce(trace, steps, n - 1, k);
      RunKeepsInv(trace, steps, n - 1);
      assert Taken(trace, steps, n - 1);
      hide Run, CallsAt, Do, Inv, Enabled;
      StepCalls(trace[n - 1], steps[n - 1], k);
    }
  }

  /** The requests given to my_enqueue for a channel. */
  ghost function Given(steps: seq<Step>, k: Key): seq<Request> {
    if steps == [] then []
    else
      var rest, last := Given(steps[..|steps| - 1], k), steps[|steps| - 1];
      if last.Enqueue? && KeyOf(last.r) == k then rest + [last.r] else rest
  }

  ghost function Completions(steps: seq<Step>, k: Key): nat {
    if steps == [] then 0
    else
      var last := steps[|steps| - 1];
      Completions(steps[..|steps| - 1], k) + if last.Finish? && KeyOf(last.r) == k then 1 else 0
  }

  /** An ack that came while its request was on the pending list. */
  ghost predicate AckedAt(trace: seq<State>, steps: seq<Step>, i: nat, r: Request) {
    i < |steps| && i < |trace| && steps[i] == Ack(r) && r.slot in trace[i].pending && r in trace[i].pending[r.slot]
  }

  /** In every run arrivals and completions are those that the steps made. */
  lemma {:induction false} HistoriesAre(trace: seq<State>, steps: seq<Step>, n: nat, k: Key)
    requires Run(trace, steps) && n < |trace|
    ensures Shaped(trace[n])
    ensures trace[n].arrivals[k] == Given(steps[..n], k) && trace[n].finished[k] == Completions(steps[..n], k)
  {
    if n > 0 {
      HistoriesAre(trace, steps, n - 1, k);
      assert Taken(trace, steps, n - 1);
      assert steps[..n][..n - 1] == steps[..n - 1];
      StepKeepsShape(trace[n - 1], steps[n - 1]);
    }
  }

  /** In every run the marked requests are those acked while pending. */
  lemma {:induction false} AckedIff(trace: seq<State>, steps: seq<Step>, n: nat, r: Request)
    requires Run(trace, steps) && n < |trace|
    ensures r in trace[n].acked <==> exists i: nat :: i < n && AckedAt(trace, steps, i, r)
  {
    if n > 0 {
      AckedIff(trace, steps, n - 1, r);
      assert Taken(trace, steps, n - 1);
      var s := trace[n - 1];
      assert r in trace[n].acked <==> r in s.acked || AckedAt(trace, steps, n - 1, r);
    }
  }

  // ---- serialisation ----

  /** How a step changes a pending list: a request is put in front, or one is taken out, or it stays. */
  lemma StepPending(s: State, step: Step, slot: Slot)
    requires Enabled(s, step)
    ensures var list, list' := s.pending[slot], Do(s, step).pending[slot];
      if step.Add? && step.r.slot == slot then list' == [step.r] + list
      else list' == list || exists k :: 0 <= k < |list| && list' == RemoveAt(list, k)
  {
    if step.Complete? && step.r.slot == slot && step.r in s.pending[slot] {
      var k := IndexOf(s.pending[slot], step.r);
      assert Do(s, step).pending[slot] == RemoveAt(s.pending[slot], k);
    }
  }

  lemma ListedBefore(trace: seq<State>, steps: seq<Step>, n: nat, slot: Slot) returns (m: nat)
    requires Run(trace, steps) && n < |trace| && Shaped(trace[n]) && trace[n].pending[slot] != []
    ensures m + 1 == n && |trace| == |steps| + 1 && Shaped(trace[m])
    ensures slot in trace[m].pending && slot in trace[n].pending
    ensures var list, list' := trace[m].pending[slot], trace[n].pending[slot];
      if steps[m].Add? && steps[m].r.slot == slot then list' == [steps[m].r] + list
      else list' == list || exists k :: 0 <= k < |list| && list' == RemoveAt(list, k)
  {
    m := n - 1;
    assert Taken(trace, steps, m);
    StepPending(trace[m], steps[m], slot);
  }

  /** In every run the pending list has the requests in the reverse order of their addition. */
  lemma {:induction false} PendingNewestFirst(
      trace: seq<State>, steps: seq<Step>, n: nat, slot: Slot, i: nat, j: nat) returns (a: nat, b: nat)
    requires Run(trace, steps) && n < |trace| && Shaped(trace[n]) && i <= j < |trace[n].pending[slot]|
    ensures b <= a < n && (i < j ==> b < a)
    ensures steps[a] == Add(trace[n].pending[slot][i]) && steps[b] == Add(trace[n].pending[slot][j])
    decreases n
  {
    hide Run, Shaped, RemoveAt;
    var m := ListedBefore(trace, steps, n, slot);
    var list, list', step := trace[m].pending[slot], trace[n].pending[slot], steps[m];
    if step.Add? && step.r.slot == slot {
      if j == 0 {
        a, b := m, m;
      } else {
        a, b := PendingNewestFirst(trace, steps, m, slot, if i == 0 then j - 1 else i - 1, j - 1);
        a := if i == 0 then m else a;
      }
    } else if list' == list {
      a, b := PendingNewestFirst(trace, steps, m, slot, i, j);
    } else {
      var k :| 0 <= k < |list| && list' == RemoveAt(list, k);
      a, b := PendingNewestFirst(trace, steps, m, slot, if i < k then i else i + 1, if j < k then j else j + 1);
    }
  }

  ghost predicate InFlight(s: State, k: Key, r: Request) {
    KeyOf(r) == k && (StatusOf(s, r).Dispatched? || StatusOf(s, r).Completing?)
  }

  /** What was sent and what waits, in order, is what arrived. */
  ghost predicate InLine(s: State, k: Key)
    requires Shaped(s)
  {
    && s.q.sent[k] + s.q.queue[k] == s.arrivals[k]
    && (s.q.queue[k] != [] ==> s.q.busy[k])
    && |s.q.sent[k]| == s.finished[k] + (if s.q.busy[k] then 1 else 0)
    && s.finished[k] >= 0
    && Distinct(s.arrivals[k])
  }

  /** While the channel is busy the last request sent, and no other, is in flight. */
  ghost predicate LastInFlight(s: State, k: Key)
    requires Shaped(s) && InLine(s, k)
  {
    forall r :: InFlight(s, k, r) <==> s.q.busy[k] && r == s.q.sent[k][|s.q.sent[k]| - 1]
  }

  ghost predicate Arrived(s: State, k: Key)
    requires Shaped(s)
  {
    forall r :: r in s.arrivals[k] ==> KeyOf(r) == k && (Sent(s, r) || StatusOf(s, r).Queued?)
  }

  ghost predicate SerialAt(s: State, k: Key)
    requires Shaped(s)
  {
    InLine(s, k) && LastInFlight(s, k) && Arrived(s, k)
  }

  ghost predicate Serial(s: State) {
    Shaped(s) && forall k: Key :: k.proxy != OtherProxy ==> SerialAt(s, k)
  }

  /** No FMT_IGNORE on proxies 1 and 3; radio power on the second slot only while both slots' channel 1 is busy. */
  ghost predicate Careful(s: State, step: Step)
    requires Shaped(s)
  {
    step.Enqueue? && step.r.proxy != OtherProxy ==>
      && !step.r.ignored
      && (BusyKey(step.r) != KeyOf(step.r) ==> s.q.busy[BusyKey(step.r)] && s.q.busy[KeyOf(step.r)])
  }

  lemma EnqueueKeepsSerial(s: State, r: Request, k: Key)
    requires Inv(s) && Serial(s) && Enabled(s, Enqueue(r)) && Careful(s, Enqueue(r)) && k.proxy != OtherProxy
    ensures Shaped(Do(s, Enqueue(r))) && SerialAt(Do(s, Enqueue(r)), k)
  {
    StepStatus(s, Enqueue(r));
    assert SerialAt(s, k);
    if KeyOf(r) == k {
      EnqueueHere(s, r);
    } else {
      EnqueueElsewhere(s, r, k);
    }
  }

  /** A step that leaves a channel and the states of its requests alone keeps it serial. */
  lemma ChannelUntouched(s: State, s': State, k: Key)
    requires Shaped(s) && Shaped(s') && SerialAt(s, k)
    requires s'.q.busy[k] == s.q.busy[k] && s'.q.queue[k] == s.q.queue[k] && s'.q.sent[k] == s.q.sent[k]
    requires s'.arrivals[k] == s.arrivals[k] && s'.finished[k] == s.finished[k]
    requires forall x :: KeyOf(x) == k ==> StatusOf(s', x) == StatusOf(s, x)
    ensures SerialAt(s', k)
  {
    hide StatusOf;
    assert forall x :: InFlight(s', k, x) <==> InFlight(s, k, x);
  }

  lemma EnqueueElsewhere(s: State, r: Request, k: Key)
    requires Shaped(s) && SerialAt(s, k) && Enabled(s, Enqueue(r)) && Careful(s, Enqueue(r))
    requires KeyOf(r) != k && k.proxy != OtherProxy && Shaped(Do(s, Enqueue(r)))
    ensures SerialAt(Do(s, Enqueue(r)), k)
  {
    hide SerialAt;
    StepStatus(s, Enqueue(r));
    assert BusyKey(r) == k ==> s.q.busy[k];
    ChannelUntouched(s, Do(s, Enqueue(r)), k);
  }

  /** The channel of an enqueued request, whether it is sent or has to wait. */
  lemma EnqueueChannel(s: State, r: Request)
    requires Enabled(s, Enqueue(r)) && Careful(s, Enqueue(r)) && r.proxy != OtherProxy
    ensures var s', k := Do(s, Enqueue(r)), KeyOf(r);
      && Shaped(s') && s'.finished == s.finished && s'.arrivals[k] == s.arrivals[k] + [r]
      && s'.q.busy[k] && (Waits(s.q, r) <==> s.q.busy[k])
      && s'.q.queue[k] == (if s.q.busy[k] then s.q.queue[k] + [r] else s.q.queue[k])
      && s'.q.sent[k] == (if s.q.busy[k] then s.q.sent[k] else s.q.sent[k] + [r])
  {
  }

  /** A request that is sent on a free channel, or waits for a busy one, keeps the channel serial. */
  lemma ArrivalKeepsSerial(s: State, s': State, r: Request)
    requires Shaped(s) && Shaped(s') && SerialAt(s, KeyOf(r)) && StatusOf(s, r) == Added && SameBut(s, s', r)
    requires var k := KeyOf(r);
      && s'.finished == s.finished && s'.arrivals[k] == s.arrivals[k] + [r] && s'.q.busy[k]
      && StatusOf(s', r) == (if s.q.busy[k] then Queued else Dispatched)
      && s'.q.queue[k] == (if s.q.busy[k] then s.q.queue[k] + [r] else s.q.queue[k])
      && s'.q.sent[k] == (if s.q.busy[k] then s.q.sent[k] else s.q.sent[k] + [r])
    ensures SerialAt(s', KeyOf(r))
  {
    var k := KeyOf(r);
    assert r !in s.arrivals[k];
    assert s'.q.sent[k] + s'.q.queue[k] == s'.arrivals[k];
    assert InLine(s', k);
    hide StatusOf;
    assert forall x :: x != r ==> (InFlight(s', k, x) <==> InFlight(s, k, x));
  }

  lemma EnqueueHere(s: State, r: Request)
    requires Shaped(s) && SerialAt(s, KeyOf(r)) && Enabled(s, Enqueue(r)) && Careful(s, Enqueue(r))
    requires r.proxy != OtherProxy
    ensures Shaped(Do(s, Enqueue(r))) && SerialAt(Do(s, Enqueue(r)), KeyOf(r))
  {
    StepStatus(s, Enqueue(r));
    EnqueueChannel(s, r);
    hide Do, SerialAt;
    ArrivalKeepsSerial(s, Do(s, Enqueue(r)), r);
  }

  lemma FinishKeepsSerial(s: State, r: Request, cancelled: bool, k: Key)
    requires Inv(s) && Serial(s) && Enabled(s, Finish(r, cancelled)) && k.proxy != OtherProxy
    ensures Shaped(Finished(s, r, cancelled)) && SerialAt(Finished(s, r, cancelled), k)
  {
    assert SerialAt(s, k) && QueueOk(s, KeyOf(r));
    FinishedStatus(s, r, cancelled);
    hide SerialAt, QueueOk, Finished;
    if KeyOf(r) == k {
      FinishHere(s, r, cancelled);
    } else {
      FinishElsewhere(s, r, cancelled, k);
    }
  }

  lemma FinishElsewhere(s: State, r: Request, cancelled: bool, k: Key)
    requires Shaped(s) && SerialAt(s, k) && QueueOk(s, KeyOf(r)) && StatusOf(s, r) == Completing
    requires KeyOf(r) != k && Shaped(Finished(s, r, cancelled))
    ensures SerialAt(Finished(s, r, cancelled), k)
  {
    hide SerialAt;
    FinishedStatus(s, r, cancelled);
    ChannelUntouched(s, Finished(s, r, cancelled), k);
  }

  lemma FinishHere(s: State, r: Request, cancelled: bool)
    requires Shaped(s) && SerialAt(s, KeyOf(r)) && QueueOk(s, KeyOf(r)) && StatusOf(s, r) == Completing
    requires r.proxy != OtherProxy && Shaped(Finished(s, r, cancelled))
    ensures SerialAt(Finished(s, r, cancelled), KeyOf(r))
  {
    var k, s' := KeyOf(r), Finished(s, r, cancelled);
    FinishedStatus(s, r, cancelled);
    assert InFlight(s, k, r);
    assert s'.q.sent[k] + s'.q.queue[k] == s.arrivals[k];
    var queue := s.q.queue[k];
    assert forall x :: x != r && (queue != [] ==> x != queue[0]) ==> StatusOf(s', x) == StatusOf(s, x);
    forall x ensures InFlight(s', k, x) <==> s'.q.busy[k] && x == s'.q.sent[k][|s'.q.sent[k]| - 1] {
      assert InFlight(s, k, x) <==> x == r;
    }
  }

  lemma CarefulKeepsSerial(s: State, step: Step)
    requires Inv(s) && Serial(s) && Enabled(s, step) && Careful(s, step)
    ensures Serial(Do(s, step))
  {
    var s' := Do(s, step);
    StepKeepsShape(s, step);
    forall k: Key | k.proxy != OtherProxy ensures SerialAt(s', k) {
      assert SerialAt(s, k);
      match step {
        case Enqueue(r) => EnqueueKeepsSerial(s, r, k);
        case Finish(r, cancelled) => FinishKeepsSerial(s, r, cancelled, k);
        case _ => OthersKeepSerial(s, step, k);
      }
    }
    hide Do, SerialAt;
  }

  lemma OthersKeepSerial(s: State, step: Step, k: Key)
    requires Shaped(s) && SerialAt(s, k) && Enabled(s, step) && !step.Enqueue? && !step.Finish?
    requires Inv(s) && Shaped(Do(s, step))
    ensures SerialAt(Do(s, step), k)
  {
    var r, s' := step.r, Do(s, step);
    assert PendingOk(s, r.slot);
    StepStatus(s, step);
    assert s'.q == s.q && s'.arrivals == s.arrivals && s'.finished == s.finished;
    assert StatusOf(s', r) == StatusOf(s, r) ||
      (StatusOf(s, r).Unknown? && StatusOf(s', r).Added?) ||
      (StatusOf(s, r).Dispatched? && StatusOf(s', r).Completing?);
    hide Do, StatusOf, Inv, PendingOk, Shaped;
    assert forall x :: InFlight(s', k, x) <==> InFlight(s, k, x);
  }

  /** Exactly the careful steps keep the channels serial. */
  lemma SerialIffCareful(s: State, step: Step)
    requires Inv(s) && Serial(s) && Enabled(s, step)
    ensures Serial(Do(s, step)) <==> Careful(s, step)
  {
    if Careful(s, step) {
      CarefulKeepsSerial(s, step);
    } else {
      StepKeepsShape(s, step);
      CarelessBreaksSerial(s, step.r);
    }
  }

  lemma CarelessBreaksSerial(s: State, r: Request)
    requires Serial(s) && Enabled(s, Enqueue(r)) && !Careful(s, Enqueue(r)) && Shaped(Do(s, Enqueue(r)))
    ensures !SerialAt(Do(s, Enqueue(r)), KeyOf(r)) || !SerialAt(Do(s, Enqueue(r)), BusyKey(r))
  {
  }

  /** Either exclusion is needed from the very first request on. */
  lemma FirstRequestMayBreakSerial(s: State, r: Request)
    requires Init(s) && r.proxy == Proxy1 && (r.ignored || (r.radioPower && r.slot == Sim2))
    ensures Enabled(s, Add(r)) && Enabled(Do(s, Add(r)), Enqueue(r))
    ensures !Serial(Do(Do(s, Add(r)), Enqueue(r)))
  {
  }

  ghost predicate CarefulRun(trace: seq<State>, steps: seq<Step>) {
    && Run(trace, steps)
    && forall i :: 0 <= i < |steps| ==> Shaped(trace[i]) && Careful(trace[i], steps[i])
  }

  lemma {:induction false} RunKeepsSerial(trace: seq<State>, steps: seq<Step>, n: nat)
    requires CarefulRun(trace, steps) && n < |trace|
    ensures Serial(trace[n])
  {
    hide Inv, Do, Init, Serial, Careful, Shaped;
    if n == 0 {
      InitHolds(trace[0]);
    } else {
      RunKeepsSerial(trace, steps, n - 1);
      RunKeepsInv(trace, steps, n - 1);
      assert Taken(trace, steps, n - 1);
      assert Careful(trace[n - 1], steps[n - 1]);
      CarefulKeepsSerial(trace[n - 1], steps[n - 1]);
    }
  }

  /** Busy iff a request of the channel is in flight, never two, and nothing waits for a channel that is not busy. */
  lemma OneInFlight(trace: seq<State>, steps: seq<Step>, n: nat, k: Key)
    requires CarefulRun(trace, steps) && n < |trace| && k.proxy != OtherProxy
    ensures Shaped(trace[n])
    ensures trace[n].q.busy[k] <==> exists r :: InFlight(trace[n], k, r)
    ensures forall r, r' :: InFlight(trace[n], k, r) && InFlight(trace[n], k, r') ==> r == r'
    ensures trace[n].q.queue[k] != [] ==> trace[n].q.busy[k]
  {
    RunKeepsSerial(trace, steps, n);
    var s := trace[n];
    assert SerialAt(s, k);
    if s.q.busy[k] {
      assert InFlight(s, k, s.q.sent[k][|s.q.sent[k]| - 1]);
    }
  }

  lemma {:induction false} ArrivalsGrow(trace: seq<State>, steps: seq<Step>, m: nat, n: nat, k: Key)
    requires Run(trace, steps) && m <= n < |trace| && Shaped(trace[m])
    ensures Shaped(trace[n]) && trace[m].arrivals[k] <= trace[n].arrivals[k]
  {
    if m < n {
      ArrivalsGrow(trace, steps, m, n - 1, k);
      assert Taken(trace, steps, n - 1);
    }
  }

  /** Requests are dispatched in the order of their arrival, at every moment of a careful run. */
  lemma DispatchedInOrder(trace: seq<State>, steps: seq<Step>, m: nat, n: nat, k: Key)
    requires CarefulRun(trace, steps) && m <= n < |trace| && k.proxy != OtherProxy
    ensures Shaped(trace[m]) && Shaped(trace[n])
    ensures trace[n].q.sent[k] <= trace[n].arrivals[k] && trace[m].arrivals[k] <= trace[n].arrivals[k]
    ensures Distinct(trace[n].arrivals[k])
  {
    RunKeepsSerial(trace, steps, m);
    RunKeepsSerial(trace, steps, n);
    ArrivalsGrow(trace, steps, m, n, k);
    assert SerialAt(trace[n], k);
  }

  /** On a serial channel the request that arrived a-th has been sent iff at least a requests finished. */
  lemma SentIff(s: State, k: Key, a: nat)
    requires Shaped(s) && SerialAt(s, k) && a < |s.arrivals[k]|
    ensures s.arrivals[k][a] in s.q.sent[k] <==> s.finished[k] >= a
  {
    hide LastInFlight, Arrived;
    var sent, arrivals := s.q.sent[k], s.arrivals[k];
    assert forall i :: 0 <= i < |sent| ==> arrivals[i] == sent[i];
  }

  /** The queue of a busy channel begins behind the finished requests and the one in flight. */
  lemma ArrivesBehind(trace: seq<State>, steps: seq<Step>, m: nat, k: Key)
    requires CarefulRun(trace, steps) && m < |steps| && k.proxy != OtherProxy
    requires steps[m].Enqueue? && KeyOf(steps[m].r) == k && Shaped(trace[m]) && Waits(trace[m].q, steps[m].r)
    ensures Shaped(trace[m + 1])
    ensures var a := trace[m].finished[k] + 1 + |trace[m].q.queue[k]|;
      0 <= a < |trace[m + 1].arrivals[k]| && trace[m + 1].arrivals[k][a] == steps[m].r
  {
    RunKeepsSerial(trace, steps, m);
    assert Taken(trace, steps, m) && Careful(trace[m], steps[m]) && SerialAt(trace[m], k);
    StepKeepsShape(trace[m], steps[m]);
    hide LastInFlight, Arrived;
    assert trace[m].q.busy[k];
  }

  /**
   * A request that enters a queue behind p others has been dispatched at a later moment n iff p + 1 requests of its
   * channel finished in between.
   */
  lemma DispatchedAfter(trace: seq<State>, steps: seq<Step>, m: nat, n: nat, k: Key)
    requires CarefulRun(trace, steps) && m < n < |trace| && k.proxy != OtherProxy
    requires steps[m].Enqueue? && KeyOf(steps[m].r) == k
    requires Shaped(trace[m]) && Shaped(trace[n]) && Waits(trace[m].q, steps[m].r)
    ensures steps[m].r in trace[n].q.sent[k] <==>
      trace[n].finished[k] - trace[m].finished[k] >= |trace[m].q.queue[k]| + 1
  {
    var a := trace[m].finished[k] + 1 + |trace[m].q.queue[k]|;
    ArrivesBehind(trace, steps, m, k);
    DispatchedInOrder(trace, steps, m + 1, n, k);
    RunKeepsSerial(trace, steps, n);
    assert SerialAt(trace[n], k);
    hide SerialAt, CarefulRun, Distinct, Waits;
    SentIff(trace[n], k, a);
  }

  /** my_dequeue does not look at the busy flag it sets. */
  lemma ClearedFirst(q: Queues, k: Key)
    requires Total(q)
    ensures Total(q.(busy := q.busy[k := false]))
    ensures k.proxy != OtherProxy ==> Dequeued(q.(busy := q.busy[k := false]), k) == Dequeued(q, k)
    ensures k.proxy == OtherProxy ==> Dequeued(q, k) == q
  {
    assert q.busy[k := false][k := true] == q.busy[k := true];
    assert q.busy[k := false][k := false] == q.busy[k := false];
  }

  // ---- the globals of ril.cpp ----

  class ProxyChannels {
    var busy: map<Key, bool>
    var queue: map<Key, seq<Request>>
    var sent: map<Key, seq<Request>>

    ghost function Value(): Queues
      reads this
    {
      Queues(busy, queue, sent)
    }

    method OnRequest(r: Request)
      requires Total(Value())
      modifies `sent
      ensures Value() == Send(old(Value()), r)
    {
      sent := sent[KeyOf(r) := sent[KeyOf(r)] + [r]];
    }

    method MyEnqueue(r: Request)
      requires Total(Value())
      modifies this
      ensures Value() == Enqueued(old(Value()), r)
    {
      var slot, pending := Sim1, false;
      if !r.ignored {
        if r.slot == Sim2 {
          slot := Sim2;
        }
        if r.proxy == Proxy1 {
          if r.radioPower {
            pending := busy[Key(Proxy1, Sim1)];
            busy := busy[Key(Proxy1, Sim1) := true];
          } else {
            pending := busy[Key(Proxy1, slot)];
            busy := busy[Key(Proxy1, slot) := true];
          }
        } else if r.proxy == Proxy3 {
          pending := busy[Key(Proxy3, slot)];
          busy := busy[Key(Proxy3, slot) := true];
        }
      }
      if pending {
        queue := queue[Key(r.proxy, slot) := queue[Key(r.proxy, slot)] + [r]];
        assert busy == old(busy);
      } else {
        OnRequest(r);
      }
    }

    method MyDequeue(k: Key)
      requires Total(Value())
      modifies this
      ensures Value() == Dequeued(old(Value()), k)
    {
      if k.proxy != OtherProxy {
        if queue[k] != [] {
          var p := queue[k][0];
          queue := queue[k := queue[k][1..]];
          busy := busy[k := true];
          OnRequest(p);
        } else {
          busy := busy[k := false];
        }
      }
    }

    /** The channel part of RIL_onRequestComplete. */
    method RequestDone(r: Request)
      requires Total(Value())
      modifies this
      ensures Value() == Dequeued(old(Value()), KeyOf(r))
    {
      ClearedFirst(Value(), KeyOf(r));
      hide Dequeued;
      var slot := if r.slot == Sim1 then Sim1 else Sim2;
      if r.proxy == Proxy1 {
        busy := busy[Key(Proxy1, slot) := false];
        MyDequeue(Key(Proxy1, slot));
      } else if r.proxy == Proxy3 {
        busy := busy[Key(Proxy3, slot) := false];
        MyDequeue(Key(Proxy3, slot));
      }
    }
  }
}

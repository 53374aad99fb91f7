/**
 * The sensor multi-HAL at work: one writer thread per ring, writing outside the lock, and one reader that merges
 * the rings. A writer's critical sections are single steps; the reader holds queue_mutex from step to step.
 */
module SensorSystem {
  import opened Options
  import opened SensorRing
  import opened SensorHandles

  /** Where a writerTask is. */
  datatype Writer =
    | WIdle                             // about to lock and look for space
    | WWaiting(signalled: bool)         // in waitForSpace
    | WPolling(first: nat, len: nat)    // device->poll is writing to the region, without the lock
    | WPolled(first: nat, count: nat)   // poll returned count events, not marked yet

  /** Where the thread calling sensors_poll_context_t::poll is. It holds queue_mutex exactly while scanning. */
  datatype Reader =
    | RIdle
    | RScanning(empties: nat, eventsRead: nat, maxReads: int, from: nat)
    | RWaiting(signalled: bool, maxReads: int, from: nat)

  datatype Delivery = Delivery(source: nat, event: Event)

  datatype State = State(
    maps: Maps,
    rings: seq<Ring<Event>>,
    writers: seq<Writer>,
    reader: Reader,
    waitingForData: bool,
    nextReadIndex: nat,
    produced: seq<seq<Event>>,   // per ring, every event a device poll has returned
    consumed: seq<seq<Event>>,   // per ring, every event the reader took
    delivered: seq<Delivery>)    // every event passed upstream, with the ring it came from

  datatype Step =
    | Enter(i: nat)                       // lock; waitForSpace; getWritableRegion; unlock
    | DeviceWrites(i: nat, p: nat, e: Event)
    | PollReturns(i: nat, count: int)
    | Mark(i: nat)                        // lock; markAsWritten; broadcast if waiting_for_data; unlock
    | SpuriousSpace(i: nat)               // a condition wait may end without a broadcast
    | PollCalled(maxReads: int)
    | Scan                                // one round of poll's inner loop
    | WaitForData
    | SpuriousData
    | Resume
    | PollDone

  const SENSOR_EVENT_QUEUE_CAPACITY: nat := 36

  predicate LockFree(s: State) {
    !s.reader.RScanning?
  }

  /** The condition of poll's inner loop. */
  predicate MoreToScan(s: State)
    requires s.reader.RScanning?
  {
    s.reader.empties < |s.rings| && s.reader.eventsRead < s.reader.maxReads
  }

  predicate Shaped(s: State) {
    && |s.rings| == |s.writers| == |s.produced| == |s.consumed|
    && (if |s.rings| == 0 then s.nextReadIndex == 0 else s.nextReadIndex < |s.rings|)
    && forall i :: 0 <= i < |s.rings| ==>
         |s.rings[i].data| == SENSOR_EVENT_QUEUE_CAPACITY && s.rings[i].start < SENSOR_EVENT_QUEUE_CAPACITY
         && s.rings[i].size <= SENSOR_EVENT_QUEUE_CAPACITY
  }

  predicate Enabled(s: State, step: Step)
    requires Shaped(s)
  {
    match step
    case Enter(i) => i < |s.rings| && LockFree(s) && (s.writers[i].WIdle? || s.writers[i] == WWaiting(true))
    case DeviceWrites(i, p, _) =>
      i < |s.rings| && s.writers[i].WPolling? && s.writers[i].first <= p < s.writers[i].first + s.writers[i].len &&
          p < SENSOR_EVENT_QUEUE_CAPACITY
    case PollReturns(i, count) =>
      && i < |s.rings| && s.writers[i].WPolling? && count <= s.writers[i].len
      && s.writers[i].first + count <= SENSOR_EVENT_QUEUE_CAPACITY
    case Mark(i) =>
      i < |s.rings| && LockFree(s) && s.writers[i].WPolled? &&
          s.writers[i].first + s.writers[i].count <= SENSOR_EVENT_QUEUE_CAPACITY
      && s.rings[i].size + s.writers[i].count <= SENSOR_EVENT_QUEUE_CAPACITY
    case SpuriousSpace(i) => i < |s.rings| && s.writers[i].WWaiting?
    case PollCalled(_) => s.reader.RIdle?
    case Scan => s.reader.RScanning? && MoreToScan(s)
    case WaitForData => s.reader.RScanning? && !MoreToScan(s) && s.reader.eventsRead == 0
    case SpuriousData => s.reader.RWaiting?
    case Resume => s.reader.RWaiting? && s.reader.signalled
    case PollDone => s.reader.RScanning? && !MoreToScan(s) && s.reader.eventsRead > 0
  }

  function AfterEnter(r: Ring<Event>): Writer
    requires |r.data| == SENSOR_EVENT_QUEUE_CAPACITY && r.start < SENSOR_EVENT_QUEUE_CAPACITY &&
        r.size <= SENSOR_EVENT_QUEUE_CAPACITY
  {
    if r.size == SENSOR_EVENT_QUEUE_CAPACITY then WWaiting(false)
    else
      var (first, len) := r.WritableRegion(SENSOR_EVENT_QUEUE_CAPACITY);
      WPolling(first, len)
  }

  function NextIndex(i: nat, n: nat): nat
    requires i < n
  {
    if i + 1 == n then 0 else i + 1
  }

  /** One round of poll's inner loop. */
  function DoScan(s: State): State
    requires Shaped(s) && Enabled(s, Scan)
  {
    var i := s.nextReadIndex;
    var r := s.reader;
    var next := NextIndex(i, |s.rings|);
    if s.rings[i].size == 0 then
      s.(reader := r.(empties := r.empties + 1), nextReadIndex := next)
    else
      var e := s.rings[i].data[s.rings[i].start];
      var out := Deliver(s.maps, i, e);
      s.(reader := r.(empties := 0, eventsRead := r.eventsRead + if out.Some? then 1 else 0),
         nextReadIndex := next,
         rings := s.rings[i := s.rings[i].Dequeue()],
         writers := if s.rings[i].size == SENSOR_EVENT_QUEUE_CAPACITY && s.writers[i].WWaiting?
                    then s.writers[i := WWaiting(true)] else s.writers,
         consumed := s.consumed[i := s.consumed[i] + [e]],
         delivered := if out.Some? then s.delivered + [Delivery(i, out.value)] else s.delivered)
  }

  function Do(s: State, step: Step): State
    requires Shaped(s) && Enabled(s, step)
  {
    match step
    case Enter(i) => s.(writers := s.writers[i := AfterEnter(s.rings[i])])
    case DeviceWrites(i, p, e) => s.(rings := s.rings[i := s.rings[i].(data := s.rings[i].data[p := e])])
    case PollReturns(i, count) =>
      var first := s.writers[i].first;
      if count <= 0 then s.(writers := s.writers[i := WIdle])
      else s.(writers := s.writers[i := WPolled(first, count)],
              produced := s.produced[i := s.produced[i] + s.rings[i].data[first..first + count]])
    case Mark(i) =>
      var w := s.writers[i];
      s.(rings := s.rings[i := s.rings[i].MarkAsWritten(w.count)],
         writers := s.writers[i := WIdle],
         reader := if s.waitingForData && s.reader.RWaiting? then s.reader.(signalled := true) else s.reader)
    case SpuriousSpace(i) => s.(writers := s.writers[i := WWaiting(true)])
    case PollCalled(maxReads) => s.(reader := RScanning(0, 0, maxReads, |s.delivered|))
    case Scan => DoScan(s)
    case WaitForData => s.(waitingForData := true, reader := RWaiting(false, s.reader.maxReads, s.reader.from))
    case SpuriousData => s.(reader := s.reader.(signalled := true))
    case Resume => s.(waitingForData := false, reader := RScanning(0, 0, s.reader.maxReads, s.reader.from))
    case PollDone => s.(reader := RIdle)
  }

  ghost predicate Init(s: State) {
    && Shaped(s) && s.nextReadIndex == 0
    && s.reader == RIdle && !s.waitingForData && s.delivered == []
    && forall i :: 0 <= i < |s.rings| ==>
         s.rings[i].start == 0 && s.rings[i].size == 0 && s.writers[i] == WIdle && s.produced[i] == [] &&
             s.consumed[i] == []
  }

  // ---- Per-ring invariant ----

  /** The region a writer holds is free space right behind the readable events. */
  ghost predicate RegionHeld(r: Ring<Event>, first: nat, len: nat) {
    && r.Valid() && 0 < |r.data| && 1 <= len
    && first == r.FirstWritable() && first + len <= |r.data| && len + r.size <= |r.data|
  }

  ghost predicate WriterOk(r: Ring<Event>, w: Writer) {
    match w
    case WIdle => true
    case WWaiting(signalled) => !signalled ==> r.size == |r.data|
    case WPolling(first, len) => RegionHeld(r, first, len)
    case WPolled(first, count) => RegionHeld(r, first, count)
  }

  /** Events that a device poll has returned and its writer has not marked yet. */
  ghost function Unmarked(r: Ring<Event>, w: Writer): seq<Event> {
    if w.WPolled? && w.first + w.count <= |r.data| then r.data[w.first..w.first + w.count] else []
  }

  ghost predicate RingOk(r: Ring<Event>, w: Writer, produced: seq<Event>, consumed: seq<Event>) {
    && |r.data| == SENSOR_EVENT_QUEUE_CAPACITY && r.Valid()
    && WriterOk(r, w)
    && produced == consumed + r.Contents() + Unmarked(r, w)
  }

  lemma EnterKeepsRing(r: Ring<Event>, w: Writer, produced: seq<Event>, consumed: seq<Event>)
    requires RingOk(r, w, produced, consumed) && !w.WPolled?
    ensures RingOk(r, AfterEnter(r), produced, consumed)
  {
  }

  lemma WriteKeepsRing(r: Ring<Event>, w: Writer, produced: seq<Event>, consumed: seq<Event>, p: nat, e: Event)
    requires RingOk(r, w, produced, consumed) && w.WPolling? && w.first <= p < w.first + w.len
    ensures RingOk(r.(data := r.data[p := e]), w, produced, consumed)
  {
  }

  lemma MarkKeepsRing(r: Ring<Event>, w: Writer, produced: seq<Event>, consumed: seq<Event>)
    requires RingOk(r, w, produced, consumed) && w.WPolled?
    ensures RingOk(r.MarkAsWritten(w.count), WIdle, produced, consumed)
  {
  }

  /** The writer after a dequeue, which wakes it if the ring was full. */
  function Woken(r: Ring<Event>, w: Writer): Writer {
    if r.size == SENSOR_EVENT_QUEUE_CAPACITY && w.WWaiting? then WWaiting(true) else w
  }

  lemma DequeueKeepsWriter(r: Ring<Event>, w: Writer)
    requires |r.data| == SENSOR_EVENT_QUEUE_CAPACITY && r.Valid() && WriterOk(r, w) && r.size > 0
    ensures WriterOk(r.Dequeue(), Woken(r, w)) && Unmarked(r.Dequeue(), Woken(r, w)) == Unmarked(r, w)
  {
    DequeueDrops(r);
  }

  lemma OldestFirst(r: Ring<Event>)
    requires r.Valid() && r.size > 0
    ensures r.Contents() == [r.data[r.start]] + r.Contents()[1..]
  {
  }

  lemma DequeueKeepsRing(r: Ring<Event>, w: Writer, produced: seq<Event>, consumed: seq<Event>)
    requires RingOk(r, w, produced, consumed) && r.size > 0
    ensures RingOk(r.Dequeue(), Woken(r, w), produced, consumed + [r.data[r.start]])
  {
    DequeueKeepsWriter(r, w);
    DequeueDrops(r);
    OldestFirst(r);
    hide WriterOk, Unmarked, Ring.Contents;
    assert consumed + [r.data[r.start]] + r.Contents()[1..] == consumed + r.Contents();
  }

  ghost predicate RingsOk(s: State) {
    && Shaped(s)
    && forall i :: 0 <= i < |s.rings| ==> RingOk(s.rings[i], s.writers[i], s.produced[i], s.consumed[i])
  }

  lemma StepKeepsRings(s: State, step: Step)
    requires RingsOk(s) && Enabled(s, step)
    ensures RingsOk(Do(s, step))
  {
    hide RingOk;
    var t := Do(s, step);
    if step.Scan? && s.rings[s.nextReadIndex].size > 0 {
      var i := s.nextReadIndex;
      DequeueKeepsRing(s.rings[i], s.writers[i], s.produced[i], s.consumed[i]);
      SizeOk(t, i);
    } else if step.Enter? || step.DeviceWrites? || step.PollReturns? || step.Mark? || step.SpuriousSpace? {
      var i := step.i;
      var r, w, p, c := s.rings[i], s.writers[i], s.produced[i], s.consumed[i];
      match step {
        case Enter(_) => EnterKeepsRing(r, w, p, c);
        case DeviceWrites(_, q, e) => WriteKeepsRing(r, w, p, c, q, e);
        case PollReturns(_, count) => PollKeepsRing(r, w, p, c, count);
        case Mark(_) => MarkKeepsRing(r, w, p, c);
        case SpuriousSpace(_) => WakeKeepsRing(r, w, p, c);
      }
      SizeOk(t, i);
    }
  }

  lemma SizeOk(t: State, i: nat)
    requires i < |t.rings| == |t.writers| == |t.produced| == |t.consumed|
    requires RingOk(t.rings[i], t.writers[i], t.produced[i], t.consumed[i])
    ensures |t.rings[i].data| == SENSOR_EVENT_QUEUE_CAPACITY
    ensures t.rings[i].start < SENSOR_EVENT_QUEUE_CAPACITY && t.rings[i].size <= SENSOR_EVENT_QUEUE_CAPACITY
  {
  }

  lemma PollKeepsRing(r: Ring<Event>, w: Writer, produced: seq<Event>, consumed: seq<Event>, count: int)
    requires RingOk(r, w, produced, consumed) && w.WPolling? && count <= w.len
    ensures count <= 0 ==> RingOk(r, WIdle, produced, consumed)
    ensures count > 0 ==> RingOk(r, WPolled(w.first, count), produced + r.data[w.first..w.first + count], consumed)
  {
  }

  lemma WakeKeepsRing(r: Ring<Event>, w: Writer, produced: seq<Event>, consumed: seq<Event>)
    requires RingOk(r, w, produced, consumed) && w.WWaiting?
    ensures RingOk(r, WWaiting(true), produced, consumed)
  {
  }

  /** The bounds that Enabled asks of a write, a return or a mark hold by themselves: the ring cannot overflow. */
  lemma RegionStaysInBounds(s: State, i: nat)
    requires RingsOk(s) && i < |s.rings|
    ensures s.writers[i].WPolling? ==>
      && s.writers[i].len >= 1
      && forall p, e :: s.writers[i].first <= p < s.writers[i].first + s.writers[i].len ==>
          Enabled(s, DeviceWrites(i, p, e))
    ensures s.writers[i].WPolling? ==> forall count :: count <= s.writers[i].len ==> Enabled(s, PollReturns(i, count))
    ensures s.writers[i].WPolled? && LockFree(s) ==> Enabled(s, Mark(i))
    ensures s.writers[i].WPolling? ==>
        forall p :: s.writers[i].first <= p < s.writers[i].first + s.writers[i].len ==> !s.rings[i].Readable(p)
    ensures s.writers[i].WPolled? ==>
        forall p :: s.writers[i].first <= p < s.writers[i].first + s.writers[i].count ==> !s.rings[i].Readable(p)
  {
  }

  // ---- The reader ----

  /** The ring scanned j rounds before the last one, when `next` comes next. */
  function Back(next: nat, j: nat, n: nat): (i: nat)
    requires next < n && j < n
    ensures i < n
  {
    if j < next then next - 1 - j else next - 1 - j + n
  }

  ghost predicate AllEmpty(s: State) {
    forall i :: 0 <= i < |s.rings| ==> s.rings[i].size == 0
  }

  ghost predicate ReaderOk(s: State)
    requires Shaped(s)
  {
    match s.reader
    case RIdle => !s.waitingForData
    case RScanning(empties, eventsRead, maxReads, from) =>
      && !s.waitingForData && empties <= |s.rings|
      && from + eventsRead == |s.delivered| && (eventsRead == 0 || eventsRead <= maxReads)
      && forall j: nat :: j < empties ==> s.rings[Back(s.nextReadIndex, j, |s.rings|)].size == 0
    case RWaiting(signalled, maxReads, from) =>
      && s.waitingForData && from == |s.delivered|
      && (!signalled && maxReads >= 1 ==> AllEmpty(s))
  }

  lemma ScanKeepsReader(s: State)
    requires Shaped(s) && ReaderOk(s) && Enabled(s, Scan) && Shaped(DoScan(s))
    ensures ReaderOk(DoScan(s))
  {
    var t, n := DoScan(s), |s.rings|;
    if s.rings[s.nextReadIndex].size == 0 {
      forall j: nat | j < t.reader.empties ensures t.rings[Back(t.nextReadIndex, j, n)].size == 0 {
        if j > 0 {
          assert Back(t.nextReadIndex, j, n) == Back(s.nextReadIndex, j - 1, n);
        } else {
          assert Back(t.nextReadIndex, 0, n) == s.nextReadIndex;
        }
      }
    }
  }

  /** A full round of empty rings means that all rings are empty. */
  lemma FullRoundIsAll(s: State)
    requires Shaped(s) && ReaderOk(s) && s.reader.RScanning? && s.reader.empties == |s.rings|
    ensures AllEmpty(s)
  {
    forall i | 0 <= i < |s.rings| ensures s.rings[i].size == 0 {
      var j := if i < s.nextReadIndex then s.nextReadIndex - 1 - i else s.nextReadIndex - 1 - i + |s.rings|;
      assert Back(s.nextReadIndex, j, |s.rings|) == i;
    }
  }

  lemma StepKeepsReader(s: State, step: Step)
    requires RingsOk(s) && ReaderOk(s) && Enabled(s, step)
    ensures RingsOk(Do(s, step)) && ReaderOk(Do(s, step))
  {
    hide RingOk;
    StepKeepsRings(s, step);
    var t := Do(s, step);
    match step {
      case Scan => ScanKeepsReader(s);
      case WaitForData =>
        if s.reader.maxReads >= 1 { FullRoundIsAll(s); }
      case DeviceWrites(i, _, _) =>
        assert forall k :: 0 <= k < |s.rings| ==> t.rings[k].size == s.rings[k].size;
      case _ =>
    }
  }

  // ---- Delivery ----

  /** What poll passes on for a sequence of events of one module. */
  function DeliverAll(m: Maps, index: int, es: seq<Event>): seq<Event> {
    if es == [] then []
    else
      var out := Deliver(m, index, es[|es| - 1]);
      DeliverAll(m, index, es[..|es| - 1]) + if out.Some? then [out.value] else []
  }

  /** The events delivered from one ring. */
  function From(ds: seq<Delivery>, i: nat): seq<Event> {
    if ds == [] then []
    else From(ds[..|ds| - 1], i) + if ds[|ds| - 1].source == i then [ds[|ds| - 1].event] else []
  }

  ghost predicate DeliveryOk(s: State) {
    forall i :: 0 <= i < |s.consumed| ==> From(s.delivered, i) == DeliverAll(s.maps, i, s.consumed[i])
  }

  lemma ScanKeepsDelivery(s: State)
    requires Shaped(s) && DeliveryOk(s) && Enabled(s, Scan)
    ensures DeliveryOk(DoScan(s))
  {
  }

  ghost predicate Inv(s: State) {
    RingsOk(s) && ReaderOk(s) && DeliveryOk(s)
  }

  lemma StepKeepsInv(s: State, step: Step)
    requires Inv(s) && Enabled(s, step)
    ensures Inv(Do(s, step))
  {
    hide RingOk, ReaderOk;
    StepKeepsReader(s, step);
    if step.Scan? { ScanKeepsDelivery(s); }
  }

  // ---- Runs ----

  ghost predicate Taken(trace: seq<State>, steps: seq<Step>, i: nat)
    requires i < |steps| && |trace| == |steps| + 1
  {
    Shaped(trace[i]) && Enabled(trace[i], steps[i]) && trace[i + 1] == Do(trace[i], steps[i])
  }

  ghost predicate Run(trace: seq<State>, steps: seq<Step>) {
    && |trace| == |steps| + 1
    && Init(trace[0])
    && forall i :: 0 <= i < |steps| ==> Taken(trace, steps, i)
  }

  lemma {:induction false} RunKeepsInv(trace: seq<State>, steps: seq<Step>, n: nat)
    requires Run(trace, steps) && n < |trace|
    ensures Inv(trace[n])
  {
    if n > 0 {
      RunKeepsInv(trace, steps, n - 1);
      assert Taken(trace, steps, n - 1);
      StepKeepsInv(trace[n - 1], steps[n - 1]);
    }
  }

  lemma RunShaped(trace: seq<State>, steps: seq<Step>, n: nat)
    requires Run(trace, steps) && n < |trace|
    ensures Shaped(trace[n])
    ensures |trace[n].rings| == |trace[n].writers| == |trace[n].produced| == |trace[n].consumed|
    ensures |trace[n].rings| > 0 ==> trace[n].nextReadIndex < |trace[n].rings|
  {
    hide RingOk, ReaderOk, DeliveryOk;
    RunKeepsInv(trace, steps, n);
  }

  /**
   * Every ring refines an unbounded FIFO: in every interleaving, what the device returned is what was consumed,
   * followed by what is readable, followed by what its writer has yet to mark; a region handed out for unlocked
   * writing overlaps no readable event and fits the ring.
   */
  lemma RingRefinesFifo(trace: seq<State>, steps: seq<Step>, n: nat, i: nat)
    requires Run(trace, steps) && n < |trace| && i < |trace[n].rings|
    ensures var s := trace[n];
      && Shaped(s) && s.rings[i].Valid()
      && s.produced[i] == s.consumed[i] + s.rings[i].Contents() + Unmarked(s.rings[i], s.writers[i])
      && (s.writers[i].WPolling? ==>
          forall p :: s.writers[i].first <= p < s.writers[i].first + s.writers[i].len ==> !s.rings[i].Readable(p))
      && (s.writers[i].WPolled? && LockFree(s) ==> Enabled(s, Mark(i)))
  {
    RunKeepsInv(trace, steps, n);
    RegionStaysInBounds(trace[n], i);
    assert RingOk(trace[n].rings[i], trace[n].writers[i], trace[n].produced[i], trace[n].consumed[i]);
  }

  /**
   * No condition variable loses a wake-up: a writer that waits unsignalled has a full ring; a poll for at least
   * one event that waits unsignalled has only empty rings, and waiting_for_data is set.
   */
  lemma NoLostWakeup(trace: seq<State>, steps: seq<Step>, n: nat)
    requires Run(trace, steps) && n < |trace|
    ensures var s := trace[n];
      && Shaped(s)
      && (forall i :: 0 <= i < |s.rings| && s.writers[i] == WWaiting(false) ==>
          s.rings[i].size == SENSOR_EVENT_QUEUE_CAPACITY)
      && (s.reader.RWaiting? ==> s.waitingForData)
      && (s.reader.RWaiting? && !s.reader.signalled && s.reader.maxReads >= 1 ==> AllEmpty(s))
  {
    RunKeepsInv(trace, steps, n);
    var s := trace[n];
    forall i | 0 <= i < |s.rings| &&
        s.writers[i] == WWaiting(false) ensures s.rings[i].size == SENSOR_EVENT_QUEUE_CAPACITY {
      assert RingOk(s.rings[i], s.writers[i], s.produced[i], s.consumed[i]);
    }
  }

  /** In every run a waiting poll is woken exactly by a writer that marks events, or spuriously. */
  lemma {:induction false} ReaderWokenIff(trace: seq<State>, steps: seq<Step>, m: nat, n: nat)
    requires Run(trace, steps) && m < n < |trace| && steps[m].WaitForData?
    requires forall j :: m < j < n ==> !steps[j].Resume?
    ensures trace[n].reader.RWaiting?
    ensures trace[n].reader.signalled <==> exists j :: m < j < n && (steps[j].Mark? || steps[j].SpuriousData?)
  {
    hide RingOk, DeliveryOk, Init;
    assert Taken(trace, steps, n - 1);
    RunKeepsInv(trace, steps, n - 1);
    if n > m + 1 { ReaderWokenIff(trace, steps, m, n - 1); }
  }

  /** The reader takes an event from ring i, which is not empty. */
  ghost predicate TakesFrom(trace: seq<State>, steps: seq<Step>, j: nat, i: nat) {
    && j < |steps| && j < |trace| && steps[j].Scan? && trace[j].nextReadIndex == i
    && i < |trace[j].rings| && trace[j].rings[i].size > 0
  }

  lemma StillWaits(s: State, step: Step, i: nat)
    requires Shaped(s) && Enabled(s, step) && i < |s.rings| && s.writers[i].WWaiting? && step != Enter(i)
    requires !s.writers[i].signalled ==> s.rings[i].size == SENSOR_EVENT_QUEUE_CAPACITY
    ensures var s' := Do(s, step);
      && i < |s'.writers| && s'.writers[i].WWaiting?
      && (s'.writers[i].signalled <==>
            || s.writers[i].signalled || step == SpuriousSpace(i)
            || (step.Scan? && s.nextReadIndex == i && s.rings[i].size > 0))
  {
  }

  /** In every run a writer that waits for space is woken exactly by the reader taking an event, or spuriously. */
  lemma {:induction false} WriterWokenIff(trace: seq<State>, steps: seq<Step>, m: nat, n: nat, i: nat)
    requires Run(trace, steps) && m < n < |trace| && steps[m] == Enter(i)
    requires i < |trace[m + 1].writers| && trace[m + 1].writers[i].WWaiting?
    requires forall j :: m < j < n ==> steps[j] != Enter(i)
    ensures i < |trace[n].writers| && trace[n].writers[i].WWaiting?
    ensures trace[n].writers[i].signalled <==>
      exists j: nat :: m < j < n && (steps[j] == SpuriousSpace(i) || TakesFrom(trace, steps, j, i))
  {
    hide Do, DoScan, Shaped, AllEmpty;
    var k := n - 1;
    assert Taken(trace, steps, k);
    NoLostWakeup(trace, steps, k);
    if k > m {
      WriterWokenIff(trace, steps, m, k, i);
      StillWaits(trace[k], steps[k], i);
      hide Run, Taken, Enabled;
      assert trace[n].writers[i].signalled <==>
        trace[k].writers[i].signalled || steps[k] == SpuriousSpace(i) || TakesFrom(trace, steps, k, i);
    } else {
      EnterTakesAll(trace, steps, m);
    }
  }

  /** A poll returns at least one and at most maxReads events: those delivered since it was called. */
  lemma PollReturnsWhatItDelivered(trace: seq<State>, steps: seq<Step>, n: nat)
    requires Run(trace, steps) && n < |steps| && steps[n].PollDone?
    ensures var r := trace[n].reader;
      r.RScanning? && 1 <= r.eventsRead <= r.maxReads && |trace[n].delivered| == r.from + r.eventsRead
  {
    hide RingOk, DeliveryOk;
    RunKeepsInv(trace, steps, n);
    assert Taken(trace, steps, n);
  }

  /** While poll is under way, the reader remembers what poll was called with, and what was delivered before. */
  lemma {:induction false} PollRemembers(trace: seq<State>, steps: seq<Step>, m: nat, n: nat)
    requires Run(trace, steps) && m < n < |trace| && steps[m].PollCalled?
    requires forall j :: m < j < n ==> !steps[j].PollDone?
    ensures !trace[n].reader.RIdle?
    ensures trace[n].reader.maxReads == steps[m].maxReads && trace[n].reader.from == |trace[m].delivered|
  {
    assert Taken(trace, steps, n - 1);
    if n > m + 1 { PollRemembers(trace, steps, m, n - 1); }
  }

  /** Once poll is done, nobody reads until it is called again. */
  lemma {:induction false} PollIsOver(trace: seq<State>, steps: seq<Step>, m: nat, n: nat)
    requires Run(trace, steps) && m < n < |trace| && steps[m].PollDone?
    requires forall j :: m < j < n ==> !steps[j].PollCalled?
    ensures trace[n].reader.RIdle? && trace[n].delivered == trace[m].delivered
  {
    assert Taken(trace, steps, n - 1);
    if n > m + 1 { PollIsOver(trace, steps, m, n - 1); }
  }

  /** In every run a poll called with maxReads delivers at least one and at most maxReads events until it returns. */
  lemma PollDeliversAtMost(trace: seq<State>, steps: seq<Step>, m: nat, n: nat)
    requires Run(trace, steps) && m < n < |steps| && steps[m].PollCalled? && steps[n].PollDone?
    requires forall j :: m < j < n ==> !steps[j].PollDone?
    ensures 1 <= |trace[n].delivered| - |trace[m].delivered| <= steps[m].maxReads
  {
    PollRemembers(trace, steps, m, n);
    PollReturnsWhatItDelivered(trace, steps, n);
  }

  // ---- What the devices produce ----

  predicate ByWriter(step: Step, i: nat) {
    (step.Enter? || step.DeviceWrites? || step.PollReturns? || step.Mark?) && step.i == i
  }

  lemma {:induction false} WriterKept(trace: seq<State>, steps: seq<Step>, m: nat, n: nat, i: nat)
    requires Run(trace, steps) && m <= n < |trace| && i < |trace[m].writers|
    requires forall j :: m <= j < n ==> !ByWriter(steps[j], i)
    ensures i < |trace[n].writers|
    ensures var w, w' := trace[m].writers[i], trace[n].writers[i]; w' == w || (w.WWaiting? && w'.WWaiting?)
  {
    if m < n {
      WriterKept(trace, steps, m, n - 1, i);
      assert Taken(trace, steps, n - 1) && !ByWriter(steps[n - 1], i);
    }
  }

  /**
   * In every run a writer goes round in order: it enters until it gets space, the device writes and returns, and
   * only what a return brought is marked before the writer enters again.
   */
  lemma WriterInOrder(trace: seq<State>, steps: seq<Step>, m: nat, n: nat, i: nat)
    requires Run(trace, steps) && m < n < |steps| && ByWriter(steps[m], i) && ByWriter(steps[n], i)
    requires forall j :: m < j < n ==> !ByWriter(steps[j], i)
    ensures steps[n].Enter? ==>
      || steps[m].Mark? || (steps[m].PollReturns? && steps[m].count <= 0)
      || (steps[m].Enter? && i < |trace[m].rings| && trace[m].rings[i].size == SENSOR_EVENT_QUEUE_CAPACITY)
    ensures steps[n].DeviceWrites? || steps[n].PollReturns? ==> steps[m].Enter? || steps[m].DeviceWrites?
    ensures steps[n].Mark? ==> steps[m].PollReturns? && steps[m].count > 0
  {
    assert Taken(trace, steps, m) && Taken(trace, steps, n);
    WriterKept(trace, steps, m + 1, n, i);
  }

  /** Entering waits exactly when the ring is full, and is otherwise given all the contiguous free space. */
  lemma EnterTakesAll(trace: seq<State>, steps: seq<Step>, n: nat)
    requires Run(trace, steps) && n < |steps| && steps[n].Enter?
    ensures var i := steps[n].i;
      && i < |trace[n].rings| && i < |trace[n + 1].writers|
      && var r, w := trace[n].rings[i], trace[n + 1].writers[i];
      && r.Valid() && 0 < |r.data|
      && (r.size == |r.data| ==> w == WWaiting(false))
      && (r.size < |r.data| ==>
            && w.WPolling? && w.first == r.FirstWritable()
            && w.len >= 1 && (w.first + w.len == |r.data| || w.len + r.size == |r.data|))
  {
    RunShaped(trace, steps, n);
    assert Taken(trace, steps, n);
    RegionIsFree(trace[n].rings[steps[n].i], SENSOR_EVENT_QUEUE_CAPACITY);
  }

  /** Step m is the last before n at which a device wrote to position p of ring i, and it wrote e. */
  ghost predicate WroteLast(steps: seq<Step>, m: nat, n: nat, i: nat, p: nat, e: Event) {
    && m < n <= |steps| && steps[m] == DeviceWrites(i, p, e)
    && forall k :: m < k < n ==> !(steps[k].DeviceWrites? && steps[k].i == i && steps[k].p == p)
  }

  lemma WritesInside(s: State, step: Step)
    requires Shaped(s) && Enabled(s, step) && step.DeviceWrites?
    ensures step.i < |s.rings| && step.p < |s.rings[step.i].data|
  {
  }

  /** Only a write of its own device changes a position of a ring. */
  lemma StepData(s: State, step: Step, i: nat, p: nat)
    requires Shaped(s) && Enabled(s, step) && i < |s.rings| && p < |s.rings[i].data|
    ensures var s' := Do(s, step);
      && i < |s'.rings| && p < |s'.rings[i].data|
      && s'.rings[i].data[p] == if step.DeviceWrites? && step.i == i && step.p == p then step.e else s.rings[i].data[p]
  {
  }

  lemma {:induction false} DataIsLastWritten(
      trace: seq<State>, steps: seq<Step>, m: nat, n: nat, i: nat, p: nat, e: Event)
    requires Run(trace, steps) && WroteLast(steps, m, n, i, p, e)
    ensures i < |trace[n].rings| && p < |trace[n].rings[i].data| && trace[n].rings[i].data[p] == e
  {
    hide Do, Init, Shaped;
    var k := n - 1;
    assert Taken(trace, steps, k);
    if k > m {
      DataIsLastWritten(trace, steps, m, k, i, p, e);
    } else {
      WritesInside(trace[k], steps[k]);
    }
    StepData(trace[k], steps[k], i, p);
  }

  /** In every run the events that a device poll adds to what its module produced are those the device wrote last. */
  lemma ProducedAreWritten(trace: seq<State>, steps: seq<Step>, m: nat, n: nat, i: nat, k: nat, e: Event)
    requires Run(trace, steps) && n < |steps| && steps[n].PollReturns? && steps[n].i == i && k < steps[n].count
    requires i < |trace[n].writers| && trace[n].writers[i].WPolling?
    requires WroteLast(steps, m, n, i, trace[n].writers[i].first + k, e)
    ensures i < |trace[n].produced| && i < |trace[n + 1].produced|
    ensures |trace[n + 1].produced[i]| == |trace[n].produced[i]| + steps[n].count
    ensures trace[n + 1].produced[i][|trace[n].produced[i]| + k] == e
  {
    DataIsLastWritten(trace, steps, m, n, i, trace[n].writers[i].first + k, e);
    assert Taken(trace, steps, n);
  }

  /** How many events the device polls of a module returned. */
  function Returned(steps: seq<Step>, i: nat): nat {
    if steps == [] then 0
    else
      var step := steps[|steps| - 1];
      Returned(steps[..|steps| - 1], i) +
      if step.PollReturns? && step.i == i && step.count > 0 then step.count else 0
  }

  /** In every run a module has produced as many events as its device polls returned. */
  lemma {:induction false} ProducedIsReturned(trace: seq<State>, steps: seq<Step>, n: nat, i: nat)
    requires Run(trace, steps) && n < |trace| && i < |trace[0].rings|
    ensures i < |trace[n].produced| && |trace[n].produced[i]| == Returned(steps[..n], i)
  {
    if n > 0 {
      ProducedIsReturned(trace, steps, n - 1, i);
      assert Taken(trace, steps, n - 1);
      assert steps[..n][..n - 1] == steps[..n - 1];
    }
  }

  /**
   * End to end: from each module, upstream has received exactly the events it produced up to some point, in
   * order, with handles remapped and undeliverable events left out; the rest is readable in its ring or yet to be
   * marked.
   */
  lemma EndToEndDelivery(trace: seq<State>, steps: seq<Step>, n: nat, i: nat)
    requires Run(trace, steps) && n < |trace| && i < |trace[n].rings|
    ensures var s := trace[n];
      && Shaped(s) && s.rings[i].Valid() && s.consumed[i] <= s.produced[i]
      && From(s.delivered, i) == DeliverAll(s.maps, i, s.consumed[i])
      && s.produced[i][|s.consumed[i]|..] == s.rings[i].Contents() + Unmarked(s.rings[i], s.writers[i])
  {
    RunKeepsInv(trace, steps, n);
    var s := trace[n];
    assert RingOk(s.rings[i], s.writers[i], s.produced[i], s.consumed[i]);
    hide ReaderOk, WriterOk, Ring.Contents, Unmarked, DeliverAll, From;
    RestIs(s.produced[i], s.consumed[i], s.rings[i].Contents(), Unmarked(s.rings[i], s.writers[i]));
  }

  lemma RestIs(all: seq<Event>, first: seq<Event>, middle: seq<Event>, last: seq<Event>)
    requires all == first + middle + last
    ensures first <= all && all[|first|..] == middle + last
  {
  }

  /** The events of a module that upstream should get: metadata, and events of sensors that the module lists. */
  ghost function Wanted(handles: seq<int>, es: seq<Event>): seq<Event> {
    if es == [] then []
    else
      var e := es[|es| - 1];
      var keep := if e.isMeta then e.sensor != -1 else e.sensor in handles;
      Wanted(handles, es[..|es| - 1]) + if keep then [e] else []
  }

  /** What arrives is what is wanted, in order, each event with one handle exchanged for one that leads back to it. */
  ghost predicate Arrives(m: Maps, index: int, handles: seq<int>, wanted: Event, e: Event) {
    if wanted.isMeta then
      && e == wanted.(metaSensor := e.metaSensor)
      && (if wanted.metaSensor in handles
          then ModuleIndex(m, e.metaSensor) == index && LocalHandle(m, e.metaSensor) == wanted.metaSensor
          else e.metaSensor == -1)
    else
      && e == wanted.(sensor := e.sensor)
      && ModuleIndex(m, e.sensor) == index && LocalHandle(m, e.sensor) == wanted.sensor
  }

  ghost predicate AllArrive(m: Maps, index: int, handles: seq<int>, wanted: seq<Event>, es: seq<Event>) {
    |es| == |wanted| && forall k :: 0 <= k < |es| ==> Arrives(m, index, handles, wanted[k], es[k])
  }

  lemma EventArrives(modules: seq<seq<int>>, i: nat, e: Event)
    requires i < |modules|
    ensures var m := AssignAll(AllHandles(modules));
      && (Deliver(m, i, e).Some? <==> if e.isMeta then e.sensor != -1 else e.sensor in modules[i])
      && (Deliver(m, i, e).Some? ==> Arrives(m, i, modules[i], e, Deliver(m, i, e).value))
  {
    var fs := AllHandles(modules);
    HandlesOfModules(modules);
    DroppedIff(fs, i, e);
    var f := FullHandle(i, if e.isMeta then e.metaSensor else e.sensor);
    if f in fs {
      SensorRoundTrip(fs, f);
    } else {
      AssignAllShape(fs);
    }
  }

  lemma {:induction false} DeliverAllArrives(modules: seq<seq<int>>, i: nat, es: seq<Event>)
    requires i < |modules|
    ensures var m := AssignAll(AllHandles(modules));
      AllArrive(m, i, modules[i], Wanted(modules[i], es), DeliverAll(m, i, es))
  {
    if es != [] {
      DeliverAllArrives(modules, i, es[..|es| - 1]);
      EventArrives(modules, i, es[|es| - 1]);
      hide Deliver, Arrives, AssignAll, AllHandles;
    }
  }

  /**
   * The same for the maps that lazy_init_sensors_list builds: of the events consumed from a module exactly the wanted
   * ones have arrived, in order, and every handle leads back to the module and sensor that produced the event.
   */
  lemma EverySensorArrives(trace: seq<State>, steps: seq<Step>, n: nat, i: nat, modules: seq<seq<int>>)
    requires Run(trace, steps) && n < |trace| && i < |trace[n].rings| && i < |modules|
    requires trace[n].maps == AssignAll(AllHandles(modules))
    ensures Shaped(trace[n]) && trace[n].consumed[i] <= trace[n].produced[i]
    ensures AllArrive(trace[n].maps, i, modules[i], Wanted(modules[i], trace[n].consumed[i]),
        From(trace[n].delivered, i))
  {
    EndToEndDelivery(trace, steps, n, i);
    DeliverAllArrives(modules, i, trace[n].consumed[i]);
  }

  /** maxReads >= 1 is needed: any other poll waits without looking, and sleeps although a ring holds an event. */
  lemma NoReadsSleepsOnData(s: State, maxReads: int)
    requires Inv(s) && s.reader.RIdle? && !AllEmpty(s)
    ensures var t := Do(s, PollCalled(maxReads));
      Shaped(t) && (Enabled(t, WaitForData) <==> maxReads <= 0)
    ensures maxReads <= 0 ==>
      var t := Do(Do(s, PollCalled(maxReads)), WaitForData);
      t.reader == RWaiting(false, maxReads, |s.delivered|) && !AllEmpty(t)
  {
  }

  // ---- Fairness ----

  /** Rounds until ring i is scanned, when `next` comes next. */
  function Distance(i: nat, next: nat, n: nat): nat
    requires i < n && next < n
  {
    if i >= next then i - next else i - next + n
  }

  function Ahead(s: State, a: nat, b: nat): int
    requires Shaped(s) && a < |s.rings| && b < |s.rings|
  {
    if Distance(b, s.nextReadIndex, |s.rings|) < Distance(a, s.nextReadIndex, |s.rings|) then 1 else 0
  }

  lemma StepKeepsLead(s: State, step: Step, a: nat, b: nat)
    requires Shaped(s) && Enabled(s, step) && Shaped(Do(s, step))
    requires a < |s.rings| && b < |s.rings| && a != b && s.rings[a].size > 0 && s.rings[b].size > 0
    ensures var t := Do(s, step);
      |t.rings| == |s.rings| &&
      (|t.consumed[a]| - |t.consumed[b]|) - (|s.consumed[a]| - |s.consumed[b]|) == Ahead(t, a, b) - Ahead(s, a, b)
  {
  }

  ghost predicate Busy(trace: seq<State>, m: nat, n: nat, a: nat) {
    forall k :: m <= k < n && k < |trace| ==> a < |trace[k].rings| && trace[k].rings[a].size > 0
  }

  /** Over any stretch of any run in which two rings never run dry, they are read equally often, give or take one. */
  lemma {:induction false} RoundRobinIsFair(trace: seq<State>, steps: seq<Step>, m: nat, n: nat, a: nat, b: nat)
    requires Run(trace, steps) && m <= n < |trace| && a < |trace[m].rings| && b < |trace[m].rings| && a != b
    requires Busy(trace, m, n, a) && Busy(trace, m, n, b)
    ensures |trace[n].rings| == |trace[m].rings| && Shaped(trace[m]) && Shaped(trace[n])
    ensures
      var da, db := |trace[n].consumed[a]| - |trace[m].consumed[a]|, |trace[n].consumed[b]| - |trace[m].consumed[b]|;
      -1 <= da - db <= 1 && da - db == Ahead(trace[n], a, b) - Ahead(trace[m], a, b)
  {
    hide Do, Shaped;
    RunShaped(trace, steps, m);
    RunShaped(trace, steps, n);
    if m < n {
      RoundRobinIsFair(trace, steps, m, n - 1, a, b);
      assert Taken(trace, steps, n - 1);
      StepKeepsLead(trace[n - 1], steps[n - 1], a, b);
    }
  }

  // ---- Termination of the inner loop ----

  function Queued(rings: seq<Ring<Event>>): nat {
    if rings == [] then 0 else Queued(rings[..|rings| - 1]) + rings[|rings| - 1].size
  }

  lemma {:induction false} QueuedUpdate(rings: seq<Ring<Event>>, i: nat, r: Ring<Event>)
    requires i < |rings|
    ensures Queued(rings[i := r]) == Queued(rings) - rings[i].size + r.size
  {
    var k := |rings| - 1;
    if i == k {
      assert rings[i := r][..k] == rings[..k];
    } else {
      assert rings[i := r][..k] == rings[..k][i := r];
      QueuedUpdate(rings[..k], i, r);
    }
  }

  /** Each round lowers (events queued, rings not yet found empty) lexicographically. */
  lemma ScanDecreases(s: State)
    requires Shaped(s) && Enabled(s, Scan)
    ensures var t := DoScan(s);
      || Queued(t.rings) < Queued(s.rings)
      || (Queued(t.rings) == Queued(s.rings) && |t.rings| - t.reader.empties < |s.rings| - s.reader.empties)
  {
    var i := s.nextReadIndex;
    if s.rings[i].size > 0 { QueuedUpdate(s.rings, i, s.rings[i].Dequeue()); }
  }

  /** The rounds of the inner loop, until its condition fails. */
  ghost function ScanAll(s: State): (t: State)
    requires Shaped(s) && s.reader.RScanning?
    ensures Shaped(t) && t.reader.RScanning? && !MoreToScan(t)
    decreases Queued(s.rings), |s.rings| - s.reader.empties
  {
    if MoreToScan(s) then ScanDecreases(s); ScanAll(DoScan(s)) else s
  }

  lemma ScanAllStep(s: State)
    requires Shaped(s) && Enabled(s, Scan)
    ensures Shaped(DoScan(s)) && DoScan(s).reader.RScanning? && ScanAll(DoScan(s)) == ScanAll(s)
  {
  }

  /** One round of the inner loop, field by field. */
  lemma ScanRound(s: State)
    requires Shaped(s) && Enabled(s, Scan)
    ensures var t, i, r := DoScan(s), s.nextReadIndex, s.rings[s.nextReadIndex];
      && t.maps == s.maps
      && t.nextReadIndex == NextIndex(i, |s.rings|)
      && t.rings == (if r.size == 0 then s.rings else s.rings[i := r.Dequeue()])
      && var out := if r.size == 0 then None else Deliver(s.maps, i, r.data[r.start]);
      && t.reader == s.reader.(empties := if r.size == 0 then s.reader.empties + 1 else 0,
                               eventsRead := s.reader.eventsRead + if out.Some? then 1 else 0)
      && t.delivered == s.delivered + if out.Some? then [Delivery(i, out.value)] else []
  {
  }

  /** poll's inner loop, on a copy of the rings: peek, copy with remapped handle, dequeue, move on. */
  method PollScan(s: State) returns (rings: seq<Ring<Event>>, nextReadIndex: nat, empties: nat, data: seq<Event>)
    requires Shaped(s) && s.reader.RScanning? && s.reader.empties == 0 && s.reader.eventsRead == 0
    ensures var t := ScanAll(s);
      && rings == t.rings && nextReadIndex == t.nextReadIndex
      && empties == t.reader.empties && |data| == t.reader.eventsRead
      && |t.delivered| == |s.delivered| + |data|
      && forall k :: 0 <= k < |data| ==> t.delivered[|s.delivered| + k].event == data[k]
  {
    hide DoScan, Queued, Remap;
    rings, nextReadIndex, empties, data := s.rings, s.nextReadIndex, 0, [];
    ghost var t := s;
    while empties < |rings| && |data| < s.reader.maxReads
      invariant Shaped(t) && t.reader == RScanning(empties, |data|, s.reader.maxReads, s.reader.from)
      invariant rings == t.rings && nextReadIndex == t.nextReadIndex && s.maps == t.maps
      invariant ScanAll(t) == ScanAll(s)
      invariant |t.delivered| == |s.delivered| + |data|
      invariant forall k :: 0 <= k < |data| ==> t.delivered[|s.delivered| + k].event == data[k]
      decreases Queued(rings), |rings| - empties
    {
      ScanDecreases(t);
      ScanAllStep(t);
      ScanRound(t);
      t := DoScan(t);
      var queue := rings[nextReadIndex];
      if queue.size == 0 {
        empties := empties + 1;
      } else {
        empties := 0;
        var event := Remap(s.maps, nextReadIndex, queue.data[queue.start]);
        if event.sensor != -1 {
          data := data + [event];
        }
        rings := rings[nextReadIndex := queue.Dequeue()];
      }
      NextIndexIsMod(nextReadIndex, |rings|);
      nextReadIndex := (nextReadIndex + 1) % |rings|;
    }
  }

  lemma NextIndexIsMod(i: nat, n: nat)
    requires i < n
    ensures (i + 1) % n == NextIndex(i, n)
  {
  }
}

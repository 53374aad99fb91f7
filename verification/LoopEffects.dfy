/** What event functions do to the timer list and the watch table while a pass fires them, as values. */
module LoopEffects {
  import TimerQueue
  import W = WatchSlots

  datatype Effect =
    | NewTimer(deadline: int)            // ril_timer_add
    | NewWatch(fd: nat, persist: bool)   // ril_event_add
    | NoWatch(slot: int)                 // ril_event_del of the event in that slot; of no event if negative

  datatype Model = Model(queue: seq<TimerQueue.Timer>, nextStamp: nat, table: W.Table)

  ghost function Apply(m: Model, e: Effect): Model {
    match e
    case NewTimer(deadline) =>
      m.(queue := TimerQueue.Insert(m.queue, TimerQueue.Timer(m.nextStamp, deadline)), nextStamp := m.nextStamp + 1)
    case NewWatch(fd, persist) => m.(table := W.Add(m.table, fd, persist))
    case NoWatch(slot) =>
      if 0 <= slot < |m.table.slots| && m.table.slots[slot].Watch? then m.(table := W.Remove(m.table, slot)) else m
  }

  ghost function ApplyAll(m: Model, es: seq<Effect>): Model
    decreases |es|
  {
    if es == [] then m else ApplyAll(Apply(m, es[0]), es[1..])
  }

  lemma {:induction false} ApplyAllConcat(m: Model, es: seq<Effect>, fs: seq<Effect>)
    ensures ApplyAll(m, es + fs) == ApplyAll(ApplyAll(m, es), fs)
    decreases |es|
  {
    if es == [] {
      assert es + fs == fs;
    } else {
      assert (es + fs)[1..] == es[1..] + fs;
      ApplyAllConcat(Apply(m, es[0]), es[1..], fs);
    }
  }

  ghost predicate Healthy(t: W.Table) {
    W.Coherent(t) && W.DistinctFds(t.slots)
  }

  /** Every new watch is for a descriptor that is not watched then, or finds no free slot. */
  ghost predicate NewDescriptors(m: Model, es: seq<Effect>)
    decreases |es|
  {
    es == [] || (NewDescriptor(m, es[0]) && NewDescriptors(Apply(m, es[0]), es[1..]))
  }

  ghost predicate NewDescriptor(m: Model, e: Effect) {
    e.NewWatch? ==> W.FirstFree(m.table.slots) == |m.table.slots| || e.fd !in m.table.readFds
  }

  /** One effect keeps the table free of shared descriptors, with readFds and nfds exact, iff it is such. */
  lemma HealthyIff(m: Model, e: Effect)
    requires Healthy(m.table)
    ensures Healthy(Apply(m, e).table) <==> NewDescriptor(m, e)
  {
    match e {
      case NewTimer(_) =>
      case NewWatch(fd, persist) =>
        W.AddKeepsCoherent(m.table, fd, persist);
        W.AddKeepsDistinct(m.table, fd, persist);
      case NoWatch(slot) =>
        if 0 <= slot < |m.table.slots| && m.table.slots[slot].Watch? {
          assert W.Watches(m.table.slots, slot, m.table.slots[slot].fd);
          W.RemoveCoherentIff(m.table, slot);
          W.RemoveKeepsDistinct(m.table, slot);
        }
    }
  }

  /** Whatever event functions do in a pass, timer_list stays in firing order, and a healthy table healthy. */
  lemma {:induction false} EffectsKeep(m: Model, es: seq<Effect>)
    ensures TimerQueue.Ordered(m.queue) && TimerQueue.StampsBelow(m.queue, m.nextStamp) ==>
      var m' := ApplyAll(m, es); TimerQueue.Ordered(m'.queue) && TimerQueue.StampsBelow(m'.queue, m'.nextStamp)
    ensures Healthy(m.table) && NewDescriptors(m, es) ==> Healthy(ApplyAll(m, es).table)
    decreases |es|
  {
    if es != [] {
      var e := es[0];
      if e.NewTimer? && TimerQueue.Ordered(m.queue) && TimerQueue.StampsBelow(m.queue, m.nextStamp) {
        TimerQueue.InsertOrdered(m.queue, TimerQueue.Timer(m.nextStamp, e.deadline));
      }
      if Healthy(m.table) { HealthyIff(m, e); }
      hide TimerQueue.Ordered, TimerQueue.StampsBelow, Healthy, NewDescriptor;
      EffectsKeep(Apply(m, e), es[1..]);
    }
  }
}

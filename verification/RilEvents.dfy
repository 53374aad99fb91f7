/**
 * ril_event.cpp on the heap: circular doubly linked event lists and the sorted timer list.
 * `TimerQueue` says what the lists stand for.
 */
module RilEvents {
  import opened Options
  import opened Timevals
  import opened TimerQueue

  class RilEvent {
    var next: RilEvent?
    var prev: RilEvent?
    var fd: int
    var index: int
    var persist: bool
    var timeout: Timeval
    var param: int
    ghost var stamp: nat  // number of the ril_timer_add call that set `timeout`

    constructor ()
      ensures next == null && prev == null && index == -1
    {
      next, prev, fd, index, persist, timeout, param, stamp := null, null, -1, -1, false, Timeval(0, 0), 0, 0;
    }
  }

  /** A well-formed circular doubly linked list over `nodes`: the head and the events s, in order. */
  ghost predicate Ring(head: RilEvent, s: seq<RilEvent>, nodes: set<RilEvent>)
    reads nodes`next, nodes`prev
  {
    && head in nodes
    && (forall i :: 0 <= i < |s| ==> s[i] in nodes && s[i] != head)
    && (forall i {:trigger s[i].next} :: 0 <= i < |s| - 1 ==> s[i].next == s[i + 1])
    && (forall i {:trigger s[i].prev} :: 0 < i < |s| ==> s[i].prev == s[i - 1])
    && head.next == First(head, s)
    && head.prev == Last(head, s)
    && (s != [] ==> s[0].prev == head && s[|s| - 1].next == head)
  }

  ghost function First(head: RilEvent, s: seq<RilEvent>): RilEvent {
    if s == [] then head else s[0]
  }

  ghost function Last(head: RilEvent, s: seq<RilEvent>): RilEvent {
    if s == [] then head else s[|s| - 1]
  }

  /** No event is on the list twice: following prev from two places at once would reach the head early. */
  lemma {:induction false} RingDistinct(head: RilEvent, s: seq<RilEvent>, nodes: set<RilEvent>, i: nat, j: nat)
    requires Ring(head, s, nodes) && i < j < |s|
    ensures s[i] != s[j]
  {
    if s[i] == s[j] {
      assert s[j].prev == s[j - 1];
      if i > 0 { RingDistinct(head, s, nodes, i - 1, j - 1); }
    }
  }

  lemma RingAllDistinct(head: RilEvent, s: seq<RilEvent>, nodes: set<RilEvent>)
    requires Ring(head, s, nodes)
    ensures forall i, j :: 0 <= i < j < |s| ==> s[i] != s[j]
  {
    forall i: nat, j | i < j < |s| ensures s[i] != s[j] { RingDistinct(head, s, nodes, i, j); }
  }

  ghost function InsertedAt(s: seq<RilEvent>, k: nat, ev: RilEvent): (r: seq<RilEvent>)
    requires k <= |s|
    ensures |r| == |s| + 1
    ensures forall i :: 0 <= i < |r| ==> r[i] == if i < k then s[i] else if i == k then ev else s[i - 1]
  {
    s[..k] + [ev] + s[k..]
  }

  ghost function RemovedAt(s: seq<RilEvent>, k: nat): (r: seq<RilEvent>)
    requires k < |s|
    ensures |r| == |s| - 1
    ensures forall i :: 0 <= i < |r| ==> r[i] == if i < k then s[i] else s[i + 1]
  {
    s[..k] + s[k + 1..]
  }

  /** What the ring says about its first event. */
  lemma RingFirst(head: RilEvent, s: seq<RilEvent>, nodes: set<RilEvent>)
    requires Ring(head, s, nodes)
    ensures head in nodes && head.next == First(head, s)
    ensures s != [] ==> s[0] in nodes && s[0] != head && s[0].next == First(head, s[1..])
  {
  }

  lemma RingMembers(head: RilEvent, s: seq<RilEvent>, nodes: set<RilEvent>)
    requires Ring(head, s, nodes)
    ensures forall i :: 0 <= i < |s| ==> s[i] in nodes
  {
  }

  method InitList(list: RilEvent)
    modifies list
    ensures Ring(list, [], {list}) && list.fd == -1
  {
    list.next, list.prev, list.fd := list, list, -1;
  }

  /** addToList: links ev in front of `list`, which is the k-th event of the ring, or its head. */
  method AddToList(ev: RilEvent, list: RilEvent, ghost head: RilEvent, ghost s: seq<RilEvent>,
      ghost nodes: set<RilEvent>, ghost k: nat)
    requires Ring(head, s, nodes) && k <= |s| && ev !in nodes
    requires list == if k < |s| then s[k] else head
    modifies nodes`next, nodes`prev, ev`next, ev`prev
    ensures Ring(head, InsertedAt(s, k, ev), nodes + {ev})
  {
    RingAllDistinct(head, s, nodes);
    assert list.prev == if k == 0 then head else s[k - 1];
    ev.next := list;
    ev.prev := list.prev;
    ev.prev.next := ev;
    list.prev := ev;
    RingWith(head, s, nodes, k, ev);
  }

  /** Ring with one node linked in between its neighbours. */
  lemma RingWith(head: RilEvent, s: seq<RilEvent>, nodes: set<RilEvent>, k: nat, ev: RilEvent)
    requires k <= |s| && ev !in nodes && head in nodes
    requires forall i :: 0 <= i < |s| ==> s[i] in nodes && s[i] != head
    requires forall i {:trigger s[i].next} :: 0 <= i < |s| - 1 && i + 1 != k ==> s[i].next == s[i + 1]
    requires forall i {:trigger s[i].prev} :: 0 < i < |s| && i != k ==> s[i].prev == s[i - 1]
    requires head.next == (if k == 0 then ev else s[0]) && head.prev == (if k == |s| then ev else s[|s| - 1])
    requires s != [] ==> (k != 0 ==> s[0].prev == head) && (k != |s| ==> s[|s| - 1].next == head)
    requires var before, after := if k == 0 then head else s[k - 1], if k < |s| then s[k] else head;
             before.next == ev && ev.prev == before && ev.next == after && after.prev == ev
    ensures Ring(head, InsertedAt(s, k, ev), nodes + {ev})
  {
  }

  /** removeFromList: unlinks ev, the k-th event of the ring, and clears its links. */
  method RemoveFromList(ev: RilEvent, ghost head: RilEvent, ghost s: seq<RilEvent>, ghost nodes: set<RilEvent>,
      ghost k: nat)
    requires Ring(head, s, nodes) && k < |s| && s[k] == ev
    modifies nodes`next, nodes`prev
    ensures Ring(head, RemovedAt(s, k), nodes - {ev}) && ev.next == null && ev.prev == null
  {
    RingAllDistinct(head, s, nodes);
    assert ev.next == if k == |s| - 1 then head else s[k + 1];
    assert ev.prev == if k == 0 then head else s[k - 1];
    ev.next.prev := ev.prev;
    ev.prev.next := ev.next;
    ev.next := null;
    ev.prev := null;
    RingWithout(head, s, nodes, k);
  }

  /** Ring once its k-th event is bypassed on both sides. */
  lemma RingWithout(head: RilEvent, s: seq<RilEvent>, nodes: set<RilEvent>, k: nat)
    requires k < |s| && head in nodes
    requires forall i :: 0 <= i < |s| ==> s[i] in nodes && s[i] != head
    requires forall i, j :: 0 <= i < j < |s| ==> s[i] != s[j]
    requires forall i {:trigger s[i].next} :: 0 <= i < |s| - 1 && i != k && i + 1 != k ==> s[i].next == s[i + 1]
    requires forall i {:trigger s[i].prev} :: 0 < i < |s| && i != k && i - 1 != k ==> s[i].prev == s[i - 1]
    requires k != 0 ==> head.next == s[0] && s[0].prev == head
    requires k != |s| - 1 ==> head.prev == s[|s| - 1] && s[|s| - 1].next == head
    requires var before, after := if k == 0 then head else s[k - 1], if k < |s| - 1 then s[k + 1] else head;
             before.next == after && after.prev == before
    ensures Ring(head, RemovedAt(s, k), nodes - {s[k]})
  {
  }

  /** One call of an event's function: ev->func(ev->fd, 0, ev->param). */
  datatype Call = Call(fd: int, param: int)

  /** The calls that firing the given events makes. */
  ghost function CallsOf(evs: seq<RilEvent>): (r: seq<Call>)
    reads evs`fd, evs`param
    ensures |r| == |evs| && forall i :: 0 <= i < |evs| ==> r[i] == Call(evs[i].fd, evs[i].param)
  {
    if evs == [] then [] else CallsOf(evs[..|evs| - 1]) + [Call(evs[|evs| - 1].fd, evs[|evs| - 1].param)]
  }

  /** timer_list and pending_list. */
  class EventLists {
    const timerList: RilEvent
    const pendingList: RilEvent
    var calls: seq<Call>                  // every event function called so far, in order

    ghost var timers: seq<RilEvent>       // the events on timer_list
    ghost var timerNodes: set<RilEvent>
    ghost var queue: seq<Timer>           // what they stand for
    ghost var pending: seq<RilEvent>      // the events on pending_list
    ghost var pendingNodes: set<RilEvent>
    ghost var nextStamp: nat

    /** queue says what the timer events hold. */
    ghost predicate QueueValid()
      reads this, timerNodes`stamp, timerNodes`timeout
    {
      && |timers| == |queue|
      && (forall i :: 0 <= i < |timers| ==>
            && timers[i] in timerNodes
            && queue[i] == Timer(timers[i].stamp, timers[i].timeout.Micros())
            && timers[i].timeout.Normalised())
    }

    /** Both lists are well formed and disjoint. */
    ghost predicate Linked()
      reads this, timerNodes`next, timerNodes`prev, timerNodes`stamp, timerNodes`timeout,
            pendingNodes`next, pendingNodes`prev
    {
      && Ring(timerList, timers, timerNodes)
      && Ring(pendingList, pending, pendingNodes)
      && timerNodes !! pendingNodes
      && QueueValid()
    }

    /** ... and timer_list is in firing order. */
    ghost predicate Valid()
      reads this, timerNodes`next, timerNodes`prev, timerNodes`stamp, timerNodes`timeout,
            pendingNodes`next, pendingNodes`prev
    {
      Linked() && Ordered(queue) && StampsBelow(queue, nextStamp)
    }

    constructor ()
      ensures Valid() && fresh(timerList) && fresh(pendingList)
      ensures timers == [] && timerNodes == {timerList} && queue == [] && nextStamp == 0
      ensures pending == [] && pendingNodes == {pendingList} && calls == []
    {
      timerList := new RilEvent();
      pendingList := new RilEvent();
      calls, queue, timers, pending, nextStamp := [], [], [], [], 0;
      new;
      timerNodes, pendingNodes := {timerList}, {pendingList};
      InitList(timerList);
      InitList(pendingList);
    }

    /** ril_timer_add at time now; a null tv does nothing. */
    method TimerAdd(ev: RilEvent, tv: Option<Timeval>, now: Timeval)
      requires Valid() && ev !in timerNodes && ev !in pendingNodes
      requires tv.Some? ==> 0 <= now.usec + tv.value.usec < 2_000_000   // what one carry can normalise
      modifies this`timers, this`timerNodes, this`queue, this`nextStamp, timerNodes`next, timerNodes`prev,
               ev`next, ev`prev, ev`fd, ev`timeout, ev`stamp
      ensures Valid()
      ensures tv.None? ==> timers == old(timers) && timerNodes == old(timerNodes)
      ensures tv.None? ==> queue == old(queue) && nextStamp == old(nextStamp)
      ensures tv.Some? ==>
        var t := Timer(old(nextStamp), now.Micros() + tv.value.Micros());
        && queue == Insert(old(queue), t)
        && timers == InsertedAt(old(timers), FirstDueAt(old(queue), t.deadline), ev)
        && timerNodes == old(timerNodes) + {ev}
        && nextStamp == old(nextStamp) + 1
    {
      hide Ring, Ordered, StampsBelow, Insert, InsertedAt;
      if tv.Some? {
        var deadline := Timevals.TimerAdd(now, tv.value);
        var list, k := FindInsertion(deadline);
        ev.fd := -1;
        ev.timeout := deadline;
        ev.stamp := nextStamp;
        ghost var t := Timer(nextStamp, now.Micros() + tv.value.Micros());
        InsertOrdered(queue, t);
        LinkTimer(ev, list, k, t);
        nextStamp := nextStamp + 1;
      }
    }

    /** The walk of ril_timer_add: stops at the first timer that is not earlier, or at the list head. */
    method FindInsertion(deadline: Timeval) returns (list: RilEvent, ghost k: nat)
      requires Valid() && deadline.Normalised()
      ensures k == FirstDueAt(queue, deadline.Micros())
      ensures list == if k < |timers| then timers[k] else timerList
    {
      k := 0;
      list := timerList.next;
      while TimerLess(list.timeout, deadline) && list != timerList
        invariant 0 <= k <= |queue|
        invariant list == if k < |timers| then timers[k] else timerList
        invariant forall i :: 0 <= i < k ==> queue[i].deadline < deadline.Micros()
        decreases |queue| - k
      {
        TimerLessIsOrder(list.timeout, deadline);
        assert list.next == if k + 1 < |timers| then timers[k + 1] else timerList;
        list := list.next;
        k := k + 1;
      }
      if k < |queue| {
        TimerLessIsOrder(list.timeout, deadline);
      }
      FirstDueAtUnique(queue, deadline.Micros(), k);
    }

    /** The linking step of ril_timer_add, once the place in the list is known. */
    method LinkTimer(ev: RilEvent, list: RilEvent, ghost k: nat, ghost t: Timer)
      requires Linked() && ev !in timerNodes && ev !in pendingNodes
      requires ev.timeout.Normalised() && t == Timer(nextStamp, ev.timeout.Micros()) && ev.stamp == nextStamp
      requires k == FirstDueAt(queue, t.deadline) && list == if k < |timers| then timers[k] else timerList
      modifies this`timers, this`timerNodes, this`queue, timerNodes`next, timerNodes`prev, ev`next, ev`prev
      ensures Linked()
      ensures queue == Insert(old(queue), t)
      ensures timers == InsertedAt(old(timers), k, ev) && timerNodes == old(timerNodes) + {ev}
    {
      hide Ring, FirstDueAt;
      ghost var s, nodes, q := timers, timerNodes, queue;
      timers, timerNodes, queue := InsertedAt(s, k, ev), nodes + {ev}, Insert(q, t);
      AddToList(ev, list, timerList, s, nodes, k);
    }

    /** Takes the first timer off timer_list; `next` is the one behind it, or the list head. */
    method UnlinkFirst() returns (tev: RilEvent, next: RilEvent)
      requires Linked() && timers != []
      modifies this`timers, this`timerNodes, this`queue, timerNodes`next, timerNodes`prev
      ensures Linked() && tev == old(timers)[0] && next == First(timerList, timers)
      ensures timers == old(timers)[1..] && queue == old(queue)[1..] && timerNodes == old(timerNodes) - {tev}
    {
      hide Ring;
      RingFirst(timerList, timers, timerNodes);
      tev := timerList.next;
      next := tev.next;
      ghost var s, nodes := timers, timerNodes;
      timers, timerNodes, queue := s[1..], nodes - {tev}, queue[1..];
      assert RemovedAt(s, 0) == timers;
      RemoveFromList(tev, timerList, s, nodes, 0);
      RingMembers(timerList, timers, timerNodes);
    }

    /** An event goes to the end of pending_list. */
    method Enqueue(rev: RilEvent)
      requires Linked() && rev !in timerNodes && rev !in pendingNodes
      modifies this`pending, this`pendingNodes, pendingNodes`next, pendingNodes`prev, rev`next, rev`prev
      ensures Linked() && pending == old(pending) + [rev] && pendingNodes == old(pendingNodes) + {rev}
    {
      hide Ring;
      RingFirst(pendingList, pending, pendingNodes);
      AddToList(rev, pendingList, pendingList, pending, pendingNodes, |pending|);
      assert InsertedAt(pending, |pending|, rev) == pending + [rev];
      pending, pendingNodes := pending + [rev], pendingNodes + {rev};
    }

    /** processTimeouts at time now: every timer whose deadline has passed moves to the end of pending_list. */
    method ProcessTimeouts(now: Timeval)
      requires Valid() && now.Normalised()
      modifies this`timers, this`timerNodes, this`queue, this`pending, this`pendingNodes,
               timerNodes`next, timerNodes`prev, pendingNodes`next, pendingNodes`prev
      ensures Valid()
      ensures
        var k := FirstDueAt(old(queue), now.Micros());
        timers == old(timers)[k..] && queue == old(queue)[k..] && pending == old(pending) + old(timers)[..k]
      ensures timerNodes + pendingNodes == old(timerNodes + pendingNodes)
    {
      hide Ring, Ordered, StampsBelow;
      RingFirst(timerList, timers, timerNodes);
      ghost var k := 0;
      var tev: RilEvent := timerList.next;
      while tev != timerList && TimerLess(tev.timeout, now)
        invariant 0 <= k <= |old(timers)|
        invariant timers == old(timers)[k..] && queue == old(queue)[k..] && pending == old(pending) + old(timers)[..k]
        invariant Linked()
        invariant timerNodes + pendingNodes == old(timerNodes + pendingNodes)
        invariant tev == First(timerList, timers)
        invariant forall i :: 0 <= i < k ==> old(queue)[i].deadline < now.Micros()
        decreases |timers|
      {
        TimerLessIsOrder(tev.timeout, now);
        assert queue[0] == old(queue)[k];
        assert old(timers)[..k + 1] == old(timers)[..k] + [timers[0]];
        var next;
        tev, next := UnlinkFirst();
        Enqueue(tev);
        tev := next;
        k := k + 1;
      }
      RingFirst(timerList, timers, timerNodes);
      if timers != [] {
        TimerLessIsOrder(tev.timeout, now);
        assert queue[0] == old(queue)[k];
      }
      FirstDueAtUnique(old(queue), now.Micros(), k);
      OrderedSuffix(old(queue), k, nextStamp);
    }

    /** One round of firePending: the first pending event is unlinked and its function called. */
    method FireFirst() returns (next: RilEvent)
      requires Linked() && pending != []
      modifies this`calls, this`pending, this`pendingNodes, pendingNodes`next, pendingNodes`prev
      ensures Linked()
      ensures pending == old(pending)[1..] && pendingNodes == old(pendingNodes) - {old(pending)[0]}
      ensures calls == old(calls) + [Call(old(pending)[0].fd, old(pending)[0].param)]
      ensures next == First(pendingList, pending)
    {
      hide Ring;
      RingFirst(pendingList, pending, pendingNodes);
      var ev: RilEvent := pendingList.next;
      next := ev.next;
      RemoveFromList(ev, pendingList, pending, pendingNodes, 0);
      assert RemovedAt(pending, 0) == pending[1..];
      pending, pendingNodes := pending[1..], pendingNodes - {ev};
      calls := calls + [Call(ev.fd, ev.param)];
    }

    /** calcNextTimeout: None stands for the -1 result, "block indefinitely". */
    method CalcNextTimeout(now: Timeval) returns (tv: Option<Timeval>)
      requires Valid() && now.Normalised()
      ensures tv.None? <==> queue == []
      ensures tv.Some? ==> tv.value.Normalised() && tv.value.Micros() == TimeToFirst(queue, now.Micros())
    {
      hide Ring;
      RingFirst(timerList, timers, timerNodes);
      var tev: RilEvent := timerList.next;
      if tev == timerList {
        return None;
      }
      TimerLessIsOrder(now, tev.timeout);
      tv := Some(if TimerLess(now, tev.timeout) then TimerSub(tev.timeout, now) else Timeval(0, 0));
    }
  }
}

/** ril_event.cpp on the heap, continued: the watch table. */
module RilWatch {
  import opened Timevals
  import opened RilEvents
  import W = WatchSlots

  const MAX_FD_EVENTS := 8

  class WatchTable {
    const watchTable: array<RilEvent?>
    var readFds: set<int>
    var nfds: int

    ghost var slots: seq<W.Slot>       // what the table holds
    ghost var known: set<RilEvent>     // every event initialised by ril_event_set

    ghost function Table(): W.Table
      reads `slots, `readFds, `nfds
    {
      W.Table(slots, readFds, nfds)
    }

    /** watch_table[i] == ev iff ev.index == i, for every initialised event. */
    ghost predicate Indexed()
      reads `slots, `known, watchTable, known`index, known`fd, known`persist
    {
      && watchTable.Length == |slots| == MAX_FD_EVENTS
      && (forall i :: 0 <= i < watchTable.Length && watchTable[i] == null ==> slots[i] == W.Empty)
      && (forall i :: 0 <= i < watchTable.Length && watchTable[i] != null ==> Watched(watchTable[i], i))
      && (forall ev :: ev in known && 0 <= ev.index < watchTable.Length ==> watchTable[ev.index] == ev)
    }

    ghost predicate Watched(ev: RilEvent, i: nat)
      reads `slots, `known, known`index, known`fd, known`persist
    {
      && ev in known && ev.index == i && 0 <= ev.fd
      && i < |slots| && slots[i] == W.Watch(ev.fd, ev.persist)
    }

    ghost predicate Valid()
      reads this, watchTable, known`index, known`fd, known`persist
    {
      Indexed()
    }

    /** readFds and nfds agree with the watched descriptors, which are distinct. */
    ghost predicate Healthy()
      reads `slots, `readFds, `nfds
    {
      W.Coherent(Table()) && W.DistinctFds(slots)
    }

    /** The watch part of ril_event_init. */
    constructor ()
      ensures Valid() && Healthy() && fresh(watchTable) && known == {}
      ensures Table() == W.Table(seq(MAX_FD_EVENTS, _ => W.Empty), {}, 0)
    {
      watchTable := new RilEvent?[MAX_FD_EVENTS](_ => null);
      readFds, nfds, known := {}, 0, {};
      slots := seq(MAX_FD_EVENTS, _ => W.Empty);
      new;
      assert W.Fds(slots) == {};
    }

    /** ril_event_set on an event that is not watched. */
    method EventSet(ev: RilEvent, fd: int, persist: bool, param: int)
      requires Valid() && (ev in known ==> ev.index < 0)
      modifies this`known, ev`fd, ev`index, ev`persist, ev`param, ev`timeout, ev`next, ev`prev
      ensures Valid() && known == old(known) + {ev}
      ensures ev.fd == fd && ev.persist == persist && ev.param == param && ev.index == -1
    {
      assert forall i :: 0 <= i < watchTable.Length && watchTable[i] != null ==> Watched(watchTable[i], i);
      ev.next, ev.prev, ev.timeout := null, null, Timeval(0, 0);
      ev.fd, ev.index, ev.persist, ev.param := fd, -1, persist, param;
      known := known + {ev};
      forall i | 0 <= i < watchTable.Length && watchTable[i] != null ensures Watched(watchTable[i], i) {
        assert old(Watched(watchTable[i], i));
      }
    }

    lemma TableShape()
      requires Valid()
      ensures watchTable.Length == |slots| == MAX_FD_EVENTS
      ensures forall i :: 0 <= i < MAX_FD_EVENTS ==>
        slots[i] ==
          if watchTable[i] == null || watchTable[i].fd < 0 then W.Empty
          else W.Watch(watchTable[i].fd, watchTable[i].persist)
      ensures forall i :: 0 <= i < MAX_FD_EVENTS && watchTable[i] != null ==>
          watchTable[i] in known && 0 <= watchTable[i].fd && watchTable[i].index == i
      ensures forall i, j :: 0 <= i < j < MAX_FD_EVENTS && watchTable[i] != null ==> watchTable[i] != watchTable[j]
    {
    }

    /** watch_table[i] = ev */
    method FillSlot(ev: RilEvent, i: nat)
      requires Indexed() && i < MAX_FD_EVENTS && watchTable[i] == null
      requires ev in known && ev.index < 0 && 0 <= ev.fd
      modifies this`slots, watchTable, ev`index
      ensures Indexed() && ev.index == i
      ensures forall j :: 0 <= j < watchTable.Length ==> watchTable[j] == old(watchTable[j]) || watchTable[j] == ev
      ensures slots == old(slots)[i := W.Watch(ev.fd, ev.persist)]
    {
      watchTable[i] := ev;
      ev.index := i;
      slots := slots[i := W.Watch(ev.fd, ev.persist)];
    }

    /** watch_table[i] = NULL */
    method ClearSlot(ev: RilEvent, i: nat)
      requires Indexed() && i < MAX_FD_EVENTS && watchTable[i] == ev
      modifies this`slots, watchTable, ev`index
      ensures Indexed() && ev.index == -1
      ensures slots == old(slots)[i := W.Empty]
      ensures watchTable[i] == null
      ensures forall j :: 0 <= j < MAX_FD_EVENTS && j != i ==> watchTable[j] == old(watchTable[j])
    {
      watchTable[i] := null;
      ev.index := -1;
      slots := slots[i := W.Empty];
    }

    /**
     * ril_event_add: takes the first free slot; with none free the event is dropped. A descriptor that is watched
     * already is watched twice.
     */
    method EventAdd(ev: RilEvent)
      requires Valid() && ev in known && ev.index < 0 && 0 <= ev.fd
      modifies this`readFds, this`nfds, this`slots, watchTable, ev`index
      ensures Valid() && Table() == W.Add(old(Table()), ev.fd, ev.persist)
      ensures old(Healthy()) ==> (Healthy() <==> W.FirstFree(old(slots)) == MAX_FD_EVENTS || ev.fd !in old(readFds))
      ensures forall i :: 0 <= i < watchTable.Length ==> watchTable[i] == old(watchTable[i]) || watchTable[i] == ev
      ensures ev.index == if W.FirstFree(old(slots)) < MAX_FD_EVENTS then W.FirstFree(old(slots)) else old(ev.index)
    {
      hide W.Coherent, W.DistinctFds, W.Fds, Indexed;
      AddHealthyIff(ev);
      var i := FreeSlot();
      if i < MAX_FD_EVENTS {
        FillSlot(ev, i);
        readFds := readFds + {ev.fd};
        if ev.fd >= nfds { nfds := ev.fd + 1; }
      }
    }

    lemma AddHealthyIff(ev: RilEvent)
      requires Valid() && 0 <= ev.fd
      ensures Healthy() ==>
        var t := W.Add(Table(), ev.fd, ev.persist);
        W.Coherent(t) && (W.DistinctFds(t.slots) <==> W.FirstFree(slots) == MAX_FD_EVENTS || ev.fd !in readFds)
    {
      if Healthy() {
        W.AddKeepsCoherent(Table(), ev.fd, ev.persist);
        W.AddKeepsDistinct(Table(), ev.fd, ev.persist);
      }
    }

    /** The scan of ril_event_add for a free slot. */
    method FreeSlot() returns (i: nat)
      requires Indexed()
      ensures watchTable.Length == |slots| == MAX_FD_EVENTS
      ensures i == W.FirstFree(slots)
      ensures i < MAX_FD_EVENTS ==> watchTable[i] == null
    {
      i := 0;
      while i < MAX_FD_EVENTS && watchTable[i] != null
        invariant i <= MAX_FD_EVENTS
        invariant forall j :: 0 <= j < i ==> slots[j].Watch?
      {
        i := i + 1;
      }
      W.FirstFreeUnique(slots, i);
    }

    /** removeWatch */
    method RemoveWatch(ev: RilEvent, index: nat)
      requires Valid() && index < MAX_FD_EVENTS && watchTable[index] == ev
      modifies this`readFds, this`nfds, this`slots, watchTable, ev`index
      ensures Valid() && Table() == W.Remove(old(Table()), index) && watchTable[index] == null && ev.index == -1
      ensures old(Healthy()) ==> Healthy()
      ensures forall i :: 0 <= i < MAX_FD_EVENTS && i != index ==> watchTable[i] == old(watchTable[i])
    {
      assert Watched(ev, index);
      RemoveHealthy(index);
      hide Healthy, Indexed, W.Remove;
      Unwatch(ev, index);
      HealthIs();
    }

    method Unwatch(ev: RilEvent, index: nat)
      requires Indexed() && index < MAX_FD_EVENTS && watchTable[index] == ev
      modifies this`readFds, this`nfds, this`slots, watchTable, ev`index
      ensures Indexed() && Table() == W.Remove(old(Table()), index) && watchTable[index] == null && ev.index == -1
      ensures forall i :: 0 <= i < MAX_FD_EVENTS && i != index ==> watchTable[i] == old(watchTable[i])
    {
      assert Watched(ev, index);
      hide Indexed;
      ClearSlot(ev, index);
      readFds := readFds - {ev.fd};
      if ev.fd + 1 == nfds {
        var n := LargestWatched();
        nfds := n + 1;
      }
    }

    lemma HealthIs()
      ensures Healthy() <==> W.Coherent(Table()) && W.DistinctFds(slots)
    {
    }

    lemma RemoveHealthy(index: nat)
      requires index < |slots| && slots[index].Watch?
      ensures Healthy() ==> var t := W.Remove(Table(), index); W.Coherent(t) && W.DistinctFds(t.slots)
    {
      if Healthy() {
        assert W.Watches(slots, index, slots[index].fd);
        W.RemoveCoherentIff(Table(), index);
        W.RemoveKeepsDistinct(Table(), index);
      }
    }

    /** The loop of removeWatch that finds the largest fd still watched. */
    method LargestWatched() returns (n: nat)
      requires Indexed()
      ensures n == W.LargestFd(slots)
    {
      n := 0;
      for i := 0 to MAX_FD_EVENTS
        invariant n == W.LargestFd(slots[..i])
      {
        assert slots[..i + 1][..i] == slots[..i];
        var rev := watchTable[i];
        if rev != null && rev.fd > n {
          n := rev.fd;
        }
      }
      assert slots[..MAX_FD_EVENTS] == slots;
    }

    /** ril_event_del: an event that is not watched is left alone. */
    method EventDel(ev: RilEvent)
      requires Valid() && ev in known
      modifies this`readFds, this`nfds, this`slots, watchTable, ev`index
      ensures Valid() && (old(Healthy()) ==> Healthy())
      ensures forall i :: 0 <= i < watchTable.Length ==> watchTable[i] == old(watchTable[i]) || watchTable[i] == null
      ensures 0 <= old(ev.index) < MAX_FD_EVENTS ==> Table() == W.Remove(old(Table()), old(ev.index)) && ev.index == -1
      ensures !(0 <= old(ev.index) < MAX_FD_EVENTS) ==> Table() == old(Table()) && ev.index == old(ev.index)
    {
      if ev.index < 0 || ev.index >= MAX_FD_EVENTS {
        return;
      }
      RemoveWatch(ev, ev.index);
    }
  }
}

/** The values that `watch_table`, `readFds` and `nfds` stand for, and what the watch operations do to them. */
module WatchSlots {

  datatype Slot = Empty | Watch(fd: nat, persist: bool)

  datatype Table = Table(slots: seq<Slot>, readFds: set<int>, nfds: int)

  ghost predicate Watches(slots: seq<Slot>, i: int, fd: int) {
    0 <= i < |slots| && slots[i].Watch? && slots[i].fd == fd
  }

  ghost function Fds(slots: seq<Slot>): set<int> {
    set i | 0 <= i < |slots| && slots[i].Watch? :: slots[i].fd
  }

  /** No two watched events share a file descriptor. */
  ghost predicate DistinctFds(slots: seq<Slot>) {
    forall i, j, fd :: Watches(slots, i, fd) && Watches(slots, j, fd) ==> i == j
  }

  /** select's first argument: one more than the largest watched fd, and 0 or 1 when nothing is watched. */
  ghost predicate NfdsBounds(slots: seq<Slot>, nfds: int) {
    && (forall fd :: fd in Fds(slots) ==> fd < nfds)
    && (if Fds(slots) == {} then nfds == 0 || nfds == 1 else nfds - 1 in Fds(slots))
  }

  ghost predicate Coherent(t: Table) {
    t.readFds == Fds(t.slots) && NfdsBounds(t.slots, t.nfds)
  }

  /** The slot ril_event_add picks; |slots| when the table is full. */
  function FirstFree(slots: seq<Slot>): (k: nat)
    ensures k <= |slots|
    ensures forall i :: 0 <= i < k ==> slots[i].Watch?
    ensures k < |slots| ==> slots[k].Empty?
  {
    if slots == [] || slots[0].Empty? then 0 else 1 + FirstFree(slots[1..])
  }

  lemma FirstFreeUnique(slots: seq<Slot>, k: nat)
    requires k <= |slots|
    requires forall i :: 0 <= i < k ==> slots[i].Watch?
    requires k < |slots| ==> slots[k].Empty?
    ensures k == FirstFree(slots)
  {
  }

  /** ril_event_add: silently does nothing when the table is full. */
  function Add(t: Table, fd: nat, persist: bool): Table {
    var k := FirstFree(t.slots);
    if k == |t.slots| then t
    else Table(t.slots[k := Watch(fd, persist)], t.readFds + {fd}, if fd >= t.nfds then fd + 1 else t.nfds)
  }

  /** The largest watched fd as the loop of removeWatch finds it, counting from 0. */
  function LargestFd(slots: seq<Slot>): (n: nat)
    ensures forall i :: 0 <= i < |slots| && slots[i].Watch? ==> slots[i].fd <= n
    ensures n == 0 || exists i :: Watches(slots, i, n)
  {
    if slots == [] then 0
    else
      var last := |slots| - 1;
      var n := LargestFd(slots[..last]);
      assert n == 0 || exists i :: Watches(slots[..last], i, n) && Watches(slots, i, n);
      if slots[last].Watch? && slots[last].fd > n then
        assert Watches(slots, last, slots[last].fd);
        slots[last].fd
      else n
  }

  /** removeWatch on a watched slot. */
  function Remove(t: Table, i: nat): (r: Table)
    requires i < |t.slots| && t.slots[i].Watch?
    ensures |r.slots| == |t.slots|
  {
    var slots := t.slots[i := Empty];
    var fd := t.slots[i].fd;
    Table(slots, t.readFds - {fd}, if fd + 1 == t.nfds then LargestFd(slots) + 1 else t.nfds)
  }

  lemma FdsOf(slots: seq<Slot>, i: nat)
    requires i < |slots| && slots[i].Watch?
    ensures slots[i].fd in Fds(slots)
  {
  }

  lemma SlotOf(slots: seq<Slot>, fd: int) returns (i: nat)
    requires fd in Fds(slots)
    ensures Watches(slots, i, fd)
  {
    i :| 0 <= i < |slots| && slots[i].Watch? && slots[i].fd == fd;
  }

  lemma AddKeepsCoherent(t: Table, fd: nat, persist: bool)
    requires Coherent(t)
    ensures Coherent(Add(t, fd, persist))
    ensures FirstFree(t.slots) < |t.slots| ==> Fds(Add(t, fd, persist).slots) == Fds(t.slots) + {fd}
  {
    var k := FirstFree(t.slots);
    if k < |t.slots| {
      var slots := t.slots[k := Watch(fd, persist)];
      assert Fds(slots) == Fds(t.slots) + {fd} by {
        assert Watches(slots, k, fd);
        forall f | f in Fds(t.slots) ensures f in Fds(slots) {
          var i := SlotOf(t.slots, f);
          FdsOf(slots, i);
        }
      }
    }
  }

  lemma AddKeepsDistinct(t: Table, fd: nat, persist: bool)
    requires DistinctFds(t.slots)
    ensures DistinctFds(Add(t, fd, persist).slots) <==> FirstFree(t.slots) == |t.slots| || fd !in Fds(t.slots)
  {
    var k := FirstFree(t.slots);
    if k < |t.slots| {
      var slots := Add(t, fd, persist).slots;
      assert forall i, f :: i != k ==> (Watches(slots, i, f) <==> Watches(t.slots, i, f));
      if fd in Fds(t.slots) {
        var i := SlotOf(t.slots, fd);
        assert Watches(slots, i, fd) && Watches(slots, k, fd);
      }
    }
  }

  /**
   * Removing a watch leaves readFds and nfds right exactly when no other slot watches the same fd:
   * FD_CLR clears the bit for every event on that descriptor.
   */
  lemma RemoveCoherentIff(t: Table, i: nat)
    requires Coherent(t) && i < |t.slots| && t.slots[i].Watch?
    ensures Coherent(Remove(t, i)) <==> forall j :: Watches(t.slots, j, t.slots[i].fd) ==> j == i
  {
    var fd := t.slots[i].fd;
    var slots := t.slots[i := Empty];
    assert Watches(t.slots, i, fd);
    forall f | f in Fds(slots) ensures f in Fds(t.slots) {
      var j := SlotOf(slots, f);
      FdsOf(t.slots, j);
    }
    if j :| Watches(t.slots, j, fd) && j != i {
      FdsOf(slots, j);
    } else {
      forall f | f in Fds(t.slots) && f != fd ensures f in Fds(slots) {
        var j := SlotOf(t.slots, f);
        FdsOf(slots, j);
      }
      assert fd !in Fds(slots) by {
        if fd in Fds(slots) {
          var j := SlotOf(slots, fd);
          assert Watches(t.slots, j, fd);
        }
      }
      assert Fds(slots) == Fds(t.slots) - {fd};
      RemoveKeepsNfds(t, i);
    }
  }

  lemma RemoveKeepsNfds(t: Table, i: nat)
    requires Coherent(t) && i < |t.slots| && t.slots[i].Watch?
    ensures NfdsBounds(Remove(t, i).slots, Remove(t, i).nfds)
  {
    var fd := t.slots[i].fd;
    var slots := t.slots[i := Empty];
    FdsOf(t.slots, i);
    if fd + 1 == t.nfds {
      forall f | f in Fds(slots) ensures f <= LargestFd(slots) {
        var j := SlotOf(slots, f);
      }
      var n := LargestFd(slots);
      if n != 0 {
        var j :| Watches(slots, j, n);
        FdsOf(slots, j);
      } else if Fds(slots) != {} {
        var f :| f in Fds(slots);
        var j := SlotOf(slots, f);
      }
    } else {
      var j := SlotOf(t.slots, t.nfds - 1);
      FdsOf(slots, j);
      forall f | f in Fds(slots) ensures f in Fds(t.slots) {
        var l := SlotOf(slots, f);
        FdsOf(t.slots, l);
      }
    }
  }

  lemma RemoveKeepsDistinct(t: Table, i: nat)
    requires i < |t.slots| && t.slots[i].Watch? && DistinctFds(t.slots)
    ensures DistinctFds(Remove(t, i).slots)
  {
    assert forall j, f :: Watches(Remove(t, i).slots, j, f) ==> Watches(t.slots, j, f);
  }

  /** Two events on one descriptor: deleting one stops select from watching the other. */
  lemma SharedFdLosesWatch()
    ensures var t := Add(Add(Table([Empty, Empty], {}, 0), 3, true), 3, true);
            && Coherent(t)
            && Watches(Remove(t, 0).slots, 1, 3)
            && 3 !in Remove(t, 0).readFds
            && !Coherent(Remove(t, 0))
  {
  }

  // ---- processReadReadies ----

  predicate Ready(slot: Slot, rfds: set<int>) {
    slot.Watch? && slot.fd in rfds
  }

  /** Watched slots, in slot order. */
  ghost predicate Increasing(found: seq<int>, slots: seq<Slot>) {
    && (forall k :: 0 <= k < |found| ==> 0 <= found[k] < |slots| && slots[found[k]].Watch?)
    && (forall j, k :: 0 <= j < k < |found| ==> found[j] < found[k])
  }

  /** The slots processReadReadies queues from slot i on, stopping once n events were found. */
  function ReadyScan(slots: seq<Slot>, rfds: set<int>, n: int, i: nat): (found: seq<int>)
    requires i <= |slots|
    ensures Increasing(found, slots)
    ensures forall k :: 0 <= k < |found| ==> i <= found[k] && Ready(slots[found[k]], rfds)
    ensures |found| <= if n < 0 then 0 else n
    decreases |slots| - i
  {
    if i == |slots| || n <= 0 then []
    else if Ready(slots[i], rfds) then [i] + ReadyScan(slots, rfds, n - 1, i + 1)
    else ReadyScan(slots, rfds, n, i + 1)
  }

  ghost function ReadySet(slots: seq<Slot>, rfds: set<int>, i: nat): set<int> {
    set k: int | i <= k < |slots| && Ready(slots[k], rfds)
  }

  lemma ReadySetStep(slots: seq<Slot>, rfds: set<int>, i: nat)
    requires i < |slots|
    ensures var rest := ReadySet(slots, rfds, i + 1);
      i !in rest && ReadySet(slots, rfds, i) == if Ready(slots[i], rfds) then rest + {i} else rest
  {
  }

  ghost predicate MissesNothing(slots: seq<Slot>, rfds: set<int>, n: int, i: nat)
    requires i <= |slots|
  {
    forall k :: k in ReadySet(slots, rfds, i) ==> k in ReadyScan(slots, rfds, n, i)
  }

  lemma MissesNothingStep(slots: seq<Slot>, rfds: set<int>, n: int, i: nat)
    requires i < |slots| && n > 0
    ensures MissesNothing(slots, rfds, n, i) <==>
      MissesNothing(slots, rfds, if Ready(slots[i], rfds) then n - 1 else n, i + 1)
  {
    ReadySetStep(slots, rfds, i);
    hide ReadySet;
  }

  lemma MissesNothingStop(slots: seq<Slot>, rfds: set<int>, n: int, i: nat)
    requires i == |slots| || (i < |slots| && n <= 0)
    ensures MissesNothing(slots, rfds, n, i) <==> ReadySet(slots, rfds, i) == {}
    ensures i == |slots| ==> ReadySet(slots, rfds, i) == {}
  {
  }

  /** The early exit on n misses nothing exactly when n is at least the number of ready slots. */
  lemma {:induction false} ReadyScanComplete(slots: seq<Slot>, rfds: set<int>, n: int, i: nat)
    requires i <= |slots|
    ensures MissesNothing(slots, rfds, n, i) <==> |ReadySet(slots, rfds, i)| <= if n < 0 then 0 else n
    decreases |slots| - i
  {
    hide MissesNothing, ReadySet;
    if i == |slots| || n <= 0 {
      MissesNothingStop(slots, rfds, n, i);
    } else {
      MissesNothingStep(slots, rfds, n, i);
      ReadySetStep(slots, rfds, i);
      if Ready(slots[i], rfds) {
        ReadyScanComplete(slots, rfds, n - 1, i + 1);
      } else {
        ReadyScanComplete(slots, rfds, n, i + 1);
      }
    }
  }

  /** With distinct descriptors there are no more ready slots than descriptors reported by select. */
  lemma {:induction false} ReadySlotsBounded(slots: seq<Slot>, rfds: set<int>, i: nat)
    requires i <= |slots| && DistinctFds(slots)
    ensures |ReadySet(slots, rfds, i)| <= |rfds|
    decreases |slots| - i
  {
    var all := ReadySet(slots, rfds, i);
    if i == |slots| {
      assert all == {};
    } else if Ready(slots[i], rfds) {
      var fewer := rfds - {slots[i].fd};
      ReadySlotsBounded(slots, fewer, i + 1);
      assert all == ReadySet(slots, fewer, i + 1) + {i} by {
        forall k: nat | i < k < |slots| && Ready(slots[k], rfds) ensures Ready(slots[k], fewer) {
          assert Watches(slots, k, slots[k].fd) && Watches(slots, i, slots[i].fd);
        }
      }
    } else {
      ReadySlotsBounded(slots, rfds, i + 1);
      assert all == ReadySet(slots, rfds, i + 1);
    }
  }

  /** Given select's own count, every ready watched slot is queued, once, in slot order. */
  lemma EarlyExitMissesNothing(slots: seq<Slot>, rfds: set<int>)
    requires DistinctFds(slots)
    ensures forall k: nat :: k < |slots| ==>
      (Ready(slots[k], rfds) <==> k in ReadyScan(slots, rfds, |rfds|, 0))
  {
    ReadySlotsBounded(slots, rfds, 0);
    ReadyScanComplete(slots, rfds, |rfds|, 0);
    forall k: nat | k < |slots| && Ready(slots[k], rfds) ensures k in ReadyScan(slots, rfds, |rfds|, 0) {
      assert k in ReadySet(slots, rfds, 0);
    }
  }

  datatype Swept = Swept(table: Table, found: seq<int>)

  /** processReadReadies from slot i on, with n events still to find: the new table, and the slots queued. */
  function Sweep(t: Table, rfds: set<int>, n: int, i: nat): (r: Swept)
    requires i <= |t.slots|
    ensures |r.table.slots| == |t.slots|
    decreases |t.slots| - i
  {
    if i == |t.slots| || n <= 0 then Swept(t, [])
    else if Ready(t.slots[i], rfds) then
      var rest := Sweep(if t.slots[i].persist then t else Remove(t, i), rfds, n - 1, i + 1);
      Swept(rest.table, [i] + rest.found)
    else Sweep(t, rfds, n, i + 1)
  }

  lemma SweepStep(t: Table, rfds: set<int>, n: int, i: nat)
    requires i < |t.slots| && n > 0
    ensures !Ready(t.slots[i], rfds) ==> Sweep(t, rfds, n, i) == Sweep(t, rfds, n, i + 1)
    ensures Ready(t.slots[i], rfds) ==>
      var rest := Sweep(if t.slots[i].persist then t else Remove(t, i), rfds, n - 1, i + 1);
      Sweep(t, rfds, n, i) == Swept(rest.table, [i] + rest.found)
  {
  }

  /** Clearing a slot that was already scanned does not change what is found. */
  lemma {:induction false} ScanIgnoresEarlier(s: seq<Slot>, s': seq<Slot>, rfds: set<int>, n: int, i: nat)
    requires |s| == |s'| && i <= |s| && s[i..] == s'[i..]
    ensures ReadyScan(s, rfds, n, i) == ReadyScan(s', rfds, n, i)
    decreases |s| - i
  {
    if i < |s| {
      assert s[i] == s[i..][0] && s'[i] == s'[i..][0];
      assert s[i + 1..] == s[i..][1..] && s'[i + 1..] == s'[i..][1..];
      ScanIgnoresEarlier(s, s', rfds, n - 1, i + 1);
      ScanIgnoresEarlier(s, s', rfds, n, i + 1);
    }
  }

  lemma {:induction false} SweepFinds(t: Table, rfds: set<int>, n: int, i: nat)
    requires i <= |t.slots|
    ensures Sweep(t, rfds, n, i).found == ReadyScan(t.slots, rfds, n, i)
    decreases |t.slots| - i
  {
    if i < |t.slots| && n > 0 {
      if Ready(t.slots[i], rfds) {
        var u := if t.slots[i].persist then t else Remove(t, i);
        SweepFinds(u, rfds, n - 1, i + 1);
        ScanIgnoresEarlier(t.slots, u.slots, rfds, n - 1, i + 1);
        hide Remove;
      } else {
        SweepFinds(t, rfds, n, i + 1);
      }
    }
  }

  /** Slot j after a sweep that found these slots. */
  function SweptSlot(slot: Slot, found: bool): Slot {
    if found && slot.Watch? && !slot.persist then Empty else slot
  }

  ghost predicate SweptSlots(slots: seq<Slot>, found: seq<int>, r: seq<Slot>) {
    |r| == |slots| && forall j :: 0 <= j < |slots| ==> r[j] == SweptSlot(slots[j], j in found)
  }

  lemma SweptSlotsMore(slots: seq<Slot>, rest: seq<Slot>, i: nat, found: seq<int>, r: seq<Slot>)
    requires i < |slots| && slots[i].Watch? && i !in found && SweptSlots(rest, found, r)
    requires rest == if slots[i].persist then slots else slots[i := Empty]
    ensures SweptSlots(slots, [i] + found, r)
  {
    assert forall j :: j in [i] + found <==> j == i || j in found;
  }

  /** The sweep queues what the scan finds; it removes the one-shot events among those and no other. */
  lemma {:induction false} SweepIsScan(t: Table, rfds: set<int>, n: int, i: nat)
    requires i <= |t.slots|
    ensures var Swept(r, found) := Sweep(t, rfds, n, i);
      found == ReadyScan(t.slots, rfds, n, i) && SweptSlots(t.slots, found, r.slots)
    decreases |t.slots| - i
  {
    SweepFinds(t, rfds, n, i);
    if i < |t.slots| && n > 0 {
      if Ready(t.slots[i], rfds) {
        var u := if t.slots[i].persist then t else Remove(t, i);
        SweepIsScan(u, rfds, n - 1, i + 1);
        var rest := Sweep(u, rfds, n - 1, i + 1);
        assert i !in rest.found;
        SweptSlotsMore(t.slots, u.slots, i, rest.found, rest.table.slots);
        hide SweptSlots, ReadyScan, Remove;
      } else {
        SweepIsScan(t, rfds, n, i + 1);
      }
    }
  }

  lemma {:induction false} SweepKeepsCoherent(t: Table, rfds: set<int>, n: int, i: nat)
    requires i <= |t.slots| && Coherent(t) && DistinctFds(t.slots)
    ensures Coherent(Sweep(t, rfds, n, i).table) && DistinctFds(Sweep(t, rfds, n, i).table.slots)
    decreases |t.slots| - i
  {
    if i < |t.slots| && n > 0 {
      if Ready(t.slots[i], rfds) {
        if t.slots[i].persist {
          SweepKeepsCoherent(t, rfds, n - 1, i + 1);
        } else {
          assert Watches(t.slots, i, t.slots[i].fd);
          RemoveCoherentIff(t, i);
          RemoveKeepsDistinct(t, i);
          SweepKeepsCoherent(Remove(t, i), rfds, n - 1, i + 1);
        }
      } else {
        SweepKeepsCoherent(t, rfds, n, i + 1);
      }
    }
  }
}

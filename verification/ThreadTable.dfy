/** The bounded move-to-front table of thread ids in ril.cpp, against the history of its registrations. */
module ThreadTable {
  const MAX_RIL_CHANNELS := 12   // SIM_COUNT == 2

  datatype Entry = Entry(pthread: int, cid: int)

  const NO_ENTRY := Entry(0, 0)

  /** The entries of other threads, in order. */
  ghost function Without(es: seq<Entry>, tid: int): seq<Entry> {
    if es == [] then []
    else if es[0].pthread == tid then Without(es[1..], tid)
    else [es[0]] + Without(es[1..], tid)
  }

  /** An unbounded move-to-front list: every registration goes to the front and replaces its thread's older one. */
  ghost function Recent(history: seq<Entry>): seq<Entry> {
    if history == [] then []
    else
      var e := history[|history| - 1];
      [e] + Without(Recent(history[..|history| - 1]), e.pthread)
  }

  ghost predicate DistinctThreads(es: seq<Entry>) {
    forall i, j :: 0 <= i < j < |es| ==> es[i].pthread != es[j].pthread
  }

  ghost predicate NonZero(es: seq<Entry>) {
    forall i :: 0 <= i < |es| ==> es[i].pthread != 0
  }

  lemma {:induction false} WithoutMembers(es: seq<Entry>, tid: int)
    ensures forall e :: e in Without(es, tid) <==> e in es && e.pthread != tid
    ensures DistinctThreads(es) ==> DistinctThreads(Without(es, tid))
  {
    if es != [] {
      WithoutMembers(es[1..], tid);
      assert es == [es[0]] + es[1..];
      var rest := Without(es[1..], tid);
      if DistinctThreads(es) {
        assert DistinctThreads(es[1..]);
        assert forall e :: e in rest ==> e in es[1..];
      }
    }
  }

  lemma {:induction false} RecentDistinct(history: seq<Entry>)
    requires NonZero(history)
    ensures DistinctThreads(Recent(history)) && NonZero(Recent(history))
  {
    if history != [] {
      var rest := history[..|history| - 1];
      RecentDistinct(rest);
      WithoutMembers(Recent(rest), history[|history| - 1].pthread);
      assert forall e :: e in Recent(rest) ==> e.pthread != 0;
    }
  }

  /** Registration i is the latest one of its thread. */
  ghost predicate Latest(history: seq<Entry>, i: int) {
    && 0 <= i < |history|
    && forall j :: i < j < |history| ==> history[j].pthread != history[i].pthread
  }

  ghost predicate Positions(history: seq<Entry>, at: seq<int>) {
    forall k :: 0 <= k < |at| ==> 0 <= at[k] < |history|
  }

  ghost predicate Decreasing(at: seq<int>) {
    forall k, l :: 0 <= k < l < |at| ==> at[k] > at[l]
  }

  ghost function EntriesAt(history: seq<Entry>, at: seq<int>): seq<Entry>
    requires Positions(history, at)
  {
    if at == [] then [] else [history[at[0]]] + EntriesAt(history, at[1..])
  }

  /** The positions of other threads' registrations. */
  ghost function OtherPositions(history: seq<Entry>, at: seq<int>, tid: int): seq<int>
    requires Positions(history, at)
  {
    if at == [] then []
    else if history[at[0]].pthread == tid then OtherPositions(history, at[1..], tid)
    else [at[0]] + OtherPositions(history, at[1..], tid)
  }

  lemma {:induction false} OtherMembers(history: seq<Entry>, at: seq<int>, tid: int)
    requires Positions(history, at)
    ensures forall i :: i in OtherPositions(history, at, tid) <==>
      i in at && 0 <= i < |history| && history[i].pthread != tid
  {
    if at != [] {
      OtherMembers(history, at[1..], tid);
      assert at == [at[0]] + at[1..];
    }
  }

  lemma {:induction false} OtherDecreasing(history: seq<Entry>, at: seq<int>, tid: int)
    requires Positions(history, at) && Decreasing(at)
    ensures Decreasing(OtherPositions(history, at, tid))
  {
    if at != [] {
      OtherDecreasing(history, at[1..], tid);
      OtherMembers(history, at[1..], tid);
      var tail := OtherPositions(history, at[1..], tid);
      assert forall k :: 0 <= k < |tail| ==> tail[k] in tail;
      assert forall i :: i in at[1..] ==> at[0] > i;
    }
  }

  lemma {:induction false} OtherEntries(history: seq<Entry>, at: seq<int>, tid: int)
    requires Positions(history, at)
    ensures Positions(history, OtherPositions(history, at, tid))
    ensures EntriesAt(history, OtherPositions(history, at, tid)) == Without(EntriesAt(history, at), tid)
  {
    if at != [] {
      OtherEntries(history, at[1..], tid);
      assert EntriesAt(history, at)[1..] == EntriesAt(history, at[1..]);
    }
  }

  lemma {:induction false} EntriesAtLonger(history: seq<Entry>, e: Entry, at: seq<int>)
    requires Positions(history, at)
    ensures Positions(history + [e], at) && EntriesAt(history + [e], at) == EntriesAt(history, at)
  {
    if at != [] {
      EntriesAtLonger(history, e, at[1..]);
    }
  }

  lemma {:induction false} EntriesAtIndex(history: seq<Entry>, at: seq<int>, k: nat)
    requires Positions(history, at) && k < |at|
    ensures |EntriesAt(history, at)| == |at| && EntriesAt(history, at)[k] == history[at[k]]
  {
    if |at| > 1 {
      EntriesAtIndex(history, at[1..], if k == 0 then 0 else k - 1);
    }
  }

  /** `at` lists the latest registrations of all threads, newest first. */
  ghost predicate ByRecency(history: seq<Entry>, at: seq<int>) {
    Positions(history, at) && Decreasing(at) && forall i :: i in at <==> Latest(history, i)
  }

  /** Recent is what its name says: the latest registration of each thread, newest first. */
  lemma {:induction false} RecentIsByRecency(history: seq<Entry>) returns (at: seq<int>)
    ensures ByRecency(history, at) && Recent(history) == EntriesAt(history, at)
  {
    if history == [] {
      at := [];
    } else {
      var n, e := |history| - 1, history[|history| - 1];
      var rest := history[..n];
      assert history == rest + [e];
      var before := RecentIsByRecency(rest);
      var others := OtherPositions(rest, before, e.pthread);
      OtherMembers(rest, before, e.pthread);
      OtherDecreasing(rest, before, e.pthread);
      OtherEntries(rest, before, e.pthread);
      EntriesAtLonger(rest, e, others);
      at := [n] + others;
      NewestFirst(rest, e, before, others);
    }
  }

  lemma NewestFirst(rest: seq<Entry>, e: Entry, before: seq<int>, others: seq<int>)
    requires ByRecency(rest, before) && Positions(rest, others) && Decreasing(others)
    requires forall i :: i in others <==> i in before && 0 <= i < |rest| && rest[i].pthread != e.pthread
    ensures ByRecency(rest + [e], [|rest|] + others)
  {
    var history, at := rest + [e], [|rest|] + others;
    forall i ensures i in at <==> Latest(history, i) {
      if 0 <= i < |rest| {
        assert Latest(history, i) ==> history[|rest|].pthread != history[i].pthread;
        assert Latest(history, i) <==> Latest(rest, i) && rest[i].pthread != e.pthread by {
          assert forall j :: i < j < |rest| ==> history[j] == rest[j];
        }
      }
    }
  }

  /** What the table shows of a recency list: its first MAX_RIL_CHANNELS entries, then empty ones. */
  ghost function Shown(es: seq<Entry>, k: nat): Entry {
    if k < |es| then es[k] else NO_ENTRY
  }

  /** Where addThreadPid stops looking. */
  ghost predicate StopsAt(es: seq<Entry>, tid: int, i: nat) {
    && i <= MAX_RIL_CHANNELS
    && (forall k :: 0 <= k < i ==> Shown(es, k).pthread != 0 && Shown(es, k).pthread != tid)
    && (i < MAX_RIL_CHANNELS ==> Shown(es, i).pthread == 0 || Shown(es, i).pthread == tid)
  }

  lemma {:induction false} WithoutPrefix(es: seq<Entry>, tid: int, i: nat)
    requires i <= |es| && forall k :: 0 <= k < i ==> es[k].pthread != tid
    ensures Without(es, tid) == es[..i] + Without(es[i..], tid)
  {
    if i == 0 {
      assert es[0..] == es;
    } else {
      WithoutPrefix(es[1..], tid, i - 1);
      assert es[1..][i - 1..] == es[i..];
      assert es[..i] == [es[0]] + es[1..][..i - 1];
    }
  }

  lemma {:induction false} WithoutNone(es: seq<Entry>, tid: int)
    requires forall k :: 0 <= k < |es| ==> es[k].pthread != tid
    ensures Without(es, tid) == es
  {
    WithoutPrefix(es, tid, |es|);
  }

  /** Inclusion: dropping what falls off the end before or after the move shows the same table. */
  lemma MoveToFrontShown(es: seq<Entry>, e: Entry, i: nat, k: nat)
    requires DistinctThreads(es) && NonZero(es) && e.pthread != 0
    requires StopsAt(es, e.pthread, i) && k < MAX_RIL_CHANNELS
    ensures var gap := if i == MAX_RIL_CHANNELS then i - 1 else i;
      Shown([e] + Without(es, e.pthread), k) ==
      if k == 0 then e else if k <= gap then Shown(es, k - 1) else Shown(es, k)
  {
    assert i <= |es| by {
      var next := Shown(es, |es|);
    }
    assert forall n :: 0 <= n < i ==> es[n] == Shown(es, n);
    if i < MAX_RIL_CHANNELS && i < |es| {
      assert es[i].pthread == e.pthread;
      WithoutOne(es, e.pthread, i);
    } else {
      WithoutPrefix(es, e.pthread, i);
      WithoutEmpty(e.pthread);
    }
    hide Without, DistinctThreads, NonZero;
  }

  lemma WithoutEmpty(tid: int)
    ensures Without([], tid) == []
  {
  }

  lemma WithoutOne(es: seq<Entry>, tid: int, i: nat)
    requires DistinctThreads(es) && i < |es| && es[i].pthread == tid
    ensures Without(es, tid) == es[..i] + es[i + 1..]
  {
    WithoutPrefix(es, tid, i);
    assert es[i..][0] == es[i] && es[i..][1..] == es[i + 1..];
    WithoutNone(es[i + 1..], tid);
  }

  lemma RecentGrows(history: seq<Entry>, e: Entry)
    ensures Recent(history + [e]) == [e] + Without(Recent(history), e.pthread)
  {
  }

  class ThreadPids {
    const threadPid: array<Entry>
    ghost var history: seq<Entry>

    ghost predicate Valid()
      reads this, threadPid
    {
      && threadPid.Length == MAX_RIL_CHANNELS
      && NonZero(history)
      && forall k :: 0 <= k < MAX_RIL_CHANNELS ==> threadPid[k] == Shown(Recent(history), k)
    }

    /** The table as it is cleared at registration. */
    constructor ()
      ensures Valid() && history == [] && fresh(threadPid)
    {
      threadPid := new Entry[MAX_RIL_CHANNELS](_ => NO_ENTRY);
      history := [];
    }

    /** The search of addThreadPid: an empty entry, the thread's own, or the end of the table. */
    method FindEntry(tid: int) returns (i: nat)
      requires Valid()
      ensures StopsAt(Recent(history), tid, i)
    {
      hide Recent;
      i := 0;
      while i < MAX_RIL_CHANNELS && threadPid[i].pthread != 0 && threadPid[i].pthread != tid
        invariant 0 <= i <= MAX_RIL_CHANNELS
        invariant forall k :: 0 <= k < i ==>
          Shown(Recent(history), k).pthread != 0 && Shown(Recent(history), k).pthread != tid
      {
        i := i + 1;
      }
    }

    /** The shift of addThreadPid: the entries before `gap` move up by one, over the one at `gap`. */
    method ShiftUp(gap: nat)
      requires gap < threadPid.Length
      modifies threadPid
      ensures forall k :: 0 < k < threadPid.Length ==> threadPid[k] == old(threadPid[if k <= gap then k - 1 else k])
    {
      var j := gap;
      while j > 0
        invariant 0 <= j <= gap
        invariant forall k :: 0 <= k <= j ==> threadPid[k] == old(threadPid[k])
        invariant forall k :: j < k <= gap ==> threadPid[k] == old(threadPid[k - 1])
        invariant forall k :: gap < k < threadPid.Length ==> threadPid[k] == old(threadPid[k])
      {
        threadPid[j] := threadPid[j - 1];
        j := j - 1;
      }
    }

    /** The table holds the most recently registered distinct threads, newest first, with their latest ids. */
    method AddThreadPid(cid: int, tid: int)
      requires Valid() && tid != 0
      modifies this, threadPid
      ensures Valid() && history == old(history) + [Entry(tid, cid)]
    {
      ghost var es := Recent(history);
      RecentDistinct(history);
      RecentGrows(history, Entry(tid, cid));
      hide Recent, Without, StopsAt, DistinctThreads;
      var i := FindEntry(tid);
      StopsWithin(es, tid, i);
      ShiftUp(if i == MAX_RIL_CHANNELS then MAX_RIL_CHANNELS - 1 else i);
      threadPid[0] := Entry(tid, cid);
      history := history + [Entry(tid, cid)];
      forall k | 0 <= k < MAX_RIL_CHANNELS ensures threadPid[k] == Shown(Recent(history), k) {
        MoveToFrontShown(es, Entry(tid, cid), i, k);
      }
    }
  }

  lemma StopsWithin(es: seq<Entry>, tid: int, i: nat)
    requires StopsAt(es, tid, i)
    ensures i <= MAX_RIL_CHANNELS
  {
  }

  /** Row k of the table is the registration at[k], for the positions of the latest registrations, newest first. */
  lemma TableIsByRecency(table: ThreadPids) returns (at: seq<int>)
    requires table.Valid()
    ensures ByRecency(table.history, at)
    ensures forall k :: 0 <= k < MAX_RIL_CHANNELS ==>
      table.threadPid[k] == if k < |at| then table.history[at[k]] else NO_ENTRY
  {
    at := RecentIsByRecency(table.history);
    forall k | 0 <= k < |at|
      ensures |Recent(table.history)| == |at| && Recent(table.history)[k] == table.history[at[k]]
    {
      EntriesAtIndex(table.history, at, k);
    }
    assert at == [] ==> Recent(table.history) == [];
  }
}

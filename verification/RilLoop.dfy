/** ril_event.cpp on the heap, continued: lists and watch table together, and one pass of the event loop. */
module RilLoop {
  import opened Options
  import opened Timevals
  import TimerQueue
  import opened RilEvents
  import opened RilWatch
  import W = WatchSlots
  import opened LoopEffects

  /** The events in the given slots of a watch table. */
  ghost function EventsAt(evs: seq<RilEvent?>, found: seq<int>): (r: seq<RilEvent?>)
    ensures |r| == |found| && forall k :: 0 <= k < |found| && 0 <= found[k] < |evs| ==> r[k] == evs[found[k]]
  {
    if found == [] then [] else [if 0 <= found[0] < |evs| then evs[found[0]] else null] + EventsAt(evs, found[1..])
  }

  /** queued, followed by the events in the slots still to be queued, makes up all. */
  ghost predicate Splits(queued: seq<RilEvent>, evs: seq<RilEvent?>, found: seq<int>, all: seq<RilEvent?>) {
    queued + EventsAt(evs, found) == all
  }

  lemma SplitsStep(queued: seq<RilEvent>, evs: seq<RilEvent?>, i: nat, found: seq<int>, all: seq<RilEvent?>,
      ev: RilEvent)
    requires Splits(queued, evs, [i] + found, all) && i < |evs| && evs[i] == ev
    ensures Splits(queued + [ev], evs, found, all)
  {
  }

  /** Something an event function does to the loop before it returns. */
  datatype Reaction =
    | AddTimer(ev: RilEvent, tv: Timeval, now: Timeval)
    | AddWatch(ev: RilEvent)
    | DelWatch(ev: RilEvent)

  ghost function EffectOf(r: Reaction): Effect
    reads r.ev`fd, r.ev`persist, r.ev`index
  {
    match r
    case AddTimer(_, tv, now) => NewTimer(now.Micros() + tv.Micros())
    case AddWatch(ev) => if ev.fd < 0 then NoWatch(-1) else NewWatch(ev.fd, ev.persist)
    case DelWatch(ev) => NoWatch(ev.index)
  }

  ghost function Events(rs: seq<Reaction>): set<RilEvent> {
    set i | 0 <= i < |rs| :: rs[i].ev
  }

  ghost function Effects(rs: seq<Reaction>): (es: seq<Effect>)
    reads Events(rs)`fd, Events(rs)`persist, Events(rs)`index
    ensures |es| == |rs| && forall i :: 0 <= i < |rs| ==> es[i] == EffectOf(rs[i])
  {
    if rs == [] then [] else Effects(rs[..|rs| - 1]) + [EffectOf(rs[|rs| - 1])]
  }

  ghost function NonNull(evs: seq<RilEvent?>): seq<RilEvent> {
    if evs == [] then [] else (if evs[0] == null then [] else [evs[0]]) + NonNull(evs[1..])
  }

  lemma {:induction false} NonNullIs(s: seq<RilEvent>, evs: seq<RilEvent?>, all: seq<RilEvent>)
    requires s + evs == all
    ensures s + NonNull(evs) == all
    decreases |evs|
  {
    if evs != [] {
      assert all[|s|] == evs[0];
      NonNullIs(s + [all[|s|]], evs[1..], all);
      assert s + NonNull(evs) == s + [all[|s|]] + NonNull(evs[1..]);
    }
  }

  /** What several event functions do, one after another. */
  ghost function Flat(rss: seq<seq<Reaction>>): seq<Reaction> {
    if rss == [] then [] else rss[0] + Flat(rss[1..])
  }

  lemma FlatFrom(rss: seq<seq<Reaction>>, j: nat)
    requires j < |rss|
    ensures Flat(rss[j..]) == rss[j] + Flat(rss[j + 1..])
    ensures |Flat(rss[..j + 1])| == |Flat(rss[..j])| + |rss[j]|
    ensures Events(rss[j]) <= Events(Flat(rss))
  {
    assert rss[j..][1..] == rss[j + 1..];
    FlatUpto(rss, j);
    FlatSplit(rss, j);
    var before, all := Flat(rss[..j]), Flat(rss);
    assert all == before + (rss[j] + Flat(rss[j + 1..]));
    assert forall i :: 0 <= i < |rss[j]| ==> rss[j][i] == all[|before| + i];
  }

  lemma {:induction false} FlatUpto(rss: seq<seq<Reaction>>, j: nat)
    requires j < |rss|
    ensures |Flat(rss[..j + 1])| == |Flat(rss[..j])| + |rss[j]|
  {
    if j > 0 {
      assert rss[..j + 1][1..] == rss[1..][..j] && rss[..j][1..] == rss[1..][..j - 1];
      FlatUpto(rss[1..], j - 1);
    } else {
      assert rss[..1][1..] == [];
    }
  }

  lemma {:induction false} FlatSplit(rss: seq<seq<Reaction>>, j: nat)
    requires j <= |rss|
    ensures Flat(rss) == Flat(rss[..j]) + Flat(rss[j..])
  {
    if j == 0 {
      assert rss[0..] == rss;
    } else {
      FlatSplit(rss[1..], j - 1);
      assert rss[..j][1..] == rss[1..][..j - 1] && rss[1..][j - 1..] == rss[j..];
    }
  }

  /** Of all effects, those of the event functions that were called. */
  ghost function Happened(es: seq<Effect>, rss: seq<seq<Reaction>>, calls: nat): seq<Effect> {
    var k := |Flat(if calls < |rss| then rss[..calls] else rss)|;
    if k <= |es| then es[..k] else es
  }

  /** The effects differ at most in that the event of a deletion is unwatched by now. */
  ghost predicate SameBut(rs: seq<Reaction>, es: seq<Effect>, fs: seq<Effect>) {
    |rs| == |es| == |fs| && forall i :: 0 <= i < |rs| ==> fs[i] == es[i] || (rs[i].DelWatch? && fs[i] == NoWatch(-1))
  }

  lemma NoEffects(rs: seq<Reaction>)
    ensures |Effects(rs)| == |rs|
  {
  }

  lemma SplitEffects(rs: seq<Reaction>, rest: seq<Reaction>)
    requires rs != []
    ensures |Effects(rs)| == |rs| && EffectOf(rs[0]) == Effects(rs)[0]
    ensures Effects(rs[1..] + rest) == Effects(rs)[1..] + Effects(rest)
  {
    hide EffectOf;
  }

  lemma EffectsConcat(rs: seq<Reaction>, rest: seq<Reaction>)
    ensures Effects(rs + rest) == Effects(rs) + Effects(rest) && |Effects(rs)| == |rs|
  {
    hide EffectOf;
  }

  lemma JoinEffects(rs: seq<Reaction>, rest: seq<Reaction>, es: seq<Effect>, fs: seq<Effect>)
    requires Effects(rs + rest) == es + fs && |es| == |rs|
    ensures Effects(rs) == es && Effects(rest) == fs
  {
    EffectsConcat(rs, rest);
    hide Effects, EffectOf;
    var all := Effects(rs) + Effects(rest);
    assert Effects(rs) == all[..|rs|] && es == (es + fs)[..|rs|];
    assert Effects(rest) == all[|rs|..] && fs == (es + fs)[|rs|..];
  }

  /** The state of ril_event.cpp as a whole. */
  class EventLoop {
    const lists: EventLists
    const watch: WatchTable
    ghost var nodes: set<RilEvent>   // every event initialised so far, and the two list heads

    /** No watched event is on a list. */
    ghost predicate Apart(from: nat)
      reads this, watch, watch.watchTable, lists
    {
      forall i :: from <= i < watch.watchTable.Length && watch.watchTable[i] != null ==>
        watch.watchTable[i] !in lists.timerNodes && watch.watchTable[i] !in lists.pendingNodes
    }

    /** The same while events are fired: a watched event may still be pending. */
    ghost predicate Loose()
      reads this, watch, watch.watchTable, lists
    {
      forall i :: 0 <= i < watch.watchTable.Length && watch.watchTable[i] != null ==>
        && watch.watchTable[i] !in lists.timerNodes
        && (watch.watchTable[i] in lists.pendingNodes ==> watch.watchTable[i] in lists.pending)
    }

    ghost predicate Valid()
      reads this, watch, watch.watchTable, watch.known`index, watch.known`fd, watch.known`persist,
            lists, lists.timerNodes`next, lists.timerNodes`prev, lists.timerNodes`stamp, lists.timerNodes`timeout,
            lists.pendingNodes`next, lists.pendingNodes`prev
    {
      && lists.Valid() && watch.Valid()
      && lists.timerNodes <= nodes && lists.pendingNodes <= nodes && watch.known <= nodes
    }

    constructor ()
      ensures Valid() && Apart(0) && watch.Healthy() && lists.queue == [] && lists.pending == []
    {
      lists := new EventLists();
      watch := new WatchTable();
      new;
      nodes := {lists.timerList, lists.pendingList};
    }

    /** ril_event_set on an event that is on no list and not watched. */
    method EventSet(ev: RilEvent, fd: int, persist: bool, param: int)
      requires Valid() && Apart(0) && (ev in watch.known ==> ev.index < 0)
      requires ev !in lists.timerNodes && ev !in lists.pendingNodes
      modifies `nodes, watch`known, ev`fd, ev`index, ev`persist, ev`param, ev`timeout, ev`next, ev`prev
      ensures Valid() && Apart(0) && ev in watch.known
      ensures ev.index == -1 && ev.fd == fd && ev.persist == persist && ev.param == param
      ensures watch.Table() == old(watch.Table())
    {
      hide EventLists.Valid, WatchTable.Valid;
      watch.EventSet(ev, fd, persist, param);
      nodes := nodes + {ev};
    }

    /** ril_timer_add */
    method TimerAdd(ev: RilEvent, tv: Option<Timeval>, now: Timeval)
      requires Valid() && Loose() && ev in watch.known && ev.index < 0
      requires ev !in lists.timerNodes && ev !in lists.pendingNodes
      requires tv.Some? ==> 0 <= now.usec + tv.value.usec < 2_000_000
      modifies lists`timers, lists`timerNodes, lists`queue, lists`nextStamp,
               nodes`next, nodes`prev, ev`fd, ev`timeout, ev`stamp
      ensures Valid() && Loose() && (old(Apart(0)) ==> Apart(0))
      ensures watch.Table() == old(watch.Table())
      ensures lists.queue == if tv.None? then old(lists.queue)
        else TimerQueue.Insert(
          old(lists.queue), TimerQueue.Timer(old(lists.nextStamp), now.Micros() + tv.value.Micros()))
      ensures lists.nextStamp == if tv.None? then old(lists.nextStamp) else old(lists.nextStamp) + 1
      ensures lists.timerNodes == if tv.None? then old(lists.timerNodes) else old(lists.timerNodes) + {ev}
    {
      hide EventLists.Valid, TimerQueue.Insert;
      UnwatchedFd(ev);
      lists.TimerAdd(ev, tv, now);
    }

    /** The table does not depend on an event that is not in it. */
    lemma UnwatchedFd(ev: RilEvent)
      requires watch.Valid() && ev in watch.known && ev.index < 0
      ensures forall i :: 0 <= i < watch.watchTable.Length ==> watch.watchTable[i] != ev
    {
    }

    /** ril_event_add */
    method EventAdd(ev: RilEvent)
      requires Valid() && Loose() && ev in watch.known && ev.index < 0 && 0 <= ev.fd
      requires ev !in lists.timerNodes && ev !in lists.pendingNodes
      modifies watch`readFds, watch`nfds, watch`slots, watch.watchTable, ev`index
      ensures Valid() && Loose() && (old(Apart(0)) ==> Apart(0))
      ensures watch.Table() == W.Add(old(watch.Table()), ev.fd, ev.persist)
      ensures old(watch.Healthy()) && ev.fd !in old(watch.readFds) ==> watch.Healthy()
    {
      hide EventLists.Valid, WatchTable.Valid, WatchTable.Healthy, W.Add;
      watch.EventAdd(ev);
    }

    /** ril_event_del */
    method EventDel(ev: RilEvent)
      requires Valid() && Loose() && ev in watch.known
      modifies watch`readFds, watch`nfds, watch`slots, watch.watchTable, ev`index
      ensures Valid() && Loose() && (old(Apart(0)) ==> Apart(0))
      ensures old(watch.Healthy()) ==> watch.Healthy()
      ensures 0 <= old(ev.index) < MAX_FD_EVENTS ==> watch.Table() == W.Remove(old(watch.Table()), old(ev.index))
      ensures !(0 <= old(ev.index) < MAX_FD_EVENTS) ==> watch.Table() == old(watch.Table())
    {
      hide EventLists.Valid, WatchTable.Valid, WatchTable.Healthy, W.Remove;
      watch.EventDel(ev);
    }

    ghost function Contents(): Model
      reads lists, watch
    {
      Model(lists.queue, lists.nextStamp, watch.Table())
    }

    /** What the source asks of an event function that adds or deletes an event. */
    ghost predicate CanReact(r: Reaction)
      reads lists`timerNodes, lists`pendingNodes, watch`known, r.ev`index, r.ev`fd
    {
      && r.ev in watch.known
      && (!r.DelWatch? ==> r.ev.index < 0 && r.ev !in lists.timerNodes && r.ev !in lists.pendingNodes)
      && (r.AddTimer? ==> 0 <= r.now.usec + r.tv.usec < 2_000_000)
      && (r.AddWatch? ==> 0 <= r.ev.fd)
    }

    ghost predicate AllReady(rs: seq<Reaction>)
      reads lists`timerNodes, lists`pendingNodes, watch`known, Events(rs)`index, Events(rs)`fd
    {
      && (forall i :: 0 <= i < |rs| ==> CanReact(rs[i]))
      && (forall i, j :: 0 <= i < j < |rs| ==> rs[i].ev != rs[j].ev)
    }

    /** The reactions are possible, with the given effects, but that the event of a deletion may be unwatched by now. */
    ghost predicate Prepared(rs: seq<Reaction>, es: seq<Effect>)
      reads lists`timerNodes, lists`pendingNodes, watch`known,
            Events(rs)`index, Events(rs)`fd, Events(rs)`persist
    {
      && AllReady(rs) && |es| == |rs|
      && forall i :: 0 <= i < |rs| ==> EffectOf(rs[i]) == es[i] || (rs[i].DelWatch? && EffectOf(rs[i]) == NoWatch(-1))
    }

    /** One thing that an event function does. */
    method React(r: Reaction)
      requires Valid() && Loose() && CanReact(r)
      modifies lists`timers, lists`timerNodes, lists`queue, lists`nextStamp,
               watch`readFds, watch`nfds, watch`slots, watch.watchTable,
               nodes`next, nodes`prev, r.ev`fd, r.ev`timeout, r.ev`stamp, r.ev`index
      ensures Valid() && Loose() && Contents() == Apply(old(Contents()), old(EffectOf(r)))
      ensures lists.timerNodes <= old(lists.timerNodes) + {r.ev}
      ensures r.ev in lists.pendingNodes ==> r.ev.fd == old(r.ev.fd)
    {
      hide EventLists.Valid, WatchTable.Valid, WatchTable.Healthy, W.Add, W.Remove, TimerQueue.Insert;
      match r {
        case AddTimer(ev, tv, now) =>
          TimerAdd(ev, Some(tv), now);
        case AddWatch(ev) =>
          EventAdd(ev);
        case DelWatch(ev) =>
          DelEffect(ev);
          EventDel(ev);
      }
    }

    lemma DelEffect(ev: RilEvent)
      requires watch.Valid() && ev in watch.known
      ensures Apply(Contents(), NoWatch(ev.index)).table ==
        if 0 <= ev.index < MAX_FD_EVENTS then W.Remove(watch.Table(), ev.index) else watch.Table()
    {
      if 0 <= ev.index < MAX_FD_EVENTS {
        assert watch.Watched(watch.watchTable[ev.index], ev.index);
      }
    }

    /** The first of several things; the later ones stay possible and the same. */
    method ReactFirst(r: Reaction, ghost later: seq<Reaction>)
      requires Valid() && Loose() && CanReact(r) && AllReady(later) && r.ev !in Events(later)
      modifies lists`timers, lists`timerNodes, lists`queue, lists`nextStamp,
               watch`readFds, watch`nfds, watch`slots, watch.watchTable,
               nodes`next, nodes`prev, r.ev`fd, r.ev`timeout, r.ev`stamp, r.ev`index
      ensures Valid() && Loose() && Contents() == Apply(old(Contents()), old(EffectOf(r)))
      ensures AllReady(later) && Effects(later) == old(Effects(later))
      ensures forall ev :: ev in lists.pendingNodes ==> ev.fd == old(ev.fd)
    {
      hide Valid, Loose, EffectOf, Apply, Contents;
      assert forall i :: 0 <= i < |later| ==> later[i].ev in Events(later) && CanReact(later[i]);
      React(r);
    }

    /** All that one event function does; what later ones do, `rest`, stays possible and the same. */
    method ReactAll(rs: seq<Reaction>, ghost rest: seq<Reaction>, ghost es: seq<Effect>, ghost fs: seq<Effect>)
      requires Valid() && Loose() && AllReady(rs + rest) && Effects(rs) == es && Effects(rest) == fs
      modifies lists`timers, lists`timerNodes, lists`queue, lists`nextStamp,
               watch`readFds, watch`nfds, watch`slots, watch.watchTable,
               nodes`next, nodes`prev, Events(rs)`fd, Events(rs)`timeout, Events(rs)`stamp, Events(rs)`index
      ensures Valid() && Loose() && Contents() == ApplyAll(old(Contents()), es)
      ensures AllReady(rest) && Effects(rest) == fs
      ensures forall ev :: ev in lists.pendingNodes ==> ev.fd == old(ev.fd)
      decreases |rs|
    {
      hide Valid, Loose, EffectOf, Apply, Contents, CanReact, AllReady, Effects;
      if rs == [] {
        assert rs + rest == rest;
        NoEffects(rs);
      } else {
        SplitReady(rs, rest);
        SplitEffects(rs, rest);
        ReactFirst(rs[0], rs[1..] + rest);
        JoinEffects(rs[1..], rest, es[1..], fs);
        ReactAll(rs[1..], rest, es[1..], fs);
      }
    }

    lemma SplitReady(rs: seq<Reaction>, rest: seq<Reaction>)
      requires rs != [] && AllReady(rs + rest)
      ensures CanReact(rs[0]) && AllReady(rs[1..] + rest) && rs[0].ev !in Events(rs[1..] + rest)
      ensures rs[0].ev in Events(rs) && Events(rs[1..]) <= Events(rs)
    {
      var all, later := rs + rest, rs[1..] + rest;
      assert all[0] == rs[0] && forall i :: 0 <= i < |later| ==> later[i] == all[i + 1];
    }

    /** The first pending event is unlinked and its function called, up to what the function does to the loop. */
    method FireNext(ghost rest: seq<Reaction>) returns (next: RilEvent)
      requires Valid() && Loose() && lists.pending != [] && AllReady(rest)
      modifies lists`calls, lists`pending, lists`pendingNodes, nodes`next, nodes`prev
      ensures Valid() && Loose() && Contents() == old(Contents())
      ensures AllReady(rest) && Effects(rest) == old(Effects(rest))
      ensures next == First(lists.pendingList, lists.pending) && lists.pending == old(lists.pending)[1..]
      ensures next == lists.pendingList <==> lists.pending == []
      ensures lists.pendingNodes <= old(lists.pendingNodes)
      ensures lists.calls == old(lists.calls) + [old(CallsOf(lists.pending))[0]]
      ensures CallsOf(lists.pending) == old(CallsOf(lists.pending))[1..]
      ensures forall ev :: ev in lists.pending ==> ev in lists.pendingNodes
    {
      hide Ring, WatchTable.Valid, TimerQueue.Ordered, TimerQueue.StampsBelow;
      next := lists.FireFirst();
      RingMembers(lists.pendingList, lists.pending, lists.pendingNodes);
      RingFirst(lists.pendingList, lists.pending, lists.pendingNodes);
    }

    /** One round of firePending, with all that the event function does. */
    method FireRound(rs: seq<Reaction>, ghost rest: seq<Reaction>, ghost es: seq<Effect>, ghost fs: seq<Effect>)
      returns (next: RilEvent)
      requires Valid() && Loose() && lists.pending != []
      requires AllReady(rs + rest) && Effects(rs) == es && Effects(rest) == fs
      modifies lists`calls, lists`pending, lists`pendingNodes,
               lists`timers, lists`timerNodes, lists`queue, lists`nextStamp,
               watch`readFds, watch`nfds, watch`slots, watch.watchTable,
               nodes`next, nodes`prev, Events(rs)`fd, Events(rs)`timeout, Events(rs)`stamp, Events(rs)`index
      ensures Valid() && Loose() && AllReady(rest) && Effects(rest) == fs
      ensures Contents() == ApplyAll(old(Contents()), es)
      ensures next == First(lists.pendingList, lists.pending) && lists.pending == old(lists.pending)[1..]
      ensures next == lists.pendingList <==> lists.pending == []
      ensures lists.calls == old(lists.calls) + [old(CallsOf(lists.pending))[0]]
      ensures CallsOf(lists.pending) == old(CallsOf(lists.pending))[1..]
    {
      hide Valid, Loose, AllReady, Effects, Contents, ApplyAll, CallsOf, EffectOf;
      EffectsConcat(rs, rest);
      next := FireNext(rs + rest);
      JoinEffects(rs, rest, es, fs);
      ghost var evs, calls := lists.pending, CallsOf(lists.pending);
      ReactAll(rs, rest, es, fs);
      assert forall i :: 0 <= i < |evs| ==> evs[i] in lists.pendingNodes;
      assert CallsOf(evs) == calls;
    }

    /** What the event function called next does, and what is left for later ones. */
    lemma NextReactions(reactions: seq<seq<Reaction>>, j: nat, left: seq<Effect>)
      returns (rs: seq<Reaction>, rest: seq<Reaction>, es: seq<Effect>, fs: seq<Effect>)
      requires j <= |reactions| && AllReady(Flat(reactions[j..])) && Effects(Flat(reactions[j..])) == left
      ensures rs == if j < |reactions| then reactions[j] else []
      ensures rest == Flat(if j < |reactions| then reactions[j + 1..] else [])
      ensures AllReady(rs + rest) && Effects(rs) == es && Effects(rest) == fs && left == es + fs
      ensures Events(rs) <= Events(Flat(reactions)) && |es| == |rs|
      ensures j < |reactions| ==> |Flat(reactions[..j + 1])| == |Flat(reactions[..j])| + |es|
    {
      if j < |reactions| {
        rs, rest := reactions[j], Flat(reactions[j + 1..]);
        FlatFrom(reactions, j);
      } else {
        rs, rest := [], [];
        assert reactions[j..] == [];
      }
      EffectsConcat(rs, rest);
      es, fs := Effects(rs), Effects(rest);
    }

    /** The k-th round of firePending is next: what has happened so far, and what is still to happen. */
    ghost predicate Midway(reactions: seq<seq<Reaction>>, j: nat, k: nat, done: seq<Effect>, left: seq<Effect>,
        evs: seq<RilEvent>, before: seq<Call>, calls: seq<Call>, start: Model)
      reads this, lists, watch, lists.pending`fd, lists.pending`param,
            Events(Flat(if j < |reactions| then reactions[j..] else []))
    {
      && k <= |evs| == |calls| && lists.pending == evs[k..]
      && j == (if k < |reactions| then k else |reactions|)
      && AllReady(Flat(reactions[j..])) && Effects(Flat(reactions[j..])) == left
      && |done| == |Flat(reactions[..j])| && Contents() == ApplyAll(start, done)
      && lists.calls == before + calls[..k] && CallsOf(lists.pending) == calls[k..]
    }

    lemma MidwayStart(reactions: seq<seq<Reaction>>)
      requires AllReady(Flat(reactions))
      ensures Midway(reactions, 0, 0, [], Effects(Flat(reactions)), lists.pending, lists.calls,
                CallsOf(lists.pending), Contents())
    {
      assert reactions[0..] == reactions && reactions[..0] == [];
    }

    method FireStep(reactions: seq<seq<Reaction>>, j: nat, ghost k: nat,
        ghost done: seq<Effect>, ghost left: seq<Effect>, ghost evs: seq<RilEvent>,
        ghost before: seq<Call>, ghost calls: seq<Call>, ghost start: Model)
      returns (next: RilEvent, j': nat, ghost done': seq<Effect>, ghost left': seq<Effect>)
      requires Valid() && Loose() && lists.pending != []
      requires Midway(reactions, j, k, done, left, evs, before, calls, start)
      modifies lists`calls, lists`pending, lists`pendingNodes,
               lists`timers, lists`timerNodes, lists`queue, lists`nextStamp,
               watch`readFds, watch`nfds, watch`slots, watch.watchTable, nodes`next, nodes`prev,
               Events(Flat(reactions))`fd, Events(Flat(reactions))`timeout,
               Events(Flat(reactions))`stamp, Events(Flat(reactions))`index
      ensures Valid() && Loose() && (next == lists.pendingList <==> lists.pending == [])
      ensures Midway(reactions, j', k + 1, done', left', evs, before, calls, start)
      ensures done + left == done' + left' && |lists.pending| == |old(lists.pending)| - 1
    {
      hide Valid, Loose, AllReady, Effects, EffectOf, Contents, ApplyAll, CallsOf, Flat, First;
      ghost var rs, rest, es, fs := NextReactions(reactions, j, left);
      assert lists.calls == before + calls[..k] && CallsOf(lists.pending) == calls[k..] && lists.pending == evs[k..];
      assert |done| == |Flat(reactions[..j])| && Contents() == ApplyAll(start, done) && k < |evs| == |calls|;
      assert j == if k < |reactions| then k else |reactions|;
      hide Midway;
      var now := if j < |reactions| then reactions[j] else [];
      next := FireRound(now, rest, es, fs);
      j' := if j < |reactions| then j + 1 else j;
      done', left' := done + es, fs;
      assert done + (es + fs) == (done + es) + fs;
      MidwayNext(reactions, j, k, done, rest, es, fs, evs, before, calls, start);
    }

    lemma MidwayNext(reactions: seq<seq<Reaction>>, j: nat, k: nat, done: seq<Effect>, rest: seq<Reaction>,
        es: seq<Effect>, fs: seq<Effect>, evs: seq<RilEvent>, before: seq<Call>, calls: seq<Call>, start: Model)
      requires k < |evs| == |calls| && lists.pending == evs[k..][1..]
      requires j == (if k < |reactions| then k else |reactions|) && |done| == |Flat(reactions[..j])|
      requires rest == Flat(if j < |reactions| then reactions[j + 1..] else []) && AllReady(rest) && Effects(rest) == fs
      requires j < |reactions| ==> |Flat(reactions[..j + 1])| == |Flat(reactions[..j])| + |es|
      requires j == |reactions| ==> es == []
      requires Contents() == ApplyAll(ApplyAll(start, done), es)
      requires lists.calls == before + calls[..k] + [calls[k..][0]] && CallsOf(lists.pending) == calls[k..][1..]
      ensures Midway(reactions, if j < |reactions| then j + 1 else j, k + 1, done + es, fs, evs, before, calls, start)
    {
      ApplyAllConcat(start, done, es);
      hide AllReady, Effects, EffectOf, Contents, ApplyAll, CallsOf, Flat;
      assert calls[..k + 1] == calls[..k] + [calls[k]] && calls[k..][1..] == calls[k + 1..];
      assert evs[k..][1..] == evs[k + 1..];
      assert before + calls[..k] + [calls[k]] == before + calls[..k + 1];
      if j == |reactions| {
        assert reactions[j..] == [];
      }
    }

    /**
     * firePending: calls the pending events' functions in list order and leaves the list empty, whatever timers and
     * watches the functions add or delete; reactions[k] is what the k-th one does.
     */
    method FirePending(reactions: seq<seq<Reaction>>)
      requires Valid() && Loose() && AllReady(Flat(reactions))
      modifies lists`calls, lists`pending, lists`pendingNodes,
               lists`timers, lists`timerNodes, lists`queue, lists`nextStamp,
               watch`readFds, watch`nfds, watch`slots, watch.watchTable, nodes`next, nodes`prev,
               Events(Flat(reactions))`fd, Events(Flat(reactions))`timeout,
               Events(Flat(reactions))`stamp, Events(Flat(reactions))`index
      ensures Valid() && Apart(0) && lists.pending == []
      ensures lists.calls == old(lists.calls) + old(CallsOf(lists.pending))
      ensures Contents() ==
        ApplyAll(old(Contents()), Happened(old(Effects(Flat(reactions))), reactions, |old(lists.pending)|))
    {
      hide Valid, Loose, Apart, AllReady, Midway, Effects, EffectOf, Contents, ApplyAll, CallsOf, Flat, First, Happened;
      ghost var done, left, evs, calls := [], Effects(Flat(reactions)), lists.pending, CallsOf(lists.pending);
      MidwayStart(reactions);
      var ev := FirstPending();
      ghost var k := 0;
      var j := 0;
      while ev != lists.pendingList
        invariant Valid() && Loose() && (ev == lists.pendingList <==> lists.pending == [])
        invariant Midway(reactions, j, k, done, left, evs, old(lists.calls), calls, old(Contents()))
        invariant done + left == old(Effects(Flat(reactions)))
        decreases |lists.pending|
      {
        ev, j, done, left := FireStep(reactions, j, k, done, left, evs, old(lists.calls), calls, old(Contents()));
        k := k + 1;
      }
      MidwayEnd(reactions, j, k, done, left, evs, old(lists.calls), calls, old(Contents()));
      LooseEnds();
    }

    lemma LooseEnds()
      requires Loose() && lists.pending == []
      ensures Apart(0)
    {
    }

    lemma MidwayEnd(reactions: seq<seq<Reaction>>, j: nat, k: nat, done: seq<Effect>, left: seq<Effect>,
        evs: seq<RilEvent>, before: seq<Call>, calls: seq<Call>, start: Model)
      requires Midway(reactions, j, k, done, left, evs, before, calls, start) && lists.pending == []
      ensures lists.calls == before + calls && Contents() == ApplyAll(start, Happened(done + left, reactions, |evs|))
    {
      HappenedIs(reactions, j, k, done, left);
      assert calls[..k] == calls;
    }

    lemma HappenedIs(reactions: seq<seq<Reaction>>, j: nat, k: nat, done: seq<Effect>, left: seq<Effect>)
      requires j == (if k < |reactions| then k else |reactions|) && |done| == |Flat(reactions[..j])|
      ensures Happened(done + left, reactions, k) == done
    {
      assert reactions[..|reactions|] == reactions;
    }

    method FirstPending() returns (ev: RilEvent)
      requires Valid()
      ensures ev == First(lists.pendingList, lists.pending)
      ensures ev == lists.pendingList <==> lists.pending == []
    {
      RingFirst(lists.pendingList, lists.pending, lists.pendingNodes);
      ev := lists.pendingList.next;
    }

    /** One round of processReadReadies: a ready slot. */
    method QueueReady(rev: RilEvent, i: nat)
      requires Valid() && i < MAX_FD_EVENTS && watch.watchTable[i] == rev && Apart(i)
      modifies lists`pending, lists`pendingNodes, watch`readFds, watch`nfds, watch`slots, watch.watchTable,
               nodes`next, nodes`prev, rev`index
      ensures Valid() && Apart(i + 1) && 0 <= old(rev.index) && (rev.index == old(rev.index) || rev.index == -1)
      ensures lists.pending == old(lists.pending) + [rev] && lists.pendingNodes == old(lists.pendingNodes) + {rev}
      ensures watch.watchTable[i] == null || watch.watchTable[i] == rev
      ensures forall j :: 0 <= j < i ==> watch.watchTable[j] == old(watch.watchTable[j])
      ensures watch.Table() == if old(rev.persist) then old(watch.Table()) else W.Remove(old(watch.Table()), i)
      ensures forall j :: i < j < MAX_FD_EVENTS ==> watch.watchTable[j] == old(watch.watchTable[j])
    {
      hide EventLists.Linked, TimerQueue.Ordered, WatchTable.Valid, W.Remove;
      watch.TableShape();
      lists.Enqueue(rev);
      if !rev.persist {
        watch.RemoveWatch(rev, i);
      }
    }

    /** The same for reactions to come: they concern other events, or delete this one. */
    method QueuePrepared(rev: RilEvent, i: nat, ghost rs: seq<Reaction>, ghost es: seq<Effect>)
      requires Valid() && i < MAX_FD_EVENTS && watch.watchTable[i] == rev && Apart(i) && Prepared(rs, es)
      modifies lists`pending, lists`pendingNodes, watch`readFds, watch`nfds, watch`slots, watch.watchTable,
               nodes`next, nodes`prev, rev`index
      ensures Valid() && Apart(i + 1) && Prepared(rs, es)
      ensures lists.pending == old(lists.pending) + [rev] && lists.pendingNodes == old(lists.pendingNodes) + {rev}
      ensures watch.watchTable[i] == null || watch.watchTable[i] == rev
      ensures forall j :: 0 <= j < i ==> watch.watchTable[j] == old(watch.watchTable[j])
      ensures watch.Table() == if old(rev.persist) then old(watch.Table()) else W.Remove(old(watch.Table()), i)
      ensures forall j :: i < j < MAX_FD_EVENTS ==> watch.watchTable[j] == old(watch.watchTable[j])
    {
      hide Valid, Apart, W.Remove;
      assert forall j :: 0 <= j < |rs| ==> CanReact(rs[j]) && rs[j].ev in Events(rs);
      QueueReady(rev, i);
      assert forall j :: 0 <= j < |rs| ==> CanReact(rs[j]);
    }

    /** From slot i on, with `left` events to find, the sweep ends with the given table and pending events. */
    ghost predicate SweepsTo(rfds: set<int>, left: int, i: nat, table: W.Table, evs: seq<RilEvent?>,
        all: seq<RilEvent?>)
      reads this, watch, watch.watchTable, lists
    {
      && (forall j :: 0 <= j < watch.watchTable.Length && j < |evs| ==>
          watch.watchTable[j] == null || watch.watchTable[j] == evs[j])
      && |watch.slots| == |evs| == watch.watchTable.Length == MAX_FD_EVENTS && i <= MAX_FD_EVENTS
      && W.Sweep(watch.Table(), rfds, left, i).table == table
      && Splits(lists.pending, evs, W.Sweep(watch.Table(), rfds, left, i).found, all)
      && forall j :: i <= j < MAX_FD_EVENTS ==> watch.watchTable[j] == evs[j]
    }

    /** One round of processReadReadies; says whether the slot was ready. */
    method ScanSlot(rfds: set<int>, i: nat, ghost left: int, ghost table: W.Table, ghost evs: seq<RilEvent?>,
        ghost all: seq<RilEvent?>, ghost rs: seq<Reaction>, ghost es: seq<Effect>)
      returns (ready: bool)
      requires left > 0 && i < MAX_FD_EVENTS
      requires Valid() && Apart(i) && SweepsTo(rfds, left, i, table, evs, all) && Prepared(rs, es)
      modifies lists`pending, lists`pendingNodes, watch`readFds, watch`nfds, watch`slots, watch.watchTable,
               nodes`next, nodes`prev, nodes`index
      ensures Valid() && Apart(i + 1) && SweepsTo(rfds, if ready then left - 1 else left, i + 1, table, evs, all)
      ensures old(lists.pending) <= lists.pending && Prepared(rs, es)
      ensures forall ev :: ev in lists.pendingNodes ==> ev in old(lists.pendingNodes) || ev in lists.pending
    {
      watch.TableShape();
      W.SweepStep(watch.Table(), rfds, left, i);
      hide EventLists.Valid, WatchTable.Valid, W.Remove, W.Sweep, Splits, Prepared;
      ghost var queued := lists.pending;
      var rev := watch.watchTable[i];
      ready := rev != null && rev.fd in rfds;
      if ready {
        QueuePrepared(rev, i, rs, es);
        SplitsStep(queued, evs, i, W.Sweep(watch.Table(), rfds, left - 1, i + 1).found, all, rev);
      }
    }

    /** processReadReadies: the ready watched events join pending_list in slot order, up to n of them. */
    method ProcessReadReadies(rfds: set<int>, n: int, ghost rs: seq<Reaction>, ghost es: seq<Effect>)
      requires Valid() && Apart(0) && Prepared(rs, es)
      modifies lists`pending, lists`pendingNodes, watch`readFds, watch`nfds, watch`slots, watch.watchTable,
               nodes`next, nodes`prev, nodes`index
      ensures Valid() && Prepared(rs, es)
      ensures watch.Table() == W.Sweep(old(watch.Table()), rfds, n, 0).table
      ensures lists.pending == old(lists.pending) +
        EventsAt(old(watch.watchTable[..]), W.Sweep(old(watch.Table()), rfds, n, 0).found)
      ensures forall ev :: ev in lists.pendingNodes ==> ev in old(lists.pendingNodes) || ev in lists.pending
      ensures forall j :: 0 <= j < watch.watchTable.Length ==>
          watch.watchTable[j] == null || watch.watchTable[j] == old(watch.watchTable[j])
    {
      hide EventLists.Valid, WatchTable.Valid, Valid, Apart, SweepsTo, W.Sweep, EventsAt, Prepared;
      ghost var evs, swept, all := SweepStart(rfds, n);
      var left := n;
      var i := 0;
      while i < MAX_FD_EVENTS && left > 0
        invariant 0 <= i <= MAX_FD_EVENTS && Valid() && Apart(i) && Prepared(rs, es)
        invariant SweepsTo(rfds, left, i, swept.table, evs, all)
        invariant forall ev :: ev in lists.pendingNodes ==> ev in old(lists.pendingNodes) || ev in lists.pending
      {
        var ready := ScanSlot(rfds, i, left, swept.table, evs, all, rs, es);
        if ready {
          left := left - 1;
        }
        i := i + 1;
      }
      SweepOver(rfds, left, i, swept.table, evs, all);
    }

    lemma SweepStart(rfds: set<int>, n: int) returns (evs: seq<RilEvent?>, swept: W.Swept, all: seq<RilEvent?>)
      requires Valid()
      ensures evs == watch.watchTable[..] && swept == W.Sweep(watch.Table(), rfds, n, 0)
      ensures all == lists.pending + EventsAt(evs, swept.found)
      ensures SweepsTo(rfds, n, 0, swept.table, evs, all)
    {
      watch.TableShape();
      evs, swept := watch.watchTable[..], W.Sweep(watch.Table(), rfds, n, 0);
      all := lists.pending + EventsAt(evs, swept.found);
    }

    lemma SweepOver(rfds: set<int>, left: int, i: nat, table: W.Table, evs: seq<RilEvent?>, all: seq<RilEvent?>)
      requires SweepsTo(rfds, left, i, table, evs, all) && (i == MAX_FD_EVENTS || left <= 0)
      ensures watch.Table() == table && lists.pending == all
      ensures |evs| == watch.watchTable.Length
      ensures forall j :: 0 <= j < |evs| ==> watch.watchTable[j] == null || watch.watchTable[j] == evs[j]
    {
    }

    /** The events that a pass fires: expired timers in firing order, then ready events in slot order. */
    ghost function Fires(now: Timeval, rfds: set<int>, n: int): seq<RilEvent>
      requires |lists.timers| == |lists.queue|
      reads this, lists, watch, watch.watchTable
    {
      lists.timers[..TimerQueue.FirstDueAt(lists.queue, now.Micros())] +
      NonNull(EventsAt(watch.watchTable[..], W.Sweep(watch.Table(), rfds, n, 0).found))
    }

    /** The lists and the table once expired timers and ready one-shot events are taken out. */
    ghost function Swept(now: Timeval, rfds: set<int>, n: int): Model
      reads lists, watch
    {
      Model(lists.queue[TimerQueue.FirstDueAt(lists.queue, now.Micros())..], lists.nextStamp,
        W.Sweep(watch.Table(), rfds, n, 0).table)
    }

    lemma TimersMatch()
      requires Valid()
      ensures |lists.timers| == |lists.queue|
    {
    }

    /** processTimeouts on the whole module. */
    method Expire(now: Timeval, ghost rs: seq<Reaction>, ghost es: seq<Effect>)
      requires Valid() && Apart(0) && now.Normalised() && Prepared(rs, es)
      modifies lists`timers, lists`timerNodes, lists`queue, lists`pending, lists`pendingNodes, nodes`next, nodes`prev
      ensures Valid() && Apart(0) && Prepared(rs, es) && |old(lists.timers)| == |old(lists.queue)|
      ensures var k := TimerQueue.FirstDueAt(old(lists.queue), now.Micros());
        lists.queue == old(lists.queue)[k..] && lists.pending == old(lists.pending) + old(lists.timers)[..k]
    {
      hide EventLists.Valid, WatchTable.Valid, EffectOf;
      TimersMatch();
      assert forall i :: 0 <= i < |rs| ==> CanReact(rs[i]) && rs[i].ev in Events(rs);
      lists.ProcessTimeouts(now);
      assert forall i :: 0 <= i < |rs| ==> CanReact(rs[i]);
    }

    /** processReadReadies leaves watched events on no list but pending_list. */
    method Ready(rfds: set<int>, n: int, ghost rs: seq<Reaction>, ghost es: seq<Effect>)
      requires Valid() && Apart(0) && Prepared(rs, es)
      modifies lists`pending, lists`pendingNodes, watch`readFds, watch`nfds, watch`slots, watch.watchTable,
               nodes`next, nodes`prev, nodes`index
      ensures Valid() && Loose() && Prepared(rs, es)
      ensures watch.Table() == W.Sweep(old(watch.Table()), rfds, n, 0).table
      ensures lists.pending == old(lists.pending) +
        EventsAt(old(watch.watchTable[..]), W.Sweep(old(watch.Table()), rfds, n, 0).found)
    {
      hide Valid, Prepared, W.Sweep, EventsAt;
      ProcessReadReadies(rfds, n, rs, es);
    }

    /** The first half of a pass: processTimeouts and processReadReadies. */
    method Collect(now: Timeval, rfds: set<int>, n: int, ghost rs: seq<Reaction>, ghost es: seq<Effect>)
      requires Valid() && Apart(0) && lists.pending == [] && now.Normalised() && Prepared(rs, es)
      modifies lists`timers, lists`timerNodes, lists`queue, lists`pending, lists`pendingNodes,
               watch`readFds, watch`nfds, watch`slots, watch.watchTable, nodes`next, nodes`prev, nodes`index
      ensures Valid() && Loose() && Prepared(rs, es)
      ensures |old(lists.timers)| == |old(lists.queue)| && lists.pending == old(Fires(now, rfds, n))
      ensures Contents() == old(Swept(now, rfds, n))
    {
      hide Valid, Apart, Loose, Prepared, W.Sweep, EventsAt;
      Expire(now, rs, es);
      ghost var due, ready := lists.pending, EventsAt(watch.watchTable[..], W.Sweep(watch.Table(), rfds, n, 0).found);
      Ready(rfds, n, rs, es);
      NonNullIs(due, ready, lists.pending);
    }

    /**
     * One pass of ril_event_loop after select returned n ready descriptors in rfds: it calls the expired timers'
     * and the ready events' functions, and pending_list is empty again afterwards. What the functions do, `effects`,
     * happens behind the sweep.
     */
    method Pass(now: Timeval, rfds: set<int>, n: int, reactions: seq<seq<Reaction>>)
      returns (ghost fired: seq<RilEvent>, ghost mid: Model, ghost effects: seq<Effect>)
      requires Valid() && Apart(0) && lists.pending == [] && now.Normalised() && AllReady(Flat(reactions))
      modifies lists`calls, lists`timers, lists`timerNodes, lists`queue, lists`nextStamp,
               lists`pending, lists`pendingNodes, watch`readFds, watch`nfds, watch`slots, watch.watchTable,
               nodes`next, nodes`prev, nodes`index, Events(Flat(reactions))`fd, Events(Flat(reactions))`timeout,
               Events(Flat(reactions))`stamp, Events(Flat(reactions))`index
      ensures Valid() && Apart(0) && lists.pending == [] && |old(lists.timers)| == |old(lists.queue)|
      ensures fired == old(Fires(now, rfds, n)) && mid == old(Swept(now, rfds, n))
      ensures lists.calls == old(lists.calls) + old(CallsOf(Fires(now, rfds, n)))
      ensures SameBut(Flat(reactions), old(Effects(Flat(reactions))), effects)
      ensures Contents() == ApplyAll(mid, Happened(effects, reactions, |fired|))
      ensures old(watch.Healthy()) && NewDescriptors(mid, Happened(effects, reactions, |fired|)) ==> watch.Healthy()
    {
      hide Valid, Apart, Loose, AllReady, WatchTable.Healthy, LoopEffects.Healthy, NewDescriptors, Happened, ApplyAll,
           Fires, Swept, Prepared, Contents, Effects, EffectOf, CallsOf, Flat, SameBut, Events;
      TimersMatch();
      SweepHealthy(now, rfds, n);
      fired, mid := Fires(now, rfds, n), Swept(now, rfds, n);
      ghost var rs, es, calls := Flat(reactions), Effects(Flat(reactions)), CallsOf(fired);
      PreparedNow(rs);
      Collect(now, rfds, n, rs, es);
      effects := Effects(rs);
      PreparedEffects(rs, es);
      assert CallsOf(fired) == calls;
      FirePending(reactions);
      StaysHealthy(mid, Happened(effects, reactions, |fired|));
    }

    lemma PreparedNow(rs: seq<Reaction>)
      requires AllReady(rs)
      ensures Prepared(rs, Effects(rs))
    {
    }

    lemma PreparedEffects(rs: seq<Reaction>, es: seq<Effect>)
      requires Prepared(rs, es)
      ensures AllReady(rs) && SameBut(rs, es, Effects(rs))
    {
    }

    lemma SweepHealthy(now: Timeval, rfds: set<int>, n: int)
      ensures watch.Healthy() ==> LoopEffects.Healthy(Swept(now, rfds, n).table)
    {
      if watch.Healthy() {
        W.SweepKeepsCoherent(watch.Table(), rfds, n, 0);
      }
    }

    lemma StaysHealthy(mid: Model, es: seq<Effect>)
      requires Contents() == ApplyAll(mid, es)
      ensures LoopEffects.Healthy(mid.table) && NewDescriptors(mid, es) ==> watch.Healthy()
    {
      EffectsKeep(mid, es);
    }
  }
}

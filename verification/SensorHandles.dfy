/** The handle maps of multihal.cpp: sub-module handles to global handles and back. */
module SensorHandles {
  import opened Options

  datatype FullHandle = FullHandle(moduleIndex: int, localHandle: int)

  /** global_to_full, full_to_global and next_global_handle. */
  datatype Maps = Maps(toFull: map<int, FullHandle>, toGlobal: map<FullHandle, int>, next: int)

  const NO_MAPS := Maps(map[], map[], 1)

  /** assign_global_handle */
  function Assign(m: Maps, f: FullHandle): Maps {
    Maps(m.toFull[m.next := f], m.toGlobal[f := m.next], m.next + 1)
  }

  function AssignAll(fs: seq<FullHandle>): Maps {
    if fs == [] then NO_MAPS else Assign(AssignAll(fs[..|fs| - 1]), fs[|fs| - 1])
  }

  /** get_global_handle: -1 for a handle that was never assigned. */
  function GlobalHandle(m: Maps, f: FullHandle): int {
    if f in m.toGlobal then m.toGlobal[f] else -1
  }

  /** get_local_handle and get_module_index: -1 for an unknown global handle. */
  function LocalHandle(m: Maps, g: int): int {
    if g in m.toFull then m.toFull[g].localHandle else -1
  }

  function ModuleIndex(m: Maps, g: int): int {
    if g in m.toFull then m.toFull[g].moduleIndex else -1
  }

  ghost predicate NoDuplicates(fs: seq<FullHandle>) {
    forall i, j :: 0 <= i < j < |fs| ==> fs[i] != fs[j]
  }

  /** Sending a global handle to its sensor and back gives the same global handle. */
  ghost predicate GlobalsRoundTrip(m: Maps) {
    forall g :: g in m.toFull ==> GlobalHandle(m, m.toFull[g]) == g
  }

  /** global_to_full lists the sensors by number. */
  ghost predicate Numbered(m: Maps, fs: seq<FullHandle>) {
    && m.next == |fs| + 1
    && (forall g :: g in m.toFull <==> 1 <= g <= |fs|)
    && (forall g :: 1 <= g <= |fs| ==> m.toFull[g] == fs[g - 1])
  }

  ghost predicate LastAt(fs: seq<FullHandle>, f: FullHandle, g: int) {
    1 <= g <= |fs| && fs[g - 1] == f && forall i :: g <= i < |fs| ==> fs[i] != f
  }

  /** full_to_global gives each sensor the number of its last occurrence. */
  ghost predicate LastNumbers(m: Maps, fs: seq<FullHandle>) {
    && (forall f :: f in m.toGlobal <==> f in fs)
    && (forall f :: f in m.toGlobal ==> LastAt(fs, f, m.toGlobal[f]))
  }

  /** What the assignments leave behind, duplicates or not. */
  lemma {:induction false} AssignAllShape(fs: seq<FullHandle>)
    ensures Numbered(AssignAll(fs), fs) && LastNumbers(AssignAll(fs), fs)
  {
    if fs != [] {
      var k := |fs| - 1;
      AssignAllShape(fs[..k]);
      AssignKeepsNumbers(AssignAll(fs[..k]), fs[..k], fs[k]);
      assert fs[..k] + [fs[k]] == fs;
    }
  }

  lemma AssignKeepsNumbers(m: Maps, fs: seq<FullHandle>, f: FullHandle)
    requires Numbered(m, fs) && LastNumbers(m, fs)
    ensures Numbered(Assign(m, f), fs + [f]) && LastNumbers(Assign(m, f), fs + [f])
  {
  }

  /** A sensor's global handle leads back to that sensor, always. */
  lemma SensorRoundTrip(fs: seq<FullHandle>, f: FullHandle)
    requires f in fs
    ensures var m := AssignAll(fs);
      var g := GlobalHandle(m, f);
      && 1 <= g <= |fs|
      && ModuleIndex(m, g) == f.moduleIndex && LocalHandle(m, g) == f.localHandle
  {
    AssignAllShape(fs);
    assert LastAt(fs, f, AssignAll(fs).toGlobal[f]);
  }

  /** The two maps are inverse to each other exactly when no module lists a handle twice. */
  lemma InverseIffDistinct(fs: seq<FullHandle>)
    ensures GlobalsRoundTrip(AssignAll(fs)) <==> NoDuplicates(fs)
  {
    var m := AssignAll(fs);
    AssignAllShape(fs);
    if NoDuplicates(fs) {
      forall g | g in m.toFull ensures GlobalHandle(m, m.toFull[g]) == g {
        var f := m.toFull[g];
        assert f == fs[g - 1] && LastAt(fs, f, m.toGlobal[f]);
      }
    } else {
      var i, j :| 0 <= i < j < |fs| && fs[i] == fs[j];
      assert m.toFull[i + 1] == fs[i];
      assert LastAt(fs, fs[i], m.toGlobal[fs[i]]);
    }
  }

  /** The handles of all modules, in the order lazy_init_sensors_list visits them. */
  function AllHandles(modules: seq<seq<int>>): seq<FullHandle> {
    if modules == [] then []
    else AllHandles(modules[..|modules| - 1]) + ModuleHandles(|modules| - 1, modules[|modules| - 1])
  }

  function ModuleHandles(index: int, handles: seq<int>): (fs: seq<FullHandle>)
    ensures |fs| == |handles| && forall i :: 0 <= i < |fs| ==> fs[i] == FullHandle(index, handles[i])
  {
    if handles == [] then []
    else ModuleHandles(index, handles[..|handles| - 1]) + [FullHandle(index, handles[|handles| - 1])]
  }

  ghost predicate UniquePerModule(modules: seq<seq<int>>) {
    forall m, i, j :: 0 <= m < |modules| && 0 <= i < j < |modules[m]| ==> modules[m][i] != modules[m][j]
  }

  lemma {:induction false} HandlesOfModules(modules: seq<seq<int>>)
    ensures forall k :: 0 <= k < |AllHandles(modules)| ==> 0 <= AllHandles(modules)[k].moduleIndex < |modules|
    ensures forall f: FullHandle :: f in AllHandles(modules) <==>
      0 <= f.moduleIndex < |modules| && f.localHandle in modules[f.moduleIndex]
  {
    if modules != [] {
      var n := |modules| - 1;
      HandlesOfModules(modules[..n]);
      var last := ModuleHandles(n, modules[n]);
      assert forall f: FullHandle :: f in AllHandles(modules) <==> f in AllHandles(modules[..n]) || f in last;
      forall f: FullHandle ensures f in last <==> f.moduleIndex == n && f.localHandle in modules[n] {
        if f.moduleIndex == n && f.localHandle in modules[n] {
          var i :| 0 <= i < |modules[n]| && modules[n][i] == f.localHandle;
          assert last[i] == f;
        }
      }
    }
  }

  /** Handles unique within each module are enough: the module index keeps modules apart. */
  lemma {:induction false} UniqueMeansDistinct(modules: seq<seq<int>>)
    requires UniquePerModule(modules)
    ensures NoDuplicates(AllHandles(modules))
  {
    if modules != [] {
      var n := |modules| - 1;
      assert forall m :: 0 <= m < n ==> modules[..n][m] == modules[m];
      UniqueMeansDistinct(modules[..n]);
      HandlesOfModules(modules[..n]);
    }
  }

  /** The state of multihal.cpp's handle maps. */
  class HandleTable {
    var globalToFull: map<int, FullHandle>
    var fullToGlobal: map<FullHandle, int>
    var nextGlobalHandle: int

    ghost function Value(): Maps
      reads this
    {
      Maps(globalToFull, fullToGlobal, nextGlobalHandle)
    }

    constructor ()
      ensures Value() == AssignAll([])
    {
      globalToFull, fullToGlobal, nextGlobalHandle := map[], map[], 1;
    }

    method AssignGlobalHandle(moduleIndex: int, localHandle: int) returns (globalHandle: int)
      modifies this
      ensures Value() == Assign(old(Value()), FullHandle(moduleIndex, localHandle))
      ensures globalHandle == old(nextGlobalHandle)
    {
      globalHandle := nextGlobalHandle;
      nextGlobalHandle := nextGlobalHandle + 1;
      var fullHandle := FullHandle(moduleIndex, localHandle);
      fullToGlobal := fullToGlobal[fullHandle := globalHandle];
      globalToFull := globalToFull[globalHandle := fullHandle];
    }

    /** The second loop of lazy_init_sensors_list; `list` holds the handles of global_sensors_list. */
    method LazyInit(modules: seq<seq<int>>) returns (list: seq<int>)
      requires Value() == AssignAll([])
      modifies this
      ensures Value() == AssignAll(AllHandles(modules))
      ensures |list| == |AllHandles(modules)| && forall k :: 0 <= k < |list| ==> list[k] == k + 1
    {
      list := [];
      for m := 0 to |modules|
        invariant Value() == AssignAll(AllHandles(modules[..m]))
        invariant |list| == |AllHandles(modules[..m])| && nextGlobalHandle == |list| + 1
        invariant forall k :: 0 <= k < |list| ==> list[k] == k + 1
      {
        assert modules[..m + 1][..m] == modules[..m];
        ghost var before := AllHandles(modules[..m]);
        ghost var all := before;
        for i := 0 to |modules[m]|
          invariant all == before + ModuleHandles(m, modules[m][..i])
          invariant Value() == AssignAll(all)
          invariant |list| == |all| && nextGlobalHandle == |list| + 1
          invariant forall k :: 0 <= k < |list| ==> list[k] == k + 1
        {
          var g := AssignGlobalHandle(m, modules[m][i]);
          list := list + [g];
          assert modules[m][..i + 1][..i] == modules[m][..i];
          ghost var f := FullHandle(m, modules[m][i]);
          assert before + (ModuleHandles(m, modules[m][..i]) + [f]) == all + [f];
          assert (all + [f])[..|all|] == all;
          all := all + [f];
        }
        assert modules[m][..|modules[m]|] == modules[m];
      }
      assert modules[..|modules|] == modules;
    }
  }

  // ---- Events ----

  /** A sensors_event_t: `metaSensor` is meta_data.sensor, meaningful for SENSOR_TYPE_META_DATA only. */
  datatype Event = Event(isMeta: bool, sensor: int, metaSensor: int, payload: int)

  /** copy_event_remap_handle */
  function Remap(m: Maps, index: int, e: Event): Event {
    if e.isMeta then e.(metaSensor := GlobalHandle(m, FullHandle(index, e.metaSensor)))
    else e.(sensor := GlobalHandle(m, FullHandle(index, e.sensor)))
  }

  /** What poll passes on for an event: nothing if the remapped sensor field is -1. */
  function Deliver(m: Maps, index: int, e: Event): Option<Event> {
    var r := Remap(m, index, e);
    if r.sensor == -1 then None else Some(r)
  }

  /** A normal event is dropped exactly when its handle is unregistered, a metadata event exactly when its own
      sensor field is -1, which the metadata format does not use. */
  lemma DroppedIff(fs: seq<FullHandle>, index: int, e: Event)
    ensures Deliver(AssignAll(fs), index, e).None? <==>
      if e.isMeta then e.sensor == -1 else FullHandle(index, e.sensor) !in fs
  {
    AssignAllShape(fs);
    var f := FullHandle(index, e.sensor);
    if f in fs { SensorRoundTrip(fs, f); }
  }
}

/**
 * How ril_service.cpp replaces and resets a client's callbacks: checkReturnStatus gives up its read lock, takes the
 * write lock and compares a counter, racing with setResponseFunctions and with other failing calls.
 * A section under the write lock excludes every other holder of the lock, so it is one step.
 */
module CallbackReset {
  import opened Options

  /** Which callbacks: the radio or the OEM-hook service of a slot. */
  datatype Key = Key(slot: int, isRadio: bool)

  const COUNTER_RANGE := 0x1_0000_0000

  /** ++ on a volatile int32_t. */
  function Next(counter: int): int {
    if counter == 0x7fff_ffff then -0x8000_0000 else counter + 1
  }

  /** The value an int32_t counter that started at 0 has after n increments. */
  ghost function Counter(n: nat): int {
    (n + 0x8000_0000) % COUNTER_RANGE - 0x8000_0000
  }

  lemma CounterEqual(m: nat, n: nat)
    ensures Counter(m) == Counter(n) <==> (n - m) % COUNTER_RANGE == 0
  {
  }

  lemma NextCounts(n: nat)
    ensures Next(Counter(n)) == Counter(n + 1)
  {
  }

  /** getRadioServiceRwlock with SIM_COUNT == 2: slots count from 0 but are compared with 2, so 0 and 1 share a lock. */
  function RwlockOf(slot: int): int {
    if slot == 2 then 2 else 1
  }

  /** `callbacks` identifies the response and indication objects; generation counts their replacements. */
  datatype Service = Service(callbacks: Option<int>, counter: int, generation: nat)

  datatype Thread =
    | Idle
    | Calling(key: Key, used: Option<int>, generation: nat)               // holds the read lock
    | Noted(key: Key, counter: int, used: Option<int>, generation: nat)   // gave it up, wants the write lock
    | Relocking(key: Key)                                                 // wants the read lock back

  datatype State = State(services: map<Key, Service>, threads: map<int, Thread>)

  datatype Step =
    | SetResponseFunctions(key: Key, callbacks: Option<int>)
    | BeginCall(t: int, key: Key)    // take the read lock, call the client through the current callbacks
    | CallFails(t: int)              // checkReturnStatus: note the counter, release the read lock
    | WriteSection(t: int)           // take the write lock, reset if the counter is unchanged, release it
    | Relock(t: int)                 // take the read lock again; checkReturnStatus returns
    | EndCall(t: int)                // release the read lock

  /** Does thread t hold the read lock of this slot? */
  predicate Reads(s: State, t: int, slot: int) {
    t in s.threads && s.threads[t].Calling? && RwlockOf(s.threads[t].key.slot) == RwlockOf(slot)
  }

  ghost predicate NoReaders(s: State, slot: int) {
    forall t :: t in s.threads ==> !Reads(s, t, slot)
  }

  ghost predicate Enabled(s: State, step: Step) {
    match step
    case SetResponseFunctions(key, _) => key in s.services && NoReaders(s, key.slot)
    case BeginCall(t, key) => key in s.services && (t in s.threads ==> s.threads[t].Idle?)
    case CallFails(t) => t in s.threads && s.threads[t].Calling? && s.threads[t].key in s.services
    case WriteSection(t) =>
      t in s.threads && s.threads[t].Noted? && s.threads[t].key in s.services && NoReaders(s, s.threads[t].key.slot)
    case Relock(t) => t in s.threads && s.threads[t].Relocking? && s.threads[t].key in s.services
    case EndCall(t) => t in s.threads && s.threads[t].Calling?
  }

  function Replaced(v: Service, callbacks: Option<int>): Service {
    Service(callbacks, Next(v.counter), v.generation + 1)
  }

  ghost predicate Resets(s: State, t: int)
    requires Enabled(s, WriteSection(t))
  {
    s.threads[t].counter == s.services[s.threads[t].key].counter
  }

  ghost function Do(s: State, step: Step): State
    requires Enabled(s, step)
  {
    match step
    case SetResponseFunctions(key, callbacks) =>
      s.(services := s.services[key := Replaced(s.services[key], callbacks)])
    case BeginCall(t, key) =>
      s.(threads := s.threads[t := Calling(key, s.services[key].callbacks, s.services[key].generation)])
    case CallFails(t) =>
      var c := s.threads[t];
      s.(threads := s.threads[t := Noted(c.key, s.services[c.key].counter, c.used, c.generation)])
    case WriteSection(t) =>
      var key := s.threads[t].key;
      s.(threads := s.threads[t := Relocking(key)],
         services := if Resets(s, t) then s.services[key := Replaced(s.services[key], None)] else s.services)
    case Relock(t) =>
      var v := s.services[s.threads[t].key];
      s.(threads := s.threads[t := Calling(s.threads[t].key, v.callbacks, v.generation)])
    case EndCall(t) => s.(threads := s.threads[t := Idle])
  }

  ghost predicate Init(s: State) {
    s.threads == map[] && forall key :: key in s.services ==> s.services[key] == Service(None, 0, 0)
  }

  /** What a thread remembers of a service is what the service was at the remembered generation. */
  ghost predicate Remembers(v: Service, used: Option<int>, generation: nat) {
    generation <= v.generation && (generation == v.generation ==> v.callbacks == used)
  }

  ghost predicate ThreadOk(s: State, c: Thread) {
    match c
    case Idle => true
    case Calling(key, used, generation) =>
      key in s.services && s.services[key].generation == generation && s.services[key].callbacks == used
    case Noted(key, counter, used, generation) =>
      key in s.services && counter == Counter(generation) && Remembers(s.services[key], used, generation)
    case Relocking(key) => key in s.services
  }

  ghost predicate Inv(s: State) {
    && (forall key :: key in s.services ==> s.services[key].counter == Counter(s.services[key].generation))
    && (forall t :: t in s.threads ==> ThreadOk(s, s.threads[t]))
  }

  lemma ReplaceKeepsInv(s: State, s': State, key: Key, callbacks: Option<int>)
    requires Inv(s) && key in s.services && NoReaders(s, key.slot)
    requires s'.threads == s.threads && s'.services == s.services[key := Replaced(s.services[key], callbacks)]
    ensures Inv(s')
  {
    NextCounts(s.services[key].generation);
    hide Counter, Next;
    forall t | t in s'.threads ensures ThreadOk(s', s'.threads[t]) {
      assert ThreadOk(s, s.threads[t]) && !Reads(s, t, key.slot);
    }
  }

  lemma StepKeepsInv(s: State, step: Step)
    requires Inv(s) && Enabled(s, step)
    ensures Inv(Do(s, step))
  {
    hide Counter;
    var s' := Do(s, step);
    match step {
      case SetResponseFunctions(key, callbacks) => ReplaceKeepsInv(s, s', key, callbacks);
      case WriteSection(t) =>
        assert ThreadOk(s, s.threads[t]);
        var mid := s.(services := s'.services);
        if Resets(s, t) { ReplaceKeepsInv(s, mid, s.threads[t].key, None); }
        forall u | u in s'.threads ensures ThreadOk(s', s'.threads[u]) {
          if u != t { assert ThreadOk(mid, mid.threads[u]); }
        }
      case _ =>
        forall u | u in s'.threads ensures ThreadOk(s', s'.threads[u]) {
          if u in s.threads { assert ThreadOk(s, s.threads[u]); }
        }
    }
  }

  ghost predicate Taken(trace: seq<State>, steps: seq<Step>, i: nat)
    requires i < |steps| && |trace| == |steps| + 1
  {
    Enabled(trace[i], steps[i]) && trace[i + 1] == Do(trace[i], steps[i])
  }

  ghost predicate Run(trace: seq<State>, steps: seq<Step>) {
    && |trace| == |steps| + 1
    && Init(trace[0])
    && forall i :: 0 <= i < |steps| ==> Taken(trace, steps, i)
  }

  lemma {:induction false} RunKeepsInv(trace: seq<State>, steps: seq<Step>, n: nat)
    requires Run(trace, steps) && n < |trace|
    ensures Inv(trace[n])
  {
    if n > 0 {
      RunKeepsInv(trace, steps, n - 1);
      assert Taken(trace, steps, n - 1);
      StepKeepsInv(trace[n - 1], steps[n - 1]);
    }
  }

  /**
   * In every run, a failed call resets the callbacks exactly when they were not replaced since it used them, or
   * were replaced a multiple of 2^32 times; in the first case what it resets is what it used.
   */
  lemma ResetIff(trace: seq<State>, steps: seq<Step>, n: nat)
    requires Run(trace, steps) && n < |steps| && steps[n].WriteSection?
    ensures var s, t := trace[n], steps[n].t;
      && Enabled(s, steps[n])
      && var v := s.services[s.threads[t].key];
      && var replaced := v.generation - s.threads[t].generation;
      && 0 <= replaced
      && (Resets(s, t) <==> replaced % COUNTER_RANGE == 0)
      && (replaced == 0 ==> v.callbacks == s.threads[t].used)
  {
    RunKeepsInv(trace, steps, n);
    assert Taken(trace, steps, n);
    var s, t := trace[n], steps[n].t;
    assert ThreadOk(s, s.threads[t]);
    CounterEqual(s.threads[t].generation, s.services[s.threads[t].key].generation);
  }

  /** Unless 2^32 replacements overtake a failed call, it never resets newer callbacks, and leaves other keys alone. */
  lemma NewerCallbacksSurvive(trace: seq<State>, steps: seq<Step>, n: nat)
    requires Run(trace, steps) && n < |steps| && steps[n].WriteSection?
    requires var s, t := trace[n], steps[n].t;
      && t in s.threads && s.threads[t].Noted? && s.threads[t].key in s.services
      && s.services[s.threads[t].key].generation - s.threads[t].generation < COUNTER_RANGE
    ensures var s, s', key := trace[n], trace[n + 1], trace[n].threads[steps[n].t].key;
      && key in s'.services
      && (s.services[key].generation == s.threads[steps[n].t].generation ==>
            s.services[key].callbacks == s.threads[steps[n].t].used && s'.services[key].callbacks == None)
      && (s.services[key].generation != s.threads[steps[n].t].generation ==> s'.services == s.services)
      && (forall k :: k in s.services && k != key ==> k in s'.services && s'.services[k] == s.services[k])
  {
    ResetIff(trace, steps, n);
    assert Taken(trace, steps, n);
  }

  lemma {:induction false} GenerationsGrow(trace: seq<State>, steps: seq<Step>, m: nat, n: nat, key: Key)
    requires Run(trace, steps) && m <= n < |trace| && key in trace[m].services
    ensures key in trace[n].services && trace[m].services[key].generation <= trace[n].services[key].generation
  {
    if m < n {
      GenerationsGrow(trace, steps, m, n - 1, key);
      assert Taken(trace, steps, n - 1);
    }
  }

  /** Step i replaces or resets the callbacks of a key. */
  ghost predicate ChangesAt(trace: seq<State>, steps: seq<Step>, i: nat, key: Key) {
    && i < |steps| && i < |trace| && Enabled(trace[i], steps[i])
    && ((steps[i].SetResponseFunctions? && steps[i].key == key) ||
        (steps[i].WriteSection? && trace[i].threads[steps[i].t].key == key && Resets(trace[i], steps[i].t)))
  }

  lemma {:induction false} UnchangedBetween(trace: seq<State>, steps: seq<Step>, m: nat, n: nat, key: Key)
    requires Run(trace, steps) && m <= n < |trace| && key in trace[m].services
    requires forall i :: m <= i < n ==> !ChangesAt(trace, steps, i, key)
    ensures key in trace[n].services && trace[n].services[key] == trace[m].services[key]
  {
    if m < n {
      UnchangedBetween(trace, steps, m, n - 1, key);
      assert Taken(trace, steps, n - 1) && !ChangesAt(trace, steps, n - 1, key);
    }
  }

  /** In every run a key's callbacks are those of its latest setResponseFunctions, or none if it was reset since. */
  lemma CallbacksAreTheLatest(trace: seq<State>, steps: seq<Step>, i: nat, n: nat, key: Key)
    requires Run(trace, steps) && i < n < |trace| && ChangesAt(trace, steps, i, key) && key in trace[i].services
    requires forall j :: i < j < n ==> !ChangesAt(trace, steps, j, key)
    ensures key in trace[n].services
    ensures trace[n].services[key].callbacks == if steps[i].WriteSection? then None else steps[i].callbacks
  {
    assert Taken(trace, steps, i);
    UnchangedBetween(trace, steps, i + 1, n, key);
  }

  ghost function Changes(trace: seq<State>, steps: seq<Step>, n: nat, key: Key): nat {
    if n == 0 then 0 else Changes(trace, steps, n - 1, key) + if ChangesAt(trace, steps, n - 1, key) then 1 else 0
  }

  /** Generations count the replacements and resets of a key, and so does its counter. */
  lemma {:induction false} GenerationIs(trace: seq<State>, steps: seq<Step>, n: nat, key: Key)
    requires Run(trace, steps) && n < |trace| && key in trace[0].services
    ensures key in trace[n].services
    ensures trace[n].services[key].generation == Changes(trace, steps, n, key)
    ensures trace[n].services[key].counter == Counter(Changes(trace, steps, n, key))
  {
    RunKeepsInv(trace, steps, n);
    if n > 0 {
      GenerationIs(trace, steps, n - 1, key);
      assert Taken(trace, steps, n - 1);
      if !ChangesAt(trace, steps, n - 1, key) { UnchangedBetween(trace, steps, n - 1, n, key); }
    }
  }

  /** Thread t enters its write section at n, after a call on `key` that used the given generation. */
  ghost predicate DecidesAt(trace: seq<State>, steps: seq<Step>, n: nat, t: int, key: Key, generation: nat) {
    && n < |steps| && n < |trace| && steps[n] == WriteSection(t) && Enabled(trace[n], steps[n])
    && trace[n].threads[t].key == key && trace[n].threads[t].generation == generation
  }

  /**
   * However many calls fail on the same callbacks, one resets them: once one has, a later one resets again only
   * after a positive multiple of 2^32 replacements, and before that it changes nothing.
   */
  lemma ResetAtMostOnce(trace: seq<State>, steps: seq<Step>, m: nat, n: nat, t: int, u: int, key: Key, g: nat)
    requires Run(trace, steps) && m < n
    requires DecidesAt(trace, steps, m, t, key, g) && DecidesAt(trace, steps, n, u, key, g) && Resets(trace[m], t)
    ensures trace[n].services[key].generation > g
    ensures Resets(trace[n], u) <==> (trace[n].services[key].generation - g) % COUNTER_RANGE == 0
    ensures trace[n].services[key].generation - g < COUNTER_RANGE ==> trace[n + 1].services == trace[n].services
  {
    ResetIff(trace, steps, m);
    ResetIff(trace, steps, n);
    assert Taken(trace, steps, m) && Taken(trace, steps, n);
    GenerationsGrow(trace, steps, m + 1, n, key);
  }

  // ---- A failed call from its failure to its return ----

  /** Is this a step of thread t? */
  predicate By(step: Step, t: int) {
    !step.SetResponseFunctions? && step.t == t
  }

  ghost predicate NoneBy(steps: seq<Step>, t: int, m: nat, n: nat) {
    forall i :: m <= i < n && i < |steps| ==> !By(steps[i], t)
  }

  lemma {:induction false} FirstBy(steps: seq<Step>, t: int, m: nat, n: nat) returns (i: nat)
    requires m <= n < |steps| && By(steps[n], t)
    ensures m <= i <= n && By(steps[i], t) && NoneBy(steps, t, m, i)
    decreases n - m
  {
    if By(steps[m], t) {
      i := m;
    } else {
      i := FirstBy(steps, t, m + 1, n);
    }
  }

  lemma {:induction false} ThreadKept(trace: seq<State>, steps: seq<Step>, t: int, m: nat, n: nat)
    requires Run(trace, steps) && m <= n < |trace| && NoneBy(steps, t, m, n) && t in trace[m].threads
    ensures t in trace[n].threads && trace[n].threads[t] == trace[m].threads[t]
  {
    if m < n {
      ThreadKept(trace, steps, t, m, n - 1);
      assert Taken(trace, steps, n - 1) && !By(steps[n - 1], t);
    }
  }

  /**
   * In every run a call uses the callbacks that are current when it takes the read lock, and until its thread goes on
   * they are neither replaced nor reset.
   */
  lemma CallUsesCurrent(trace: seq<State>, steps: seq<Step>, m: nat, n: nat)
    requires Run(trace, steps) && m < n < |trace| && (steps[m].BeginCall? || steps[m].Relock?)
    requires NoneBy(steps, steps[m].t, m + 1, n)
    ensures steps[m].t in trace[n].threads && trace[n].threads[steps[m].t].Calling?
    ensures var c := trace[n].threads[steps[m].t];
      && (steps[m].BeginCall? ==> c.key == steps[m].key)
      && c.key in trace[m].services && c.key in trace[n].services
      && c.used == trace[m].services[c.key].callbacks && trace[n].services[c.key] == trace[m].services[c.key]
  {
    assert Taken(trace, steps, m);
    ThreadKept(trace, steps, steps[m].t, m + 1, n);
    RunKeepsInv(trace, steps, n);
    RunKeepsInv(trace, steps, m);
    assert ThreadOk(trace[n], trace[n].threads[steps[m].t]);
  }

  /** Does this step write under the lock of the slot? */
  ghost predicate WritesUnder(s: State, step: Step, slot: int) {
    || (step.SetResponseFunctions? && RwlockOf(step.key.slot) == RwlockOf(slot))
    || (step.WriteSection? && step.t in s.threads && s.threads[step.t].Noted? &&
        RwlockOf(s.threads[step.t].key.slot) == RwlockOf(slot))
  }

  /** While a thread holds the read lock, nothing is written under it. */
  lemma {:induction false} ReaderSeesOneVersion(
    trace: seq<State>, steps: seq<Step>, t: int, key: Key, m: nat, n: nat)
    requires Run(trace, steps) && m <= n < |trace| && NoneBy(steps, t, m, n)
    requires Reads(trace[m], t, key.slot) && key in trace[m].services
    ensures Reads(trace[n], t, key.slot)
    ensures key in trace[n].services && trace[n].services[key] == trace[m].services[key]
    ensures forall i :: m <= i < n ==> !WritesUnder(trace[i], steps[i], key.slot)
  {
    if m < n {
      ReaderSeesOneVersion(trace, steps, t, key, m, n - 1);
      ThreadKept(trace, steps, t, m, n);
      assert Taken(trace, steps, n - 1);
    }
  }

  /** Between m and n thread t takes two steps only: its write section at w and its relock at l. */
  ghost predicate DecidesThenRelocks(steps: seq<Step>, t: int, m: nat, w: nat, l: nat, n: nat) {
    && m < w < l < n < |steps| && steps[w] == WriteSection(t) && steps[l] == Relock(t)
    && NoneBy(steps, t, m + 1, w) && NoneBy(steps, t, w + 1, l) && NoneBy(steps, t, l + 1, n)
  }

  /**
   * A call that fails at m and whose thread goes on at n, ending the call or failing again, has in between decided
   * once about the reset and then taken the read lock back; from there to n it holds the lock, nothing is written
   * under it, and the callbacks at n are those it saw on return.
   */
  lemma LockHeldOnReturn(trace: seq<State>, steps: seq<Step>, t: int, m: nat, n: nat) returns (w: nat, l: nat)
    requires Run(trace, steps) && m < n < |steps| && steps[m] == CallFails(t)
    requires steps[n] == EndCall(t) || steps[n] == CallFails(t)
    requires forall i :: m < i < n ==> steps[i] != EndCall(t) && steps[i] != CallFails(t)
    ensures DecidesThenRelocks(steps, t, m, w, l, n)
    ensures t in trace[m].threads && trace[m].threads[t].Calling?
    ensures var key := trace[m].threads[t].key;
      && key in trace[l + 1].services && key in trace[n].services
      && trace[n].services[key] == trace[l + 1].services[key]
      && (forall j :: l < j <= n ==> Reads(trace[j], t, key.slot))
      && (forall i :: l < i < n ==> !WritesUnder(trace[i], steps[i], key.slot))
  {
    assert Taken(trace, steps, m);
    var key := trace[m].threads[t].key;
    w := FirstBy(steps, t, m + 1, n);
    ThreadKept(trace, steps, t, m + 1, w);
    assert Taken(trace, steps, w);
    l := FirstBy(steps, t, w + 1, n);
    ThreadKept(trace, steps, t, w + 1, l);
    assert Taken(trace, steps, l);
    var next := FirstBy(steps, t, l + 1, n);
    ThreadKept(trace, steps, t, l + 1, next);
    assert Taken(trace, steps, next);
    forall j | l < j <= n ensures Reads(trace[j], t, key.slot) {
      ReaderSeesOneVersion(trace, steps, t, key, l + 1, j);
    }
    ReaderSeesOneVersion(trace, steps, t, key, l + 1, n);
  }

  /** Steps that can be taken one after another from s to s'. */
  ghost predicate Leads(s: State, steps: seq<Step>, s': State)
    decreases |steps|
  {
    if steps == [] then s == s' else Enabled(s, steps[0]) && Leads(Do(s, steps[0]), steps[1..], s')
  }

  ghost function Readers(s: State, slot: int): set<int> {
    set u | u in s.threads && Reads(s, u, slot)
  }

  /**
   * A failed call cannot get stuck: wherever a run has come to, if the calls then reading under its lock end, it
   * takes the write lock and gets its read lock back, and no step of another kind is needed.
   */
  lemma {:induction false} FailedCallReturns(s: State, t: int) returns (steps: seq<Step>, s': State)
    requires Inv(s) && t in s.threads && s.threads[t].Noted?
    ensures Leads(s, steps, s') && Reads(s', t, s.threads[t].key.slot)
    ensures |steps| == |Readers(s, s.threads[t].key.slot)| + 2
    ensures forall i :: 0 <= i < |steps| && !By(steps[i], t) ==>
      steps[i].EndCall? && steps[i].t in Readers(s, s.threads[t].key.slot)
    decreases Readers(s, s.threads[t].key.slot)
  {
    var slot := s.threads[t].key.slot;
    var readers := Readers(s, slot);
    assert ThreadOk(s, s.threads[t]);
    if readers == {} {
      assert NoReaders(s, slot) by {
        forall u | u in s.threads ensures !Reads(s, u, slot) { assert u !in readers; }
      }
      var mid := Do(s, WriteSection(t));
      steps, s' := [WriteSection(t), Relock(t)], Do(mid, Relock(t));
      assert steps[1..] == [Relock(t)] && steps[1..][1..] == [];
      assert Leads(mid, steps[1..], s');
    } else {
      var u :| u in readers;
      var next := Do(s, EndCall(u));
      StepKeepsInv(s, EndCall(u));
      assert Readers(next, slot) == readers - {u};
      var rest;
      rest, s' := FailedCallReturns(next, t);
      steps := [EndCall(u)] + rest;
      assert steps[1..] == rest;
    }
  }

  // ---- The fields on the heap ----

  /** The callbacks that RadioImpl and OemHookImpl keep per slot, with the slot's counter. */
  class CallbackHolder {
    var callbacks: Option<int>
    var counter: int
    ghost var generation: nat

    ghost predicate Valid()
      reads this
    {
      counter == Counter(generation)
    }

    constructor ()
      ensures Valid() && callbacks == None && generation == 0
    {
      callbacks, counter, generation := None, 0, 0;
    }

    /** The write-locked part of setResponseFunctions: every counter noted within 2^32 replacements is now outdated. */
    method SetResponseFunctions(param: Option<int>)
      requires Valid()
      modifies this
      ensures Valid() && callbacks == param && generation == old(generation) + 1
      ensures forall g: nat :: g <= old(generation) < g + COUNTER_RANGE - 1 ==> counter != Counter(g)
    {
      callbacks := param;
      counter := Next(counter);
      generation := generation + 1;
    }

    /** The write-locked part of checkReturnStatus, for a counter noted at generation g. */
    method ResetIfUnchanged(noted: int, ghost g: nat)
      requires Valid() && g <= generation && noted == Counter(g)
      modifies this
      ensures Valid()
      ensures (old(generation) - g) % COUNTER_RANGE == 0 ==> callbacks == None && generation == old(generation) + 1
      ensures (old(generation) - g) % COUNTER_RANGE != 0 ==>
        callbacks == old(callbacks) && generation == old(generation)
    {
      CounterEqual(g, generation);
      if noted == counter {
        callbacks := None;
        counter := Next(counter);
        generation := generation + 1;
      }
    }

    /**
     * checkReturnStatus after a failed call, while other threads replace the callbacks by `others` in turn: the
     * failed call's callbacks go, a newer replacement stays.
     */
    method CheckReturnStatus(others: seq<Option<int>>)
      requires Valid()
      modifies this
      ensures Valid()
      ensures callbacks == if |others| % COUNTER_RANGE == 0 then None else others[|others| - 1]
    {
      var noted := counter;
      ghost var g := generation;
      for i := 0 to |others|
        invariant Valid() && generation == g + i
        invariant i > 0 ==> callbacks == others[i - 1]
      {
        SetResponseFunctions(others[i]);
      }
      ResetIfUnchanged(noted, g);
    }
  }
}

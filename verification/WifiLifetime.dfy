/**
 * Reference counts of WiFi commands while the API thread starts and cancels them and the event thread dispatches to
 * them, each table operation being one step. A command's first reference is its owner's: whoever takes the command
 * out of the command table has to release it.
 */
module WifiLifetime {
  import opened Options
  import opened WifiTables

  const DEFAULT_CMD_SIZE := 64
  const DEFAULT_EVENT_CB_SIZE := 64

  /** `completes`: the command ends itself from its own event, as RTT does; `keys`: the events it listens to. */
  datatype Cmd = Cmd(address: int, id: int, keys: seq<int>, completes: bool)

  ghost predicate DistinctEvents(keys: seq<int>) {
    forall i, j :: 0 <= i < j < |keys| ==> keys[i] != keys[j]
  }

  ghost predicate WellFormed(c: Cmd) {
    && DistinctEvents(c.keys)
    && (c.completes ==> |c.keys| == 1)
  }

  /** The thread that calls wifi_rtt_range_request, wifi_start_gscan, wifi_cancel_cmd and the like. */
  datatype Api =
    | Idle
    | Starting(cmd: Cmd, n: nat)     // start(): the first n handlers are registered
    | Undoing(cmd: Cmd, n: nat)      // start() failed: the first n handlers are to be unregistered
    | Dropping(cmd: Cmd)             // start() failed: the command is out of its table
    | Cancelling(cmd: Cmd, n: nat)   // cancel(): the handlers from n on are to be unregistered

  /** The event thread. */
  datatype Events =
    | Waiting
    | InCallback(cmd: Cmd)                       // dispatched, with a reference of its own
    | Unhandled(cmd: Cmd)                        // completing: its own handler is unregistered
    | Found(cmd: Cmd, owned: Option<Cmd>)        // completing: what wifi_unregister_cmd returned
    | Returning(cmd: Cmd)

  datatype State = State(
    cmds: seq<Entry<int, Cmd>>,
    handlers: seq<Entry<int, Cmd>>,
    refs: map<Cmd, int>,             // mRefs of the commands that are not deleted
    api: Api,
    events: Events,
    created: set<Cmd>,
    ownerReleases: map<Cmd, int>)    // how often the owner's reference was released

  datatype Step =
    | Create(cmd: Cmd)
    | RegisterHandler
    | StartDone
    | StartFails
    | UndoHandler
    | UndoCmd
    | DropRef
    | CancelCmd(id: int)
    | CancelHandler
    | CancelRef
    | StopEvent(key: int)            // a handler only: a stop request without an id, or an early failure
    | Dispatch(key: int)
    | CompleteHandler
    | CompleteCmd
    | CompleteRef
    | Return

  ghost predicate Enabled(s: State, step: Step) {
    match step
    case Create(c) => s.api.Idle? && c !in s.created && WellFormed(c)
    case RegisterHandler => s.api.Starting? && s.api.n < |s.api.cmd.keys|
    case StartDone => s.api.Starting? && s.api.n == |s.api.cmd.keys|
    case StartFails => s.api.Starting? && (s.api.cmd.completes ==> s.api.n == 0)
    case UndoHandler => s.api.Undoing? && 0 < s.api.n <= |s.api.cmd.keys|
    case UndoCmd => s.api.Undoing? && s.api.n == 0
    case DropRef => s.api.Dropping?
    case CancelCmd(_) => s.api.Idle?
    case CancelHandler => s.api.Cancelling? && s.api.n < |s.api.cmd.keys|
    case CancelRef => s.api.Cancelling? && s.api.n == |s.api.cmd.keys|
    case StopEvent(_) => s.api.Idle? || s.api.Starting?
    case Dispatch(key) => s.events.Waiting? && FindFirst(s.handlers, key).Some?
    case CompleteHandler => s.events.InCallback? && s.events.cmd.completes && s.events.cmd.keys != []
    case CompleteCmd => s.events.Unhandled?
    case CompleteRef => s.events.Found?
    case Return => s.events.InCallback? || s.events.Returning?
  }

  function RefsOf(s: State, c: Cmd): int {
    if c in s.refs then s.refs[c] else 0
  }

  /** addRef */
  function AddRef(s: State, c: Cmd): State {
    s.(refs := s.refs[c := RefsOf(s, c) + 1])
  }

  /** releaseRef: at zero the command is deleted. */
  function ReleaseRef(s: State, c: Cmd): State {
    s.(refs := if RefsOf(s, c) == 1 then s.refs - {c} else s.refs[c := RefsOf(s, c) - 1])
  }

  function Releases(s: State, c: Cmd): int {
    if c in s.ownerReleases then s.ownerReleases[c] else 0
  }

  function ReleaseOwner(s: State, c: Cmd): State {
    ReleaseRef(s, c).(ownerReleases := s.ownerReleases[c := Releases(s, c) + 1])
  }

  function Unregistered(s: State, key: int): State {
    s.(handlers := RemoveFirst(s.handlers, key))
  }

  ghost function Do(s: State, step: Step): State
    requires Enabled(s, step)
  {
    match step
    case Create(c) =>
      var s := s.(refs := s.refs[c := 1], created := s.created + {c});
      if |s.cmds| < DEFAULT_CMD_SIZE
      then s.(cmds := s.cmds + [Entry(c.id, c)], api := Starting(c, 0))
      else ReleaseOwner(s, c)
    case RegisterHandler =>
      var c, n := s.api.cmd, s.api.n;
      var s := s.(api := Starting(c, n + 1));
      if |s.handlers| < DEFAULT_EVENT_CB_SIZE then s.(handlers := s.handlers + [Entry(c.keys[n], c)]) else s
    case StartDone => s.(api := Idle)
    case StartFails => s.(api := Undoing(s.api.cmd, s.api.n))
    case UndoHandler => Unregistered(s, s.api.cmd.keys[s.api.n - 1]).(api := Undoing(s.api.cmd, s.api.n - 1))
    case UndoCmd => s.(cmds := RemoveFirst(s.cmds, s.api.cmd.id), api := Dropping(s.api.cmd))
    case DropRef => ReleaseOwner(s, s.api.cmd).(api := Idle)
    case CancelCmd(id) =>
      (match FindFirst(s.cmds, id)
       case None => s
       case Some(c) => s.(cmds := RemoveFirst(s.cmds, id), api := Cancelling(c, 0)))
    case CancelHandler => Unregistered(s, s.api.cmd.keys[s.api.n]).(api := Cancelling(s.api.cmd, s.api.n + 1))
    case CancelRef => ReleaseOwner(s, s.api.cmd).(api := Idle)
    case StopEvent(key) => Unregistered(s, key)
    case Dispatch(key) =>
      var c := FindFirst(s.handlers, key).value;
      AddRef(s, c).(events := InCallback(c))
    case CompleteHandler => Unregistered(s, s.events.cmd.keys[0]).(events := Unhandled(s.events.cmd))
    case CompleteCmd =>
      s.(cmds := RemoveFirst(s.cmds, s.events.cmd.id),
         events := Found(s.events.cmd, FindFirst(s.cmds, s.events.cmd.id)))
    case CompleteRef =>
      (match s.events.owned
       case None => s.(events := Returning(s.events.cmd))
       case Some(c) => ReleaseOwner(s, c).(events := Returning(s.events.cmd)))
    case Return => ReleaseRef(s, s.events.cmd).(events := Waiting)
  }

  /** A new command has an id and events of its own among the commands that are not deleted. */
  ghost predicate Careful(s: State, step: Step) {
    step.Create? ==> forall d :: d in s.refs ==> Disjoint(step.cmd, d)
  }

  ghost predicate InTable(s: State, c: Cmd) {
    Entry(c.id, c) in s.cmds
  }

  /** The API thread took the command out of the table and has to release it. */
  ghost predicate ApiOwns(s: State, c: Cmd) {
    (s.api.Dropping? || s.api.Cancelling?) && s.api.cmd == c
  }

  ghost predicate EventsOwn(s: State, c: Cmd) {
    s.events.Found? && s.events.owned == Some(c)
  }

  ghost predicate Owned(s: State, c: Cmd) {
    InTable(s, c) || ApiOwns(s, c) || EventsOwn(s, c)
  }

  ghost predicate EventsHold(s: State, c: Cmd) {
    !s.events.Waiting? && s.events.cmd == c
  }

  ghost predicate Handled(s: State, k: int, c: Cmd) {
    Entry(k, c) in s.handlers
  }

  ghost predicate Live(s: State, c: Cmd) {
    Owned(s, c) || EventsHold(s, c)
  }

  /** The references of a command are its owner's and the event thread's; without any it is deleted. */
  ghost predicate RefsOk(s: State, c: Cmd) {
    && RefsOf(s, c) == (if Owned(s, c) then 1 else 0) + (if EventsHold(s, c) then 1 else 0)
    && (c in s.refs <==> Live(s, c))
  }

  ghost predicate OneOwner(s: State, c: Cmd) {
    && !(InTable(s, c) && ApiOwns(s, c))
    && !(InTable(s, c) && EventsOwn(s, c))
    && !(ApiOwns(s, c) && EventsOwn(s, c))
  }

  /** The owner's reference is released once, when nobody has the command any more to release it again. */
  ghost predicate OwnerOk(s: State, c: Cmd) {
    OneOwner(s, c) && Releases(s, c) == if c in s.created && !Owned(s, c) then 1 else 0
  }

  ghost predicate Counted(s: State) {
    && (forall c :: RefsOk(s, c))
    && (forall c :: OwnerOk(s, c))
  }

  /** A handler's command is in the command table, or is being cancelled and this handler's turn comes. */
  ghost predicate HandlerOk(s: State, k: int, c: Cmd) {
    && k in c.keys
    && (InTable(s, c) || (s.api.Cancelling? && s.api.cmd == c && s.api.n <= |c.keys| && k in c.keys[s.api.n..]))
    && ((s.api.Starting? || s.api.Undoing?) && s.api.cmd == c ==> s.api.n <= |c.keys| && k in c.keys[..s.api.n])
    && !(s.events.Unhandled? && s.events.cmd == c)
  }

  ghost predicate HandlersOk(s: State) {
    DistinctKeys(s.handlers) && forall k, c :: Handled(s, k, c) ==> HandlerOk(s, k, c)
  }

  ghost predicate CmdsOk(s: State) {
    DistinctKeys(s.cmds) && forall e :: e in s.cmds ==> e.key == e.value.id
  }

  /** Live commands have distinct ids and listen to distinct events. */
  ghost predicate Apart(s: State) {
    && (forall c :: Live(s, c) ==> c in s.created && WellFormed(c))
    && (forall c, d :: Live(s, c) && Live(s, d) && c != d ==> Disjoint(c, d))
  }

  ghost predicate Disjoint(c: Cmd, d: Cmd) {
    c.id != d.id && forall k :: k in c.keys ==> k !in d.keys
  }

  ghost predicate PhasesOk(s: State) {
    && (!s.api.Idle? ==> WellFormed(s.api.cmd))
    && (s.api.Starting? && (s.api.n < |s.api.cmd.keys| || !s.api.cmd.completes) ==> InTable(s, s.api.cmd))
    && (s.api.Undoing? ==> InTable(s, s.api.cmd))
    && (s.api.Starting? || s.api.Undoing? || s.api.Cancelling? ==> s.api.n <= |s.api.cmd.keys|)
    && ((s.api.Starting? || s.api.Undoing?) && s.api.n == 0 && s.api.cmd.completes ==> !EventsHold(s, s.api.cmd))
    && (s.api.Undoing? && s.api.cmd.completes ==> s.api.n == 0)
    && (s.events.Unhandled? || s.events.Found? ==> s.events.cmd.completes)
    && (s.events.Found? && s.events.owned.Some? ==> s.events.owned.value == s.events.cmd)
  }

  ghost predicate Inv(s: State) {
    Counted(s) && HandlersOk(s) && CmdsOk(s) && Apart(s) && PhasesOk(s)
  }

  /** Nothing but the place of owned commands changes. */
  lemma SameOwners(s: State, s': State)
    requires Counted(s) && Apart(s)
    requires s'.refs == s.refs && s'.created == s.created && s'.ownerReleases == s.ownerReleases
    requires forall c :: Owned(s', c) == Owned(s, c) && EventsHold(s', c) == EventsHold(s, c)
    requires forall c :: OneOwner(s', c)
    ensures Counted(s') && Apart(s')
  {
    hide Owned, EventsHold, OneOwner;
    forall c ensures RefsOk(s', c) && OwnerOk(s', c) { assert RefsOk(s, c) && OwnerOk(s, c); }
  }

  /** The owner's reference of c goes. */
  lemma OwnerGone(s: State, s': State, c: Cmd)
    requires Counted(s) && Apart(s) && Owned(s, c)
    requires s'.refs == ReleaseRef(s, c).refs && s'.created == s.created
    requires s'.ownerReleases == s.ownerReleases[c := Releases(s, c) + 1]
    requires forall d :: Owned(s', d) == (Owned(s, d) && d != c) && EventsHold(s', d) == EventsHold(s, d)
    requires forall d :: OneOwner(s', d)
    ensures Counted(s') && Apart(s')
  {
    hide Owned, EventsHold, OneOwner;
    assert RefsOk(s, c) && OwnerOk(s, c);
    forall d ensures RefsOk(s', d) && OwnerOk(s', d) { assert RefsOk(s, d) && OwnerOk(s, d); }
  }

  lemma StartEnds(s: State, step: Step)
    requires Inv(s) && Enabled(s, step) && (step.StartDone? || step.StartFails?)
    ensures Inv(Do(s, step))
  {
    var s' := Do(s, step);
    forall c ensures Owned(s', c) == Owned(s, c) && OneOwner(s', c) { assert OwnerOk(s, c); }
    SameOwners(s, s');
    hide Counted, Apart, Owned;
    forall k, c | Handled(s', k, c) ensures HandlerOk(s', k, c) { assert Handled(s, k, c); }
  }

  lemma RegisterHandlerKeeps(s: State)
    requires Inv(s) && Enabled(s, RegisterHandler)
    ensures Inv(Do(s, RegisterHandler))
  {
    var s', c, n := Do(s, RegisterHandler), s.api.cmd, s.api.n;
    forall d ensures Owned(s', d) == Owned(s, d) && OneOwner(s', d) { assert OwnerOk(s, d); }
    SameOwners(s, s');
    NewKey(s);
    hide Counted, Apart, Owned;
    assert c.keys[..n + 1] == c.keys[..n] + [c.keys[n]];
    forall k, d | Handled(s', k, d) ensures HandlerOk(s', k, d) {
      assert Handled(s, k, d) ==> HandlerOk(s, k, d);
    }
  }

  /** The next event that a starting command registers for has no handler yet. */
  lemma NewKey(s: State)
    requires Inv(s) && Enabled(s, RegisterHandler)
    ensures forall i :: 0 <= i < |s.handlers| ==> s.handlers[i].key != s.api.cmd.keys[s.api.n]
    ensures Live(s, s.api.cmd) && WellFormed(s.api.cmd)
  {
    var c, n := s.api.cmd, s.api.n;
    forall i | 0 <= i < |s.handlers| ensures s.handlers[i].key != c.keys[n] {
      var e := s.handlers[i];
      assert Handled(s, e.key, e.value) && HandlerOk(s, e.key, e.value);
      assert Live(s, e.value) && Live(s, c);
      assert e.value != c ==> Disjoint(c, e.value);
    }
  }

  lemma CreateKeeps(s: State, c: Cmd)
    requires Inv(s) && Enabled(s, Create(c)) && Careful(s, Create(c))
    ensures Inv(Do(s, Create(c)))
  {
    var s' := Do(s, Create(c));
    NewCommand(s, c);
    CreateCounts(s, c);
    forall k, d | Handled(s', k, d) ensures HandlerOk(s', k, d) {
      assert Handled(s, k, d) && HandlerOk(s, k, d);
      assert Live(s, d);
    }
  }

  lemma NewCommand(s: State, c: Cmd)
    requires Inv(s) && Enabled(s, Create(c)) && Careful(s, Create(c))
    ensures !Live(s, c) && c !in s.refs && RefsOf(s, c) == 0 && Releases(s, c) == 0
    ensures forall d :: Live(s, d) ==> Disjoint(c, d) && Disjoint(d, c)
    ensures forall i :: 0 <= i < |s.cmds| ==> s.cmds[i].key != c.id
  {
    assert RefsOk(s, c) && OwnerOk(s, c);
    forall d | Live(s, d) ensures Disjoint(c, d) && Disjoint(d, c) { assert RefsOk(s, d); }
    forall i | 0 <= i < |s.cmds| ensures s.cmds[i].key != c.id {
      assert s.cmds[i] in s.cmds && InTable(s, s.cmds[i].value);
      assert Live(s, s.cmds[i].value);
    }
  }

  lemma CreateCounts(s: State, c: Cmd)
    requires Inv(s) && Enabled(s, Create(c)) && Careful(s, Create(c))
    ensures Counted(Do(s, Create(c))) && Apart(Do(s, Create(c)))
  {
    var s' := Do(s, Create(c));
    NewCommand(s, c);
    forall d ensures RefsOk(s', d) && OwnerOk(s', d) {
      assert RefsOk(s, d) && OwnerOk(s, d);
      assert d != c ==> Owned(s', d) == Owned(s, d);
    }
    assert forall d :: d != c ==> Live(s', d) == Live(s, d);
  }

  lemma UndoHandlerKeeps(s: State)
    requires Inv(s) && Enabled(s, UndoHandler)
    ensures Inv(Do(s, UndoHandler))
  {
    var s', c, n := Do(s, UndoHandler), s.api.cmd, s.api.n;
    forall d ensures Owned(s', d) == Owned(s, d) && OneOwner(s', d) { assert OwnerOk(s, d); }
    SameOwners(s, s');
    hide Counted, Apart, Owned;
    DistinctTable(s.handlers, c.keys[n - 1]);
    assert c.keys[..n] == c.keys[..n - 1] + [c.keys[n - 1]];
    forall k, d | Handled(s', k, d) ensures HandlerOk(s', k, d) { assert Handled(s, k, d); }
  }

  lemma UndoCmdKeeps(s: State)
    requires Inv(s) && Enabled(s, UndoCmd)
    ensures Inv(Do(s, UndoCmd))
  {
    var s', c := Do(s, UndoCmd), s.api.cmd;
    DistinctTable(s.cmds, c.id);
    assert InTable(s, c);
    forall d ensures Owned(s', d) == Owned(s, d) && OneOwner(s', d) { assert OwnerOk(s, d); }
    SameOwners(s, s');
    hide Counted, Apart, Owned;
    forall k, d | Handled(s', k, d) ensures HandlerOk(s', k, d) { assert Handled(s, k, d); }
  }

  lemma CancelCmdKeeps(s: State, id: int)
    requires Inv(s) && Enabled(s, CancelCmd(id))
    ensures Inv(Do(s, CancelCmd(id)))
  {
    var s' := Do(s, CancelCmd(id));
    DistinctTable(s.cmds, id);
    if s' != s {
      var c := s'.api.cmd;
      assert Entry(id, c) in s.cmds && InTable(s, c) && Live(s, c);
      forall d ensures Owned(s', d) == Owned(s, d) && OneOwner(s', d) { assert OwnerOk(s, d); }
      SameOwners(s, s');
      assert c.keys[0..] == c.keys;
      hide Counted, Apart, Owned;
      forall k, d | Handled(s', k, d) ensures HandlerOk(s', k, d) { assert Handled(s, k, d); }
    }
  }

  lemma CancelHandlerKeeps(s: State)
    requires Inv(s) && Enabled(s, CancelHandler)
    ensures Inv(Do(s, CancelHandler))
  {
    var s', c, n := Do(s, CancelHandler), s.api.cmd, s.api.n;
    forall d ensures Owned(s', d) == Owned(s, d) && OneOwner(s', d) { assert OwnerOk(s, d); }
    SameOwners(s, s');
    hide Counted, Apart, Owned;
    DistinctTable(s.handlers, c.keys[n]);
    assert c.keys[n..] == [c.keys[n]] + c.keys[n + 1..];
    hide RemoveFirst, DistinctKeys;
    forall k, d | Handled(s', k, d) ensures HandlerOk(s', k, d) { assert Handled(s, k, d); }
  }

  lemma StopEventKeeps(s: State, key: int)
    requires Inv(s) && Enabled(s, StopEvent(key))
    ensures Inv(Do(s, StopEvent(key)))
  {
    var s' := Do(s, StopEvent(key));
    forall d ensures Owned(s', d) == Owned(s, d) && OneOwner(s', d) { assert OwnerOk(s, d); }
    SameOwners(s, s');
    hide Counted, Apart, Owned;
    DistinctTable(s.handlers, key);
    forall k, d | Handled(s', k, d) ensures HandlerOk(s', k, d) { assert Handled(s, k, d); }
  }

  lemma ApiReleases(s: State, step: Step)
    requires Inv(s) && Enabled(s, step) && (step.DropRef? || step.CancelRef?)
    ensures Inv(Do(s, step))
  {
    var s', c := Do(s, step), s.api.cmd;
    assert OwnerOk(s, c) && ApiOwns(s, c);
    forall d ensures Owned(s', d) == (Owned(s, d) && d != c) && OneOwner(s', d) { assert OwnerOk(s, d); }
    OwnerGone(s, s', c);
    forall k, d | Handled(s', k, d) ensures HandlerOk(s', k, d) {
      assert Handled(s, k, d) && HandlerOk(s, k, d);
    }
  }

  lemma DispatchKeeps(s: State, key: int)
    requires Inv(s) && Enabled(s, Dispatch(key))
    ensures Inv(Do(s, Dispatch(key)))
  {
    var s', c := Do(s, Dispatch(key)), FindFirst(s.handlers, key).value;
    DistinctTable(s.handlers, key);
    assert Handled(s, key, c) && HandlerOk(s, key, c);
    assert Live(s, c);
    forall d ensures RefsOk(s', d) && OwnerOk(s', d) {
      assert RefsOk(s, d) && OwnerOk(s, d) && Owned(s', d) == Owned(s, d);
    }
    assert forall d :: Live(s', d) == Live(s, d);
    forall k, d | Handled(s', k, d) ensures HandlerOk(s', k, d) { assert Handled(s, k, d); }
  }

  lemma CompleteHandlerKeeps(s: State)
    requires Inv(s) && Enabled(s, CompleteHandler)
    ensures Inv(Do(s, CompleteHandler))
  {
    var s', c := Do(s, CompleteHandler), s.events.cmd;
    assert Live(s, c) && WellFormed(c);
    forall d ensures Owned(s', d) == Owned(s, d) && OneOwner(s', d) { assert OwnerOk(s, d); }
    SameOwners(s, s');
    hide Counted, Apart, Owned;
    DistinctTable(s.handlers, c.keys[0]);
    forall k, d | Handled(s', k, d) ensures HandlerOk(s', k, d) { assert Handled(s, k, d); }
  }

  lemma CompleteCmdKeeps(s: State)
    requires Inv(s) && Enabled(s, CompleteCmd)
    ensures Inv(Do(s, CompleteCmd))
  {
    var s', c := Do(s, CompleteCmd), s.events.cmd;
    DistinctTable(s.cmds, c.id);
    forall d | Entry(c.id, d) in s.cmds ensures d == c {
      assert InTable(s, d) && Live(s, d) && Live(s, c);
    }
    forall d ensures Owned(s', d) == Owned(s, d) && OneOwner(s', d) { assert OwnerOk(s, d); }
    SameOwners(s, s');
    hide Counted, Apart, Owned;
    forall k, d | Handled(s', k, d) ensures HandlerOk(s', k, d) { assert Handled(s, k, d); }
  }

  lemma CompleteRefKeeps(s: State)
    requires Inv(s) && Enabled(s, CompleteRef)
    ensures Inv(Do(s, CompleteRef))
  {
    var s', c := Do(s, CompleteRef), s.events.cmd;
    if s.events.owned.Some? {
      assert OwnerOk(s, c) && EventsOwn(s, c);
      forall d ensures Owned(s', d) == (Owned(s, d) && d != c) && OneOwner(s', d) { assert OwnerOk(s, d); }
      OwnerGone(s, s', c);
    } else {
      forall d ensures Owned(s', d) == Owned(s, d) && OneOwner(s', d) { assert OwnerOk(s, d); }
      SameOwners(s, s');
    }
    hide Counted, Apart, Owned;
    forall k, d | Handled(s', k, d) ensures HandlerOk(s', k, d) { assert Handled(s, k, d); }
  }

  lemma ReturnKeeps(s: State)
    requires Inv(s) && Enabled(s, Return)
    ensures Inv(Do(s, Return))
  {
    var s', c := Do(s, Return), s.events.cmd;
    assert RefsOk(s, c);
    forall d ensures RefsOk(s', d) && OwnerOk(s', d) {
      assert RefsOk(s, d) && OwnerOk(s, d) && Owned(s', d) == Owned(s, d);
    }
    assert forall d :: Live(s', d) ==> Live(s, d);
    forall k, d | Handled(s', k, d) ensures HandlerOk(s', k, d) { assert Handled(s, k, d); }
  }

  lemma StepKeepsInv(s: State, step: Step)
    requires Inv(s) && Enabled(s, step) && Careful(s, step)
    ensures Inv(Do(s, step))
  {
    match step {
      case Create(c) => CreateKeeps(s, c);
      case RegisterHandler => RegisterHandlerKeeps(s);
      case StartDone => StartEnds(s, step);
      case StartFails => StartEnds(s, step);
      case UndoHandler => UndoHandlerKeeps(s);
      case UndoCmd => UndoCmdKeeps(s);
      case DropRef => ApiReleases(s, step);
      case CancelCmd(id) => CancelCmdKeeps(s, id);
      case CancelHandler => CancelHandlerKeeps(s);
      case CancelRef => ApiReleases(s, step);
      case StopEvent(key) => StopEventKeeps(s, key);
      case Dispatch(key) => DispatchKeeps(s, key);
      case CompleteHandler => CompleteHandlerKeeps(s);
      case CompleteCmd => CompleteCmdKeeps(s);
      case CompleteRef => CompleteRefKeeps(s);
      case Return => ReturnKeeps(s);
    }
    hide Inv, Do;
  }

  ghost predicate Init(s: State) {
    s == State([], [], map[], Idle, Waiting, {}, map[])
  }

  ghost predicate Taken(trace: seq<State>, steps: seq<Step>, i: nat)
    requires i < |steps| && |trace| == |steps| + 1
  {
    Enabled(trace[i], steps[i]) && trace[i + 1] == Do(trace[i], steps[i])
  }

  ghost predicate Run(trace: seq<State>, steps: seq<Step>) {
    && |trace| == |steps| + 1
    && Init(trace[0])
    && forall i :: 0 <= i < |steps| ==> Taken(trace, steps, i)
  }

  ghost predicate CarefulRun(trace: seq<State>, steps: seq<Step>) {
    Run(trace, steps) && forall i :: 0 <= i < |steps| ==> Careful(trace[i], steps[i])
  }

  lemma InitHolds(s: State)
    requires Init(s)
    ensures Inv(s)
  {
  }

  lemma {:induction false} RunKeepsInv(trace: seq<State>, steps: seq<Step>, n: nat)
    requires CarefulRun(trace, steps) && n < |trace|
    ensures Inv(trace[n])
  {
    hide Inv, Do, Init, Enabled, Careful;
    if n == 0 {
      InitHolds(trace[0]);
    } else {
      RunKeepsInv(trace, steps, n - 1);
      assert Taken(trace, steps, n - 1) && Careful(trace[n - 1], steps[n - 1]);
      StepKeepsInv(trace[n - 1], steps[n - 1]);
    }
  }

  /** In every careful run each registered handler belongs to a command that is not deleted. */
  lemma HandlersAlive(trace: seq<State>, steps: seq<Step>, n: nat, e: Entry<int, Cmd>)
    requires CarefulRun(trace, steps) && n < |trace| && e in trace[n].handlers
    ensures e.value in trace[n].refs && trace[n].refs[e.value] >= 1
  {
    RunKeepsInv(trace, steps, n);
    assert Handled(trace[n], e.key, e.value) && RefsOk(trace[n], e.value);
  }

  /** In every careful run a dispatched command is not deleted before its callback has returned, whatever completes or
      cancels. */
  lemma CallbackAlive(trace: seq<State>, steps: seq<Step>, n: nat)
    requires CarefulRun(trace, steps) && n < |trace| && !trace[n].events.Waiting?
    ensures trace[n].events.cmd in trace[n].refs && trace[n].refs[trace[n].events.cmd] >= 1
  {
    RunKeepsInv(trace, steps, n);
    assert RefsOk(trace[n], trace[n].events.cmd);
  }

  /** In every careful run the API thread works on a command that is not deleted, or has nothing left to do with it. */
  lemma ApiAlive(trace: seq<State>, steps: seq<Step>, n: nat)
    requires CarefulRun(trace, steps) && n < |trace| && !trace[n].api.Idle? && !Enabled(trace[n], StartDone)
    ensures trace[n].api.cmd in trace[n].refs && trace[n].refs[trace[n].api.cmd] >= 1
  {
    RunKeepsInv(trace, steps, n);
    assert RefsOk(trace[n], trace[n].api.cmd);
  }

  /** In every careful run the owner's reference is released at most once, and exactly once by the time of deletion. */
  lemma OwnerReleasedOnce(trace: seq<State>, steps: seq<Step>, n: nat, c: Cmd)
    requires CarefulRun(trace, steps) && n < |trace| && c in trace[n].created
    ensures Releases(trace[n], c) <= 1
    ensures c !in trace[n].refs ==> Releases(trace[n], c) == 1
    ensures Releases(trace[n], c) == 0 <==> Owned(trace[n], c)
  {
    RunKeepsInv(trace, steps, n);
    assert OwnerOk(trace[n], c) && RefsOk(trace[n], c);
  }

  /** In every careful run, with both threads at rest a command is in the command table or deleted: none leaks. */
  lemma NoLeak(trace: seq<State>, steps: seq<Step>, n: nat, c: Cmd)
    requires CarefulRun(trace, steps) && n < |trace| && c in trace[n].created
    requires trace[n].api.Idle? && trace[n].events.Waiting?
    ensures c in trace[n].refs <==> Entry(c.id, c) in trace[n].cmds
  {
    RunKeepsInv(trace, steps, n);
    assert RefsOk(trace[n], c);
  }

  // ---- A started command gets its events ----

  /** The handlers that a command registers, in order. */
  ghost function HandlersOf(c: Cmd, n: nat): seq<Entry<int, Cmd>>
    requires n <= |c.keys|
  {
    seq(n, i requires 0 <= i < n => Entry(c.keys[i], c))
  }

  /** The rounds of start() from key n on, with nothing beside them. */
  ghost function StartedFrom(s: State, c: Cmd, n: nat): State
    requires s.api == Starting(c, n) && n <= |c.keys|
    decreases |c.keys| - n
  {
    if n == |c.keys| then Do(s, StartDone) else StartedFrom(Do(s, RegisterHandler), c, n + 1)
  }

  lemma {:induction false} StartedFromIs(s: State, c: Cmd, n: nat)
    requires s.api == Starting(c, n) && n <= |c.keys| && |s.handlers| + |c.keys| - n <= DEFAULT_EVENT_CB_SIZE
    ensures StartedFrom(s, c, n) ==
      s.(api := Idle, handlers := s.handlers + HandlersOf(c, |c.keys|)[n..])
    decreases |c.keys| - n
  {
    var all := HandlersOf(c, |c.keys|);
    if n < |c.keys| {
      StartedFromIs(Do(s, RegisterHandler), c, n + 1);
      assert all[n..] == [Entry(c.keys[n], c)] + all[n + 1..];
    } else {
      assert s.handlers + all[n..] == s.handlers;
    }
  }

  /** An undisturbed start with room in both tables registers the command and a handler for each of its events. */
  lemma StartRegistersAll(s: State, c: Cmd)
    requires Enabled(s, Create(c)) && |s.cmds| < DEFAULT_CMD_SIZE
    requires |s.handlers| + |c.keys| <= DEFAULT_EVENT_CB_SIZE
    ensures Do(s, Create(c)).api == Starting(c, 0)
    ensures var s' := StartedFrom(Do(s, Create(c)), c, 0);
      && s'.handlers == s.handlers + HandlersOf(c, |c.keys|) && s'.cmds == s.cmds + [Entry(c.id, c)]
      && s'.refs == s.refs[c := 1] && s'.api.Idle? && s'.events == s.events
  {
    StartedFromIs(Do(s, Create(c)), c, 0);
    assert HandlersOf(c, |c.keys|)[0..] == HandlersOf(c, |c.keys|);
  }

  /** How far a command's handlers are registered, as far as the API thread is concerned. */
  ghost function Reached(s: State, c: Cmd): nat {
    if (s.api.Starting? || s.api.Undoing?) && s.api.cmd == c then s.api.n else |c.keys|
  }

  /** Every command in the table that is not completing has the handlers of its events, up to where its start is. */
  ghost predicate Listens(s: State) {
    forall c, i :: InTable(s, c) && 0 <= i < |c.keys| && i < Reached(s, c) && s.events != Unhandled(c) ==>
      Handled(s, c.keys[i], c)
  }

  /** Nothing but the commands themselves unregisters handlers, and the handler table has room. */
  ghost predicate Roomy(s: State, step: Step) {
    !step.StopEvent? && (step.RegisterHandler? ==> |s.handlers| < DEFAULT_EVENT_CB_SIZE)
  }

  /** Handlers of other live commands are for other events. */
  lemma OthersListen(s: State, s': State, c: Cmd, key: int)
    requires Inv(s) && Listens(s) && Live(s, c) && key in c.keys && s'.handlers == RemoveFirst(s.handlers, key)
    requires forall d :: d != c && InTable(s', d) ==>
      InTable(s, d) && Reached(s', d) == Reached(s, d) && (s'.events == Unhandled(d) <==> s.events == Unhandled(d))
    requires InTable(s', c) && s'.events != Unhandled(c) ==>
      InTable(s, c) && s.events != Unhandled(c) &&
      forall i :: 0 <= i < |c.keys| && i < Reached(s', c) ==> i < Reached(s, c) && c.keys[i] != key
    ensures Listens(s')
  {
    DistinctTable(s.handlers, key);
    forall d, i | InTable(s', d) && 0 <= i < |d.keys| && i < Reached(s', d) && s'.events != Unhandled(d)
      ensures Handled(s', d.keys[i], d)
    {
      assert Handled(s, d.keys[i], d);
      assert d != c ==> Live(s, d) && Disjoint(d, c);
    }
  }

  /** Steps that add no entry to the command table and take no handler away. */
  lemma StillListens(s: State, s': State)
    requires Listens(s) && forall e :: e in s.handlers ==> e in s'.handlers
    requires forall c :: InTable(s', c) ==> InTable(s, c) && Reached(s', c) <= Reached(s, c)
    requires forall c :: s.events == Unhandled(c) && InTable(s', c) ==> s'.events == Unhandled(c)
    ensures Listens(s')
  {
    forall c, i | InTable(s', c) && 0 <= i < |c.keys| && i < Reached(s', c) && s'.events != Unhandled(c)
      ensures Handled(s', c.keys[i], c)
    {
      assert Handled(s, c.keys[i], c);
    }
  }

  lemma CmdGoneListens(s: State, s': State, id: int)
    requires Inv(s) && Listens(s) && s'.cmds == RemoveFirst(s.cmds, id) && s'.handlers == s.handlers
    requires forall c :: InTable(s', c) ==> Reached(s', c) <= Reached(s, c)
    requires s'.events == s.events || (s.events.Unhandled? && s.events.cmd.id == id)
    ensures Listens(s')
  {
    DistinctTable(s.cmds, id);
    StillListens(s, s');
  }

  lemma UndoCmdListens(s: State)
    requires Inv(s) && Listens(s) && Enabled(s, UndoCmd)
    ensures Listens(Do(s, UndoCmd))
  {
    DistinctTable(s.cmds, s.api.cmd.id);
    CmdGoneListens(s, Do(s, UndoCmd), s.api.cmd.id);
  }

  /** The steps that unregister handlers: of a failed start, a cancel or a completion. */
  lemma UnregisterListens(s: State, step: Step)
    requires Inv(s) && Listens(s) && Enabled(s, step)
    requires step.UndoHandler? || step.CancelHandler? || step.CompleteHandler?
    ensures Listens(Do(s, step))
  {
    var s' := Do(s, step);
    if step.UndoHandler? {
      OthersListen(s, s', s.api.cmd, s.api.cmd.keys[s.api.n - 1]);
    } else if step.CancelHandler? {
      assert OwnerOk(s, s.api.cmd);
      OthersListen(s, s', s.api.cmd, s.api.cmd.keys[s.api.n]);
    } else {
      OthersListen(s, s', s.events.cmd, s.events.cmd.keys[0]);
    }
  }

  lemma CreateListens(s: State, c: Cmd)
    requires Inv(s) && Listens(s) && Enabled(s, Create(c)) && Careful(s, Create(c))
    ensures Listens(Do(s, Create(c)))
  {
    NewCommand(s, c);
    var s' := Do(s, Create(c));
    forall d, i | InTable(s', d) && 0 <= i < |d.keys| && i < Reached(s', d) && s'.events != Unhandled(d)
      ensures Handled(s', d.keys[i], d)
    {
      assert d != c && Handled(s, d.keys[i], d);
    }
  }

  lemma RegisterListens(s: State)
    requires Inv(s) && Listens(s) && Enabled(s, RegisterHandler) && Roomy(s, RegisterHandler)
    ensures Listens(Do(s, RegisterHandler))
  {
    var s' := Do(s, RegisterHandler);
    forall d, i | InTable(s', d) && 0 <= i < |d.keys| && i < Reached(s', d) && s'.events != Unhandled(d)
      ensures Handled(s', d.keys[i], d)
    {
      assert d != s.api.cmd || i < s.api.n ==> Handled(s, d.keys[i], d);
    }
  }

  lemma StepKeepsListening(s: State, step: Step)
    requires Inv(s) && Listens(s) && Enabled(s, step) && Careful(s, step) && Roomy(s, step)
    ensures Listens(Do(s, step))
  {
    hide Inv, Listens;
    if step.UndoHandler? || step.CancelHandler? || step.CompleteHandler? {
      UnregisterListens(s, step);
    } else if step.UndoCmd? {
      UndoCmdListens(s);
    } else if step.CancelCmd? {
      CancelListens(s, step.id);
    } else if step.CompleteCmd? {
      CmdGoneListens(s, Do(s, step), s.events.cmd.id);
    } else if step.Create? {
      CreateListens(s, step.cmd);
    } else if step.RegisterHandler? {
      RegisterListens(s);
    } else {
      StillListens(s, Do(s, step));
    }
  }

  lemma CancelListens(s: State, id: int)
    requires Inv(s) && Listens(s) && Enabled(s, CancelCmd(id))
    ensures Listens(Do(s, CancelCmd(id)))
  {
    if FindFirst(s.cmds, id).Some? {
      CmdGoneListens(s, Do(s, CancelCmd(id)), id);
    }
  }

  lemma {:induction false} RunListens(trace: seq<State>, steps: seq<Step>, n: nat)
    requires CarefulRun(trace, steps) && n < |trace| && forall i :: 0 <= i < n ==> Roomy(trace[i], steps[i])
    ensures Listens(trace[n])
  {
    if n > 0 {
      RunListens(trace, steps, n - 1);
      RunKeepsInv(trace, steps, n - 1);
      assert Taken(trace, steps, n - 1) && Careful(trace[n - 1], steps[n - 1]) && Roomy(trace[n - 1], steps[n - 1]);
      hide Inv, Listens, Do, Init, Enabled, Careful, Roomy;
      StepKeepsListening(trace[n - 1], steps[n - 1]);
    }
  }

  /**
   * In every careful run in which nothing else unregisters handlers and their table has room, an event of a command
   * that is past its start, in the command table and not completing is dispatched to that command.
   */
  lemma EventReachesCommand(trace: seq<State>, steps: seq<Step>, n: nat, c: Cmd, key: int)
    requires CarefulRun(trace, steps) && n < |trace| && forall i :: 0 <= i < n ==> Roomy(trace[i], steps[i])
    requires Entry(c.id, c) in trace[n].cmds && key in c.keys && trace[n].events.Waiting?
    requires trace[n].api.Starting? || trace[n].api.Undoing? ==> trace[n].api.cmd != c
    ensures FindFirst(trace[n].handlers, key) == Some(c)
    ensures Enabled(trace[n], Dispatch(key)) && Do(trace[n], Dispatch(key)).events == InCallback(c)
  {
    RunListens(trace, steps, n);
    RunKeepsInv(trace, steps, n);
    var i :| 0 <= i < |c.keys| && c.keys[i] == key;
    assert InTable(trace[n], c) && Handled(trace[n], c.keys[i], c);
    DistinctTable(trace[n].handlers, key);
  }

  /** A stop request without an id takes away the handler of its event, and no other. */
  lemma StopEventStops(trace: seq<State>, steps: seq<Step>, n: nat, key: int)
    requires CarefulRun(trace, steps) && n < |steps| && steps[n] == StopEvent(key)
    ensures forall e :: e in trace[n + 1].handlers <==> e in trace[n].handlers && e.key != key
  {
    RunKeepsInv(trace, steps, n);
    assert Taken(trace, steps, n);
    DistinctTable(trace[n].handlers, key);
  }

  // ---- Two live commands on one event ----

  /** The rounds of cancel() from key n on, and the release behind it, with nothing beside them. */
  ghost function CancelledFrom(s: State, c: Cmd, n: nat): State
    requires s.api == Cancelling(c, n) && n <= |c.keys|
    decreases |c.keys| - n
  {
    if n == |c.keys| then Do(s, CancelRef) else CancelledFrom(Do(s, CancelHandler), c, n + 1)
  }

  /** wifi_cancel_cmd for a registered id, with nothing beside it. */
  ghost function Cancelled(s: State, id: int): State
    requires s.api.Idle? && FindFirst(s.cmds, id).Some?
  {
    CancelledFrom(Do(s, CancelCmd(id)), FindFirst(s.cmds, id).value, 0)
  }

  /** Handler i is c's own and stands behind another handler of its event. */
  ghost predicate Behind(handlers: seq<Entry<int, Cmd>>, c: Cmd, i: nat) {
    i < |handlers| && handlers[i].value == c && !FirstAt(handlers, handlers[i].key, i)
  }

  /** Is there a handler of c left? */
  ghost predicate Serves(handlers: seq<Entry<int, Cmd>>, c: Cmd) {
    exists i: nat :: i < |handlers| && handlers[i].value == c
  }

  /** Handler i survives when the first handler of each of the given events goes. */
  ghost predicate Stays(handlers: seq<Entry<int, Cmd>>, keys: seq<int>, c: Cmd, i: nat) {
    i < |handlers| && handlers[i].value == c && !(handlers[i].key in keys && FirstAt(handlers, handlers[i].key, i))
  }

  ghost function RemoveAll(handlers: seq<Entry<int, Cmd>>, keys: seq<int>): seq<Entry<int, Cmd>>
    decreases |keys|
  {
    if keys == [] then handlers else RemoveAll(RemoveFirst(handlers, keys[0]), keys[1..])
  }

  lemma {:induction false} CancelledFromIs(s: State, c: Cmd, n: nat)
    requires s.api == Cancelling(c, n) && n <= |c.keys|
    ensures CancelledFrom(s, c, n).handlers == RemoveAll(s.handlers, c.keys[n..])
    ensures CancelledFrom(s, c, n).refs == ReleaseRef(s, c).refs
    decreases |c.keys| - n
  {
    if n < |c.keys| {
      CancelledFromIs(Do(s, CancelHandler), c, n + 1);
      assert c.keys[n..][0] == c.keys[n] && c.keys[n..][1..] == c.keys[n + 1..];
    }
  }

  /** What removing one event's first handler does to the survivors. */
  lemma StaysStep(handlers: seq<Entry<int, Cmd>>, keys: seq<int>, c: Cmd)
    requires keys != [] && forall i :: 0 < i < |keys| ==> keys[i] != keys[0]
    ensures (exists i: nat :: Stays(handlers, keys, c, i)) <==>
      exists i: nat :: Stays(RemoveFirst(handlers, keys[0]), keys[1..], c, i)
  {
    var k, rest := keys[0], keys[1..];
    assert keys == [k] + rest && k !in rest;
    if f: nat :| FirstAt(handlers, k, f) {
      RemoveFirstIs(handlers, k, f);
      var fewer := RemoveFirst(handlers, k);
      assert fewer == handlers[..f] + handlers[f + 1..];
      forall i: nat | i < |fewer|
        ensures Stays(fewer, rest, c, i) <==> Stays(handlers, keys, c, if i < f then i else i + 1)
      {
        SameFirst(handlers, k, f, i, rest);
      }
      if i: nat :| Stays(handlers, keys, c, i) {
        assert Stays(fewer, rest, c, if i < f then i else i - 1);
      }
    } else {
      forall i | 0 <= i < |handlers| ensures handlers[i].key != k {
        if handlers[i].key == k {
          var f := FirstIndex(handlers, k, i);
        }
      }
      RemoveNone(handlers, k);
      assert forall i: nat :: Stays(handlers, keys, c, i) <==> Stays(handlers, rest, c, i);
    }
  }

  /** Taking out the first handler of k does not change which handlers of other events come first. */
  lemma SameFirst(handlers: seq<Entry<int, Cmd>>, k: int, f: nat, i: nat, rest: seq<int>)
    requires FirstAt(handlers, k, f) && i < |handlers| - 1 && k !in rest
    ensures var fewer, j := handlers[..f] + handlers[f + 1..], if i < f then i else i + 1;
      && fewer[i] == handlers[j]
      && (fewer[i].key in rest ==> (FirstAt(fewer, fewer[i].key, i) <==> FirstAt(handlers, fewer[i].key, j)))
      && (fewer[i].key == k ==> !FirstAt(handlers, k, j))
  {
    var fewer, j := handlers[..f] + handlers[f + 1..], if i < f then i else i + 1;
    var key := fewer[i].key;
    if key in rest {
      assert forall x :: 0 <= x < f ==> fewer[x] == handlers[x];
      assert forall x :: f <= x < |fewer| ==> fewer[x] == handlers[x + 1];
      assert forall x :: f < x < |handlers| ==> handlers[x] == fewer[x - 1];
    }
  }

  lemma {:induction false} RemoveAllLeaves(handlers: seq<Entry<int, Cmd>>, keys: seq<int>, c: Cmd)
    requires DistinctEvents(keys)
    ensures Serves(RemoveAll(handlers, keys), c) <==> exists i: nat :: Stays(handlers, keys, c, i)
    decreases |keys|
  {
    if keys == [] {
      if i: nat :| i < |handlers| && handlers[i].value == c {
        assert Stays(handlers, keys, c, i);
      }
    } else {
      StaysStep(handlers, keys, c);
      RemoveAllLeaves(RemoveFirst(handlers, keys[0]), keys[1..], c);
    }
  }

  ghost predicate DistinctEntries(handlers: seq<Entry<int, Cmd>>) {
    forall i, j :: 0 <= i < j < |handlers| ==> handlers[i] != handlers[j]
  }

  /** Commands have handlers only for events of their own that they have come to register for, and one for each. */
  ghost predicate OwnEvents(s: State) {
    && (s.api.Starting? ==> s.api.n <= |s.api.cmd.keys| && s.api.cmd in s.created && WellFormed(s.api.cmd))
    && (forall e :: e in s.handlers ==> e.value in s.created && e.key in e.value.keys)
    && (s.api.Starting? ==> forall e :: e in s.handlers && e.value == s.api.cmd ==> e.key in s.api.cmd.keys[..s.api.n])
    && DistinctEntries(s.handlers)
  }

  /**
   * Whatever the tables hold, an undisturbed cancel of a command leaves a handler on the command it deletes exactly
   * if one of the command's own handlers stands behind another handler of the same event.
   */
  lemma CancelDanglesIff(s: State, id: int)
    requires s.api.Idle? && OwnEvents(s) && FindFirst(s.cmds, id).Some?
    requires var c := FindFirst(s.cmds, id).value; WellFormed(c) && RefsOf(s, c) == 1
    ensures var c, s' := FindFirst(s.cmds, id).value, Cancelled(s, id);
      && c !in s'.refs
      && (Serves(s'.handlers, c) <==> exists i: nat :: Behind(s.handlers, c, i))
  {
    var c := FindFirst(s.cmds, id).value;
    CancelledFromIs(Do(s, CancelCmd(id)), c, 0);
    assert c.keys[0..] == c.keys;
    RemoveAllLeaves(s.handlers, c.keys, c);
    assert forall i: nat :: Stays(s.handlers, c.keys, c, i) <==> Behind(s.handlers, c, i);
  }

  lemma {:induction false} RunKeepsOwnEvents(trace: seq<State>, steps: seq<Step>, n: nat)
    requires Run(trace, steps) && n < |trace|
    ensures OwnEvents(trace[n])
  {
    if n > 0 {
      RunKeepsOwnEvents(trace, steps, n - 1);
      assert Taken(trace, steps, n - 1);
      StepKeepsOwnEvents(trace[n - 1], steps[n - 1]);
    }
  }

  lemma FewerHandlers(s: State, s': State, key: int)
    requires OwnEvents(s) && s'.handlers == RemoveFirst(s.handlers, key) && s'.created == s.created
    requires s'.api.Starting? ==> s'.api == s.api
    ensures OwnEvents(s')
  {
    RemovedFrom(s.handlers, key);
  }

  lemma MoreHandlers(s: State)
    requires OwnEvents(s) && Enabled(s, RegisterHandler)
    ensures OwnEvents(Do(s, RegisterHandler))
  {
    var c, n := s.api.cmd, s.api.n;
    assert c.keys[..n + 1] == c.keys[..n] + [c.keys[n]];
    assert forall i :: 0 <= i < |s.handlers| ==> s.handlers[i] in s.handlers;
    assert Entry(c.keys[n], c) !in s.handlers;
  }

  lemma StepKeepsOwnEvents(s: State, step: Step)
    requires OwnEvents(s) && Enabled(s, step)
    ensures OwnEvents(Do(s, step))
  {
    var s' := Do(s, step);
    match step {
      case RegisterHandler => MoreHandlers(s);
      case UndoHandler => FewerHandlers(s, s', s.api.cmd.keys[s.api.n - 1]);
      case CancelHandler => FewerHandlers(s, s', s.api.cmd.keys[s.api.n]);
      case StopEvent(key) => FewerHandlers(s, s', key);
      case CompleteHandler => FewerHandlers(s, s', s.events.cmd.keys[0]);
      case _ =>
        hide DistinctEntries;
    }
  }

  lemma RemovedFrom(es: seq<Entry<int, Cmd>>, key: int)
    ensures forall e :: e in RemoveFirst(es, key) ==> e in es
    ensures DistinctEntries(es) ==> DistinctEntries(RemoveFirst(es, key))
  {
    if i: nat :| i < |es| && es[i].key == key {
      var f := FirstIndex(es, key, i);
      RemoveFirstIs(es, key, f);
    } else {
      RemoveNone(es, key);
    }
    hide RemoveFirst;
  }

  /** The rounds of a failed start from handler n down, and the release behind them, with nothing beside them. */
  ghost function UndoneFrom(s: State, c: Cmd, n: nat): State
    requires s.api == Undoing(c, n) && n <= |c.keys|
    decreases n
  {
    if n == 0 then Do(Do(s, UndoCmd), DropRef) else UndoneFrom(Do(s, UndoHandler), c, n - 1)
  }

  /** A start that fails now, with nothing beside it. */
  ghost function FailedStart(s: State): State
    requires Enabled(s, StartFails) && s.api.n <= |s.api.cmd.keys|
  {
    UndoneFrom(Do(s, StartFails), s.api.cmd, s.api.n)
  }

  ghost function LastFirst(keys: seq<int>): (r: seq<int>)
    ensures forall k :: k in r <==> k in keys
  {
    if keys == [] then []
    else
      var n := |keys| - 1;
      assert keys == keys[..n] + [keys[n]];
      [keys[n]] + LastFirst(keys[..n])
  }

  lemma {:induction false} LastFirstDistinct(keys: seq<int>)
    requires DistinctEvents(keys)
    ensures DistinctEvents(LastFirst(keys))
  {
    if keys != [] {
      var n := |keys| - 1;
      LastFirstDistinct(keys[..n]);
      var rest := LastFirst(keys[..n]);
      assert keys[n] !in keys[..n] && keys[n] !in rest;
      assert forall i :: 0 <= i < |rest| ==> rest[i] in rest;
      assert DistinctEvents([keys[n]] + rest);
    }
  }

  lemma UndoStep(s: State, c: Cmd, n: nat)
    requires s.api == Undoing(c, n) && n <= |c.keys|
    ensures n == 0 ==> UndoneFrom(s, c, n).handlers == s.handlers && UndoneFrom(s, c, n).refs == ReleaseRef(s, c).refs
    ensures n > 0 ==>
      && Enabled(s, UndoHandler)
      && var s' := Do(s, UndoHandler);
      && s'.api == Undoing(c, n - 1) && s'.handlers == RemoveFirst(s.handlers, c.keys[n - 1])
      && ReleaseRef(s', c).refs == ReleaseRef(s, c).refs
  {
  }

  lemma {:induction false} UndoneFromIs(s: State, c: Cmd, n: nat)
    requires s.api == Undoing(c, n) && n <= |c.keys|
    ensures UndoneFrom(s, c, n).handlers == RemoveAll(s.handlers, LastFirst(c.keys[..n]))
    ensures UndoneFrom(s, c, n).refs == ReleaseRef(s, c).refs
    decreases n
  {
    UndoStep(s, c, n);
    hide Do, ReleaseRef, Enabled;
    if n > 0 {
      UndoneFromIs(Do(s, UndoHandler), c, n - 1);
      assert c.keys[..n][..n - 1] == c.keys[..n - 1];
      assert LastFirst(c.keys[..n]) == [c.keys[n - 1]] + LastFirst(c.keys[..n - 1]);
    }
  }

  /**
   * Whatever the tables hold, an undisturbed failed start leaves a handler on the command it deletes exactly if one
   * of the command's own handlers stands behind another handler of the same event, or is not for an event undone.
   */
  lemma UndoneLeavesIff(s: State)
    requires Enabled(s, StartFails) && s.api.n <= |s.api.cmd.keys|
    requires WellFormed(s.api.cmd) && RefsOf(s, s.api.cmd) == 1
    ensures var c, s' := s.api.cmd, FailedStart(s);
      && c !in s'.refs
      && (Serves(s'.handlers, c) <==> exists i: nat :: Stays(s.handlers, c.keys[..s.api.n], c, i))
  {
    var c, n := s.api.cmd, s.api.n;
    var undone := LastFirst(c.keys[..n]);
    UndoneFromIs(Do(s, StartFails), c, n);
    LastFirstDistinct(c.keys[..n]);
    RemoveAllLeaves(s.handlers, undone, c);
    assert forall i: nat :: Stays(s.handlers, undone, c, i) <==> Stays(s.handlers, c.keys[..n], c, i);
  }

  /** In every run the second case does not arise: it is the shared event alone. */
  lemma UndoDanglesIff(trace: seq<State>, steps: seq<Step>, n: nat)
    requires Run(trace, steps) && n < |trace| && Enabled(trace[n], StartFails)
    requires RefsOf(trace[n], trace[n].api.cmd) == 1
    ensures OwnEvents(trace[n])
    ensures var s, c := trace[n], trace[n].api.cmd;
      && c !in FailedStart(s).refs
      && (Serves(FailedStart(s).handlers, c) <==> exists i: nat :: Behind(s.handlers, c, i))
  {
    RunKeepsOwnEvents(trace, steps, n);
    var s, c := trace[n], trace[n].api.cmd;
    UndoneLeavesIff(s);
    assert forall i :: 0 <= i < |s.handlers| ==> s.handlers[i] in s.handlers;
    assert forall i: nat :: Stays(s.handlers, c.keys[..s.api.n], c, i) <==> Behind(s.handlers, c, i);
  }

  /** An event that completes its command, with nothing beside it. */
  ghost function Completed(s: State, key: int): State
    requires s.events.Waiting? && FindFirst(s.handlers, key).Some?
    requires var c := FindFirst(s.handlers, key).value; c.completes && c.keys != []
  {
    Do(Do(Do(Do(Do(s, Dispatch(key)), CompleteHandler), CompleteCmd), CompleteRef), Return)
  }

  lemma CompletedIs(s: State, key: int)
    requires s.events.Waiting? && FindFirst(s.handlers, key).Some?
    requires FindFirst(s.handlers, key).value.completes && FindFirst(s.handlers, key).value.keys == [key]
    ensures var c := FindFirst(s.handlers, key).value;
      && Completed(s, key).handlers == RemoveFirst(s.handlers, key)
      && (FindFirst(s.cmds, c.id) == Some(c) && RefsOf(s, c) == 1 ==> c !in Completed(s, key).refs)
  {
    var s1 := Do(s, Dispatch(key));
    var s2 := Do(s1, CompleteHandler);
    var s3 := Do(s2, CompleteCmd);
    var s4 := Do(s3, CompleteRef);
    assert s4.handlers == RemoveFirst(s.handlers, key);
  }

  /**
   * The third way to release a command is safe on shared events too: in every run a command that an event completes
   * had the first handler of that event, which it takes away, and no other.
   */
  lemma CompletionLeavesNone(trace: seq<State>, steps: seq<Step>, n: nat, key: int)
    requires Run(trace, steps) && n < |trace| && trace[n].events.Waiting? && FindFirst(trace[n].handlers, key).Some?
    requires var c := FindFirst(trace[n].handlers, key).value; c.completes && WellFormed(c)
    ensures FindFirst(trace[n].handlers, key).value.keys == [key]
    ensures var s, c := trace[n], FindFirst(trace[n].handlers, key).value;
      && !Serves(Completed(s, key).handlers, c)
      && (FindFirst(s.cmds, c.id) == Some(c) && RefsOf(s, c) == 1 ==> c !in Completed(s, key).refs)
  {
    var s, c := trace[n], FindFirst(trace[n].handlers, key).value;
    RunKeepsOwnEvents(trace, steps, n);
    var f := FoundFirst(s.handlers, key);
    assert s.handlers[f] in s.handlers && c.keys == [key];
    CompletedIs(s, key);
    OnlyHandler(s, c, key, f);
    hide Completed, Serves, OwnEvents, Run;
  }

  lemma OnlyHandler(s: State, c: Cmd, key: int, f: nat)
    requires OwnEvents(s) && FirstAt(s.handlers, key, f) && s.handlers[f].value == c && c.keys == [key]
    ensures !Serves(RemoveFirst(s.handlers, key), c)
  {
    RemoveFirstIs(s.handlers, key, f);
    forall i | 0 <= i < |s.handlers| && i != f ensures s.handlers[i].value != c {
      assert s.handlers[i] in s.handlers;
    }
    var rest := s.handlers[..f] + s.handlers[f + 1..];
    assert forall i :: 0 <= i < |rest| ==> rest[i] == s.handlers[if i < f then i else i + 1];
  }

  lemma {:induction false} FoundFirst(es: seq<Entry<int, Cmd>>, key: int) returns (f: nat)
    requires FindFirst(es, key).Some?
    ensures FirstAt(es, key, f) && FindFirst(es, key) == Some(es[f].value)
  {
    if es[0].key == key {
      f := 0;
    } else {
      f := FoundFirst(es[1..], key);
      f := f + 1;
    }
  }

  /** A command on one event, started with nothing beside it. */
  ghost function Started(s: State, c: Cmd, k: int): State {
    s.(cmds := s.cmds + [Entry(c.id, c)], handlers := s.handlers + [Entry(k, c)],
       refs := s.refs[c := 1], created := s.created + {c})
  }

  ghost predicate CanStart(s: State, c: Cmd, k: int) {
    && s.api.Idle? && c !in s.created && c.keys == [k]
    && |s.cmds| < DEFAULT_CMD_SIZE && |s.handlers| < DEFAULT_EVENT_CB_SIZE
  }

  lemma StartsInThreeSteps(s: State, c: Cmd, k: int) returns (s1: State, s2: State)
    requires CanStart(s, c, k)
    ensures Enabled(s, Create(c)) && s1 == Do(s, Create(c))
    ensures Enabled(s1, RegisterHandler) && s2 == Do(s1, RegisterHandler)
    ensures Enabled(s2, StartDone) && Do(s2, StartDone) == Started(s, c, k)
    ensures s2 == Started(s, c, k).(api := Starting(c, 1))
  {
    s1 := Do(s, Create(c));
    s2 := Do(s1, RegisterHandler);
  }

  /** Cancelling d in three steps, with c's handler of the same event in front of d's. */
  lemma CancelsInThreeSteps(s: State, c: Cmd, d: Cmd, k: int) returns (s1: State, s2: State, s3: State)
    requires s.api.Idle? && s.handlers == [Entry(k, c), Entry(k, d)] && d.keys == [k] && RefsOf(s, d) == 1
    requires s.cmds == [Entry(c.id, c), Entry(d.id, d)] && c.id != d.id
    ensures Enabled(s, CancelCmd(d.id)) && s1 == Do(s, CancelCmd(d.id))
    ensures Enabled(s1, CancelHandler) && s2 == Do(s1, CancelHandler)
    ensures Enabled(s2, CancelRef) && s3 == Do(s2, CancelRef)
    ensures s3.handlers == [Entry(k, d)] && d !in s3.refs
  {
    assert s.cmds[1..] == [Entry(d.id, d)] && FindFirst(s.cmds, d.id) == Some(d);
    s1 := Do(s, CancelCmd(d.id));
    assert RemoveFirst(s.handlers, k) == [Entry(k, d)];
    s2 := Do(s1, CancelHandler);
    s3 := Do(s2, CancelRef);
  }

  /** d's start fails with its handler registered, behind c's handler of the same event. */
  lemma FailsInFourSteps(s: State, c: Cmd, d: Cmd, k: int) returns (s1: State, s2: State, s3: State, s4: State)
    requires s.api == Starting(d, 1) && s.handlers == [Entry(k, c), Entry(k, d)]
    requires d.keys == [k] && !d.completes && RefsOf(s, d) == 1
    ensures Enabled(s, StartFails) && s1 == Do(s, StartFails)
    ensures Enabled(s1, UndoHandler) && s2 == Do(s1, UndoHandler)
    ensures Enabled(s2, UndoCmd) && s3 == Do(s2, UndoCmd)
    ensures Enabled(s3, DropRef) && s4 == Do(s3, DropRef)
    ensures s4.handlers == [Entry(k, d)] && d !in s4.refs
  {
    s1 := Do(s, StartFails);
    assert RemoveFirst(s.handlers, k) == [Entry(k, d)];
    s2 := Do(s1, UndoHandler);
    s3 := Do(s2, UndoCmd);
    s4 := Do(s3, DropRef);
  }

  /** Starting a command on an event that has a handler, with the new command's request failing. */
  function FailingSteps(c: Cmd, d: Cmd): seq<Step> {
    [Create(c), RegisterHandler, StartDone, Create(d), RegisterHandler, StartFails, UndoHandler, UndoCmd, DropRef]
  }

  /** Another ordinary run, without any cancel, as of a scan and a request for full scan results that fails. */
  lemma FailedStartDangles(c: Cmd, d: Cmd, k: int) returns (trace: seq<State>)
    requires c != d && c.id != d.id && c.keys == [k] && d.keys == [k] && !d.completes
    ensures Run(trace, FailingSteps(c, d))
    ensures var s := trace[|trace| - 1]; FindFirst(s.handlers, k) == Some(d) && d !in s.refs
  {
    hide Do, Enabled;
    var s0 := State([], [], map[], Idle, Waiting, {}, map[]);
    var s1, s2 := StartsInThreeSteps(s0, c, k);
    var s3 := Started(s0, c, k);
    var s4, s5 := StartsInThreeSteps(s3, d, k);
    var s6, s7, s8, s9 := FailsInFourSteps(s5, c, d, k);
    trace := [s0, s1, s2, s3, s4, s5, s6, s7, s8, s9];
  }

  /** Starting two commands on one event and cancelling the second. */
  function SharedSteps(c: Cmd, d: Cmd): seq<Step> {
    [Create(c), RegisterHandler, StartDone, Create(d), RegisterHandler, StartDone,
     CancelCmd(d.id), CancelHandler, CancelRef]
  }

  /**
   * An ordinary run, as of two RTT requests, which share RTT_EVENT_COMPLETE: in the end the next event would be
   * dispatched to a deleted command.
   */
  lemma SharedEventDangles(c: Cmd, d: Cmd, k: int) returns (trace: seq<State>)
    requires c != d && c.id != d.id && c.keys == [k] && d.keys == [k]
    ensures Run(trace, SharedSteps(c, d))
    ensures var s := trace[|trace| - 1]; FindFirst(s.handlers, k) == Some(d) && d !in s.refs
  {
    hide Do, Enabled;
    var s0 := State([], [], map[], Idle, Waiting, {}, map[]);
    var s1, s2 := StartsInThreeSteps(s0, c, k);
    var s3 := Started(s0, c, k);
    var s4, s5 := StartsInThreeSteps(s3, d, k);
    var s6 := Started(s3, d, k);
    var s7, s8, s9 := CancelsInThreeSteps(s6, c, d, k);
    trace := [s0, s1, s2, s3, s4, s5, s6, s7, s8, s9];
  }
}

/** The loop of wifi_cleanup: cancel every registered command, then release its reference. */
module WifiCleanup {
  import opened Options
  import opened WifiTables

  /** A WifiCommand, and whether its cancel() takes an entry with its id out of the table. */
  datatype Command = Command(id: int, leaves: bool)

  /** A command table: request id to command pointer, None for NULL. */
  type CmdTable = seq<Entry<int, Option<Command>>>

  ghost predicate NoNulls(table: CmdTable) {
    forall i :: 0 <= i < |table| ==> table[i].value.Some?
  }

  /** Commands are registered under their own ids; ids may be shared. */
  ghost predicate OwnIds(table: CmdTable) {
    forall i :: 0 <= i < |table| && table[i].value.Some? ==> table[i].key == table[i].value.value.id
  }

  /** The table when cancel() of a command has returned. */
  function Cancelled(table: CmdTable, cmd: Command): CmdTable {
    if cmd.leaves then RemoveFirst(table, cmd.id) else table
  }

  ghost function Commands(table: CmdTable): seq<Command>
    requires NoNulls(table)
  {
    seq(|table|, i requires 0 <= i < |table| => table[i].value.value)
  }

  /** A call that the loop makes on a command. */
  datatype Call = Cancel(cmd: Command) | Release(cmd: Command)

  /** Each command in turn is cancelled, and then its reference released. */
  ghost function CallsFor(cmds: seq<Command>): seq<Call> {
    if cmds == [] then []
    else
      var n := |cmds| - 1;
      CallsFor(cmds[..n]) + [Cancel(cmds[n]), Release(cmds[n])]
  }

  /** Calls 2i and 2i + 1 are the cancel and the release of command i. */
  lemma {:induction false} CallsAt(cmds: seq<Command>, i: nat)
    requires i < |cmds|
    ensures |CallsFor(cmds)| == 2 * |cmds|
    ensures CallsFor(cmds)[2 * i] == Cancel(cmds[i]) && CallsFor(cmds)[2 * i + 1] == Release(cmds[i])
  {
    var n := |cmds| - 1;
    if n > 0 {
      CallsAt(cmds[..n], if i < n then i else 0);
    }
  }

  /** The loop's state: the table, bad_commands, and the calls made so far. */
  datatype Loop = Loop(table: CmdTable, bad: nat, calls: seq<Call>)

  predicate Over(l: Loop) {
    |l.table| <= l.bad
  }

  /** One round of the loop. A NULL entry at bad_commands changes nothing. */
  function Round(l: Loop): Loop {
    if Over(l) then l
    else
      match l.table[l.bad].value
      case None => l
      case Some(cmd) =>
        var table := Cancelled(l.table, cmd);
        Loop(table, if |table| == |l.table| then l.bad + 1 else l.bad, l.calls + [Cancel(cmd), Release(cmd)])
  }

  /** The loop after n rounds. */
  function Rounds(l: Loop, n: nat): Loop {
    if n == 0 then l else Round(Rounds(l, n - 1))
  }

  /** After n rounds on `table` the entries from bad_commands on are those the loop has not come to yet. */
  ghost predicate After(table: CmdTable, n: nat, l: Loop) {
    && n <= |table| && l.bad <= |l.table| && l.table[l.bad..] == table[n..]
    && NoNulls(table[..n]) && l.calls == CallsFor(Commands(table[..n]))
    && OwnIds(l.table)
  }

  /** A round handles the next command of the original table, whether or not it leaves, and whoever shares its id. */
  lemma AfterRound(table: CmdTable, n: nat, l: Loop)
    requires After(table, n, l) && n < |table|
    ensures !Over(l) && l.table[l.bad] == table[n]
    ensures table[n].value.Some? ==> After(table, n + 1, Round(l))
    ensures table[n].value.Some? ==> |Round(l).table| - Round(l).bad < |l.table| - l.bad
    ensures table[n].value.None? ==> Round(l) == l
  {
    assert l.table[l.bad] == l.table[l.bad..][0] == table[n];
    if table[n].value.Some? {
      RoundTable(l);
      MoreCommands(table, n);
      assert l.table[l.bad + 1..] == l.table[l.bad..][1..] == table[n..][1..] == table[n + 1..];
      hide OwnIds, NoNulls, Commands, CallsFor, Cancelled;
    }
  }

  /** What a round leaves of the table: its entry is behind it, and the entries after it are untouched. */
  lemma RoundTable(l: Loop)
    requires !Over(l) && OwnIds(l.table) && l.table[l.bad].value.Some?
    ensures Round(l).bad <= |Round(l).table| && Round(l).table[Round(l).bad..] == l.table[l.bad + 1..]
    ensures OwnIds(Round(l).table)
  {
    var f := FirstIndex(l.table, l.table[l.bad].key, l.bad);
    RemoveFirstIs(l.table, l.table[l.bad].key, f);
    RemainsOwn(l.table, f);
    hide RemoveFirst, OwnIds;
  }

  lemma MoreCommands(table: CmdTable, n: nat)
    requires n < |table| && NoNulls(table[..n]) && table[n].value.Some?
    ensures NoNulls(table[..n + 1])
    ensures var cmd := table[n].value.value;
      CallsFor(Commands(table[..n + 1])) == CallsFor(Commands(table[..n])) + [Cancel(cmd), Release(cmd)]
  {
    assert table[..n + 1] == table[..n] + [table[n]];
    var cmds := Commands(table[..n + 1]);
    assert cmds[..n] == Commands(table[..n]) && cmds[n] == table[n].value.value;
  }

  lemma RemainsOwn(table: CmdTable, f: nat)
    requires OwnIds(table) && f < |table|
    ensures OwnIds(table[..f] + table[f + 1..])
  {
  }

  /** Every round makes num_cmd - bad_commands smaller, exactly if its entry is not NULL. */
  lemma ProgressIff(l: Loop)
    requires !Over(l) && OwnIds(l.table)
    ensures |Round(l).table| - Round(l).bad < |l.table| - l.bad <==> l.table[l.bad].value.Some?
  {
    if l.table[l.bad].value.Some? {
      var f := FirstIndex(l.table, l.table[l.bad].key, l.bad);
      RemoveFirstIs(l.table, l.table[l.bad].key, f);
    }
  }

  lemma {:induction false} AfterRounds(table: CmdTable, n: nat)
    requires OwnIds(table) && n <= |table| && NoNulls(table[..n])
    ensures After(table, n, Rounds(Loop(table, 0, []), n))
  {
    if n > 0 {
      assert forall i :: 0 <= i < n - 1 ==> table[..n - 1][i] == table[..n][i];
      AfterRounds(table, n - 1);
      assert table[..n][n - 1] == table[n - 1];
      AfterRound(table, n - 1, Rounds(Loop(table, 0, []), n - 1));
    }
  }

  lemma {:induction false} StuckStays(l: Loop, n: nat, m: nat)
    requires n <= m && Round(Rounds(l, n)) == Rounds(l, n)
    ensures Rounds(l, m) == Rounds(l, n)
  {
    if n < m {
      StuckStays(l, n, m - 1);
    }
  }

  /** The loop comes as far as the NULL at k, and never past it. */
  ghost predicate StuckAt(table: CmdTable, k: nat) {
    && k < |table| && table[k].value.None? && NoNulls(table[..k])
    && forall m: nat :: k <= m ==> Rounds(Loop(table, 0, []), m).calls == CallsFor(Commands(table[..k]))
  }

  /**
   * The loop ends exactly if the table has no NULL entry. It then takes as many rounds as there are entries;
   * otherwise it comes as far as the first NULL, and never past it.
   */
  lemma EndsIff(table: CmdTable)
    requires OwnIds(table)
    ensures (exists n: nat :: Over(Rounds(Loop(table, 0, []), n))) <==> NoNulls(table)
    ensures NoNulls(table) ==>
      var l := Rounds(Loop(table, 0, []), |table|); Over(l) && l.calls == CallsFor(Commands(table))
    ensures !NoNulls(table) ==> exists k: nat :: StuckAt(table, k)
  {
    var l := Loop(table, 0, []);
    if NoNulls(table) {
      assert table[..|table|] == table;
      AfterRounds(table, |table|);
      assert Over(Rounds(l, |table|));
    } else {
      var k := FirstNull(table);
      AfterRounds(table, k);
      AfterRound(table, k, Rounds(l, k));
      forall m: nat | k <= m ensures Rounds(l, m) == Rounds(l, k) { StuckStays(l, k, m); }
      assert StuckAt(table, k);
      forall n: nat ensures !Over(Rounds(l, n)) {
        if n < k {
          assert NoNulls(table[..n]) by {
            assert forall i :: 0 <= i < n ==> table[..n][i] == table[..k][i];
          }
          AfterRounds(table, n);
          AfterRound(table, n, Rounds(l, n));
        }
      }
    }
  }

  lemma {:induction false} FirstNull(table: CmdTable) returns (k: nat)
    requires !NoNulls(table)
    ensures k < |table| && table[k].value.None? && NoNulls(table[..k])
  {
    if table[0].value.None? {
      k := 0;
    } else {
      k := FirstNull(table[1..]);
      assert table[..k + 1] == [table[0]] + table[1..][..k];
      k := k + 1;
    }
  }

  class Hal {
    var cmds: CmdTable
    var badCommands: nat
    var calls: seq<Call>   // of cancel() and releaseRef(), in order

    constructor (table: CmdTable)
      ensures cmds == table && badCommands == 0 && calls == []
    {
      cmds, badCommands, calls := table, 0, [];
    }

    /** cancel() of a command, which registers nothing. */
    method CancelCommand(cmd: Command)
      modifies `cmds, `calls
      ensures cmds == Cancelled(old(cmds), cmd) && calls == old(calls) + [Cancel(cmd)]
    {
      if cmd.leaves {
        cmds := RemoveFirst(cmds, cmd.id);
      }
      calls := calls + [Cancel(cmd)];
    }

    method ReleaseRef(cmd: Command)
      modifies `calls
      ensures calls == old(calls) + [Release(cmd)]
    {
      calls := calls + [Release(cmd)];
    }

    /** The loop's body, for an entry that is not NULL. */
    method CleanupRound(cmd: Command)
      requires badCommands < |cmds| && cmds[badCommands].value == Some(cmd)
      modifies this
      ensures Loop(cmds, badCommands, calls) == Round(Loop(old(cmds), old(badCommands), old(calls)))
    {
      var before := |cmds|;
      CancelCommand(cmd);
      if before == |cmds| {
        badCommands := badCommands + 1;
      }
      ReleaseRef(cmd);
    }

    /**
     * Every registered command is cancelled once and then released once, before the next one is cancelled, in table
     * order, whether or not it leaves.
     */
    method Cleanup()
      requires NoNulls(cmds) && OwnIds(cmds) && calls == []
      modifies this
      ensures calls == CallsFor(Commands(old(cmds)))
      ensures cmds == Rounds(Loop(old(cmds), 0, []), |old(cmds)|).table
    {
      ghost var table, l := cmds, Loop(cmds, 0, []);
      ghost var n := 0;   // rounds so far
      badCommands := 0;
      AfterRounds(table, 0);
      hide After, CallsFor, Commands, NoNulls, OwnIds, Round;
      while |cmds| > badCommands
        invariant n <= |table| && After(table, n, l) && l == Rounds(Loop(table, 0, []), n)
        invariant l == Loop(cmds, badCommands, calls)
        decreases |cmds| - badCommands
      {
        AfterEnds(table, n, l);
        AfterRound(table, n, l);
        CleanupRound(cmds[badCommands].value.value);
        l, n := Round(l), n + 1;
      }
      AfterEnds(table, n, l);
      assert table[..|table|] == table;
    }
  }

  lemma AfterEnds(table: CmdTable, n: nat, l: Loop)
    requires After(table, n, l)
    ensures Over(l) <==> n == |table|
    ensures NoNulls(table[..n]) && l.calls == CallsFor(Commands(table[..n]))
    ensures NoNulls(table) && n < |table| ==> table[n].value.Some?
  {
  }

  /** The entries whose commands do not leave the table. */
  ghost function Staying(table: CmdTable): CmdTable
    requires NoNulls(table)
  {
    if table == [] then []
    else
      var n := |table| - 1;
      if table[n].value.value.leaves then Staying(table[..n]) else Staying(table[..n]) + [table[n]]
  }

  lemma {:induction false} StayingFrom(table: CmdTable)
    requires NoNulls(table)
    ensures |Staying(table)| <= |table| && forall e :: e in Staying(table) ==> e in table
  {
    if table != [] {
      StayingFrom(table[..|table| - 1]);
    }
  }

  lemma StayingStep(table: CmdTable, n: nat)
    requires NoNulls(table) && 0 < n <= |table|
    ensures NoNulls(table[..n]) && NoNulls(table[..n - 1])
    ensures var stayed := Staying(table[..n - 1]);
      Staying(table[..n]) == if table[n - 1].value.value.leaves then stayed else stayed + [table[n - 1]]
  {
    assert table[..n][..n - 1] == table[..n - 1] && table[..n][n - 1] == table[n - 1];
  }

  /** A round behind `done`, which has no entry with the next one's id. */
  lemma StayRound(l: Loop, done: CmdTable, e: Entry<int, Option<Command>>, rest: CmdTable)
    requires l.table == done + [e] + rest && l.bad == |done| && e.value.Some? && e.key == e.value.value.id
    requires forall k :: 0 <= k < |done| ==> done[k].key != e.key
    ensures var stayed := if e.value.value.leaves then done else done + [e];
      Round(l).table == stayed + rest && Round(l).bad == |stayed|
  {
    assert FirstAt(l.table, e.key, l.bad);
    RemoveFirstIs(l.table, e.key, l.bad);
    assert l.table[..l.bad] == done && l.table[l.bad + 1..] == rest;
  }

  lemma StayersStep(table: CmdTable, n: nat, l: Loop)
    requires OwnIds(table) && NoNulls(table) && DistinctKeys(table) && 0 < n <= |table|
    requires NoNulls(table[..n - 1]) && l.table == Staying(table[..n - 1]) + table[n - 1..]
    requires l.bad == |Staying(table[..n - 1])|
    ensures NoNulls(table[..n]) && Round(l).table == Staying(table[..n]) + table[n..]
    ensures Round(l).bad == |Staying(table[..n])|
  {
    StayingStep(table, n);
    OtherKeys(table, n - 1);
    var e := table[n - 1];
    assert e.value.Some? && e.key == e.value.value.id;
    hide Staying, Round, DistinctKeys, OwnIds, NoNulls;
    assert table[n - 1..] == [e] + table[n..];
    var done, rest := Staying(table[..n - 1]), table[n..];
    assert done + ([e] + rest) == done + [e] + rest;
    StayRound(l, done, e, rest);
  }

  /** With distinct ids what remains in the end are the entries of the commands that do not leave. */
  lemma {:induction false} StayersRemain(table: CmdTable, n: nat)
    requires OwnIds(table) && NoNulls(table) && DistinctKeys(table) && n <= |table|
    ensures NoNulls(table[..n])
    ensures Rounds(Loop(table, 0, []), n).table == Staying(table[..n]) + table[n..]
    ensures Rounds(Loop(table, 0, []), n).bad == |Staying(table[..n])|
  {
    if n > 0 {
      StayersRemain(table, n - 1);
      StayersStep(table, n, Rounds(Loop(table, 0, []), n - 1));
      hide Staying, Round, DistinctKeys, OwnIds, NoNulls;
    }
  }

  lemma OtherKeys(table: CmdTable, n: nat)
    requires NoNulls(table) && DistinctKeys(table) && n < |table|
    ensures NoNulls(table[..n])
    ensures forall k :: 0 <= k < |Staying(table[..n])| ==> Staying(table[..n])[k].key != table[n].key
  {
    var done := Staying(table[..n]);
    StayingFrom(table[..n]);
    hide Staying;
    assert forall k :: 0 <= k < |done| ==> done[k] in done;
  }
}

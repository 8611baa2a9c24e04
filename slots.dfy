/**
 * The parent process's bookkeeping of client descriptors: initialize_server
 * marks all 1000 slots free, and handle_connections stores each accepted
 * descriptor in the slot under a cycling index and then moves the index on
 * to the next free slot. The result of each accept is an input; the forked
 * child and what it does are not part of this state.
 */
module Slots {
  import opened Wrappers
  import opened ServerH
  import opened Errors

  /** The slot table and the slot index as values. */
  datatype Table = Table(slots: seq<int>, index: nat)

  /** What one pass of the accept loop ends in: handle_connections returned, the loop goes on, or the advance loop never ends. */
  datatype Step = Stopped(status: int) | Continue | Spinning

  /** A table and the step that produced it. */
  datatype Served = Served(table: Table, step: Step)

  /** A table of the right size with its index on a slot. */
  predicate WellFormed(t: Table)
  {
    |t.slots| == MAX_CLIENT_CONNECTIONS && t.index < MAX_CLIENT_CONNECTIONS
  }

  /** n free slots. */
  function FreeSlots(n: nat): (r: seq<int>)
    ensures |r| == n
    ensures forall k :: 0 <= k < n ==> r[k] == INVALID_FILE_DESC
  {
    seq(n, _ => INVALID_FILE_DESC)
  }

  /** The table as initialize_server leaves it for handle_connections: every slot free, the index at 0. */
  function Fresh(): (t: Table)
    ensures WellFormed(t) && t.index == 0
    ensures forall k :: 0 <= k < MAX_CLIENT_CONNECTIONS ==> t.slots[k] == INVALID_FILE_DESC
  {
    Table(FreeSlots(MAX_CLIENT_CONNECTIONS), 0)
  }

  /** The slot d steps after slot i, going round the table: (i + d) % MAX_CLIENT_CONNECTIONS for a step of at most one turn. */
  function SlotAfter(i: nat, d: nat): (j: nat)
    requires i < MAX_CLIENT_CONNECTIONS && d <= MAX_CLIENT_CONNECTIONS
    ensures j < MAX_CLIENT_CONNECTIONS && j == (i + d) % MAX_CLIENT_CONNECTIONS
  {
    if i + d < MAX_CLIENT_CONNECTIONS then i + d else i + d - MAX_CLIENT_CONNECTIONS
  }

  /**
   * The advance loop as a function: look at slot i, then the next one
   * round the table, for at most `steps` slots (never more than one turn),
   * and give the first free one: every slot passed over on the way is taken.
   */
  function AdvanceFrom(s: seq<int>, i: nat, steps: nat): (r: Option<nat>)
    requires |s| == MAX_CLIENT_CONNECTIONS && i < MAX_CLIENT_CONNECTIONS && steps <= MAX_CLIENT_CONNECTIONS
    ensures r.Some? ==> r.value < MAX_CLIENT_CONNECTIONS && s[r.value] == INVALID_FILE_DESC
    ensures r.Some? ==> exists d :: 0 <= d < steps && r.value == SlotAfter(i, d) &&
                                    forall e :: 0 <= e < d ==> s[SlotAfter(i, e)] != INVALID_FILE_DESC
    decreases steps
  {
    if steps == 0 then None
    else if s[i] == INVALID_FILE_DESC then
      assert SlotAfter(i, 0) == i;
      Some(i)
    else
      var next := SlotAfter(i, 1);
      var r := AdvanceFrom(s, next, steps - 1);
      assert r.Some? ==> exists d :: 0 <= d < steps && r.value == SlotAfter(i, d) &&
                                     forall e :: 0 <= e < d ==> s[SlotAfter(i, e)] != INVALID_FILE_DESC by {
        if r.Some? {
          var d' :| 0 <= d' < steps - 1 && r.value == SlotAfter(next, d') &&
                    forall e :: 0 <= e < d' ==> s[SlotAfter(next, e)] != INVALID_FILE_DESC;
          assert SlotAfter(i, 0) == i;
          forall e | 0 < e <= d' ensures SlotAfter(i, e) == SlotAfter(next, e - 1) { }
          assert r.value == SlotAfter(i, d' + 1);
        }
      }
      r
  }

  /** The search comes back empty exactly when none of the slots it looks at is free. */
  lemma {:induction false} AdvanceFromNone(s: seq<int>, i: nat, steps: nat)
    requires |s| == MAX_CLIENT_CONNECTIONS && i < MAX_CLIENT_CONNECTIONS && steps <= MAX_CLIENT_CONNECTIONS
    ensures AdvanceFrom(s, i, steps).None? <==> forall d :: 0 <= d < steps ==> s[SlotAfter(i, d)] != INVALID_FILE_DESC
    decreases steps
  {
    assert SlotAfter(i, 0) == i;
    if steps > 0 && s[i] != INVALID_FILE_DESC {
      var next := SlotAfter(i, 1);
      AdvanceFromNone(s, next, steps - 1);
      if AdvanceFrom(s, i, steps).None? {
        forall d | 0 < d < steps ensures s[SlotAfter(i, d)] != INVALID_FILE_DESC {
          assert SlotAfter(i, d) == SlotAfter(next, d - 1);
        }
      } else {
        var d' :| 0 <= d' < steps - 1 && s[SlotAfter(next, d')] == INVALID_FILE_DESC;
        assert SlotAfter(next, d') == SlotAfter(i, d' + 1);
      }
    }
  }

  /** A full turn of the advance loop finds a free slot exactly when the table has one. */
  lemma FullTurnFindsAnyFreeSlot(s: seq<int>, i: nat)
    requires |s| == MAX_CLIENT_CONNECTIONS && i < MAX_CLIENT_CONNECTIONS
    ensures AdvanceFrom(s, i, MAX_CLIENT_CONNECTIONS).None? <==> forall k :: 0 <= k < |s| ==> s[k] != INVALID_FILE_DESC
  {
    AdvanceFromNone(s, i, MAX_CLIENT_CONNECTIONS);
    if AdvanceFrom(s, i, MAX_CLIENT_CONNECTIONS).None? {
      forall k | 0 <= k < |s| ensures s[k] != INVALID_FILE_DESC {
        var d := if k >= i then k - i else k + MAX_CLIENT_CONNECTIONS - i;
        assert SlotAfter(i, d) == k;
      }
    }
  }

  /**
   * One pass of the accept loop: the accepted descriptor goes into the
   * slot under the index and into no other; a failed accept (-1) ends
   * handle_connections with the status check_error returns; otherwise the
   * index moves to the next free slot, or, with no free slot, the advance
   * loop spins forever.
   */
  function AcceptStep(t: Table, fd: int): (r: Served)
    requires WellFormed(t)
    ensures WellFormed(r.table)
    ensures r.table.slots == t.slots[t.index := fd]
    ensures fd == INVALID_FILE_DESC <==> r.step == Stopped(1)
    ensures r.step.Continue? ==> r.table.slots[r.table.index] == INVALID_FILE_DESC
    ensures r.step.Spinning? <==> fd != INVALID_FILE_DESC && forall k :: 0 <= k < |r.table.slots| ==> r.table.slots[k] != INVALID_FILE_DESC
  {
    var slots := t.slots[t.index := fd];
    if fd == INVALID_FILE_DESC then Served(Table(slots, t.index), Stopped(CheckError(INTENDED_ERROR, NO_EXIT_ON_ERROR).status))
    else
      FullTurnFindsAnyFreeSlot(slots, t.index);
      match AdvanceFrom(slots, t.index, MAX_CLIENT_CONNECTIONS)
      case Some(j) => Served(Table(slots, j), Continue)
      case None => Served(Table(slots, t.index), Spinning)
  }

  /** The accept loop of handle_connections over a run of accept results, until it returns or spins. */
  function Serve(t: Table, accepts: seq<int>): (r: Served)
    requires WellFormed(t)
    ensures WellFormed(r.table)
    decreases |accepts|
  {
    if accepts == [] then Served(t, Continue)
    else
      var r := AcceptStep(t, accepts[0]);
      if r.step.Continue? then Serve(r.table, accepts[1..]) else r
  }

  /** A table whose first slots hold descriptors and whose other slots are free, with the index on the first free one. */
  function FilledUpTo(filled: seq<int>): (t: Table)
    requires |filled| < MAX_CLIENT_CONNECTIONS
    ensures WellFormed(t)
  {
    Table(filled + FreeSlots(MAX_CLIENT_CONNECTIONS - |filled|), |filled|)
  }

  /** Accepting into such a table fills the slot under the index and moves the index to the next slot; the last free slot leaves the loop spinning. */
  lemma AcceptIntoFilledPrefix(filled: seq<int>, fd: int)
    requires |filled| < MAX_CLIENT_CONNECTIONS && fd != INVALID_FILE_DESC
    requires forall k :: 0 <= k < |filled| ==> filled[k] != INVALID_FILE_DESC
    ensures |filled| + 1 < MAX_CLIENT_CONNECTIONS ==> AcceptStep(FilledUpTo(filled), fd) == Served(FilledUpTo(filled + [fd]), Continue)
    ensures |filled| + 1 == MAX_CLIENT_CONNECTIONS ==> AcceptStep(FilledUpTo(filled), fd) == Served(Table(filled + [fd], |filled|), Spinning)
  {
    var n := |filled|;
    var slots := FilledUpTo(filled).slots[n := fd];
    assert slots == (filled + [fd]) + FreeSlots(MAX_CLIENT_CONNECTIONS - n - 1);
    if n + 1 < MAX_CLIENT_CONNECTIONS {
      assert SlotAfter(n, 1) == n + 1;
      assert AdvanceFrom(slots, n + 1, MAX_CLIENT_CONNECTIONS - 1) == Some(n + 1);
    } else {
      assert slots == filled + [fd];
    }
  }

  /**
   * From that state, accepts that all succeed fill the slots in order;
   * once the last free slot is taken the advance loop never ends.
   */
  lemma {:induction false} ServeFillsInOrder(filled: seq<int>, accepts: seq<int>)
    requires |filled| < MAX_CLIENT_CONNECTIONS
    requires forall k :: 0 <= k < |filled| ==> filled[k] != INVALID_FILE_DESC
    requires forall k :: 0 <= k < |accepts| ==> accepts[k] != INVALID_FILE_DESC
    ensures |filled| + |accepts| < MAX_CLIENT_CONNECTIONS ==> Serve(FilledUpTo(filled), accepts) == Served(FilledUpTo(filled + accepts), Continue)
    ensures |filled| + |accepts| >= MAX_CLIENT_CONNECTIONS ==> Serve(FilledUpTo(filled), accepts).step == Spinning
    decreases |accepts|
  {
    if accepts != [] {
      AcceptIntoFilledPrefix(filled, accepts[0]);
      if |filled| + 1 < MAX_CLIENT_CONNECTIONS {
        assert (filled + [accepts[0]]) + accepts[1..] == filled + accepts;
        ServeFillsInOrder(filled + [accepts[0]], accepts[1..]);
      }
    } else {
      assert filled + accepts == filled;
    }
  }

  /**
   * The parent never frees a slot, so after initialize_server the first
   * 999 successful accepts fill slots 0 to 998 in order, and the 1000th
   * leaves handle_connections spinning for ever.
   */
  lemma SpinsAfterThousandAccepts(accepts: seq<int>)
    requires forall k :: 0 <= k < |accepts| ==> accepts[k] != INVALID_FILE_DESC
    ensures |accepts| < MAX_CLIENT_CONNECTIONS ==> Serve(Fresh(), accepts) == Served(FilledUpTo(accepts), Continue)
    ensures |accepts| >= MAX_CLIENT_CONNECTIONS ==> Serve(Fresh(), accepts).step == Spinning
  {
    assert Fresh() == FilledUpTo([]);
    ServeFillsInOrder([], accepts);
    assert [] + accepts == accepts;
  }

  /** The client_fds array and the client_fds_ind cursor of handle_connections. */
  class ClientSlots {
    var fds: array<int>
    var index: nat

    predicate Valid()
      reads this
    {
      fds.Length == MAX_CLIENT_CONNECTIONS && index < MAX_CLIENT_CONNECTIONS
    }

    /** The state as a value. */
    function State(): (t: Table)
      requires Valid()
      reads this, fds
      ensures WellFormed(t)
    {
      Table(fds[..], index)
    }

    /** A global int array starts zeroed; the cursor starts at 0. */
    constructor()
      ensures Valid() && fresh(fds) && index == 0
      ensures forall k :: 0 <= k < fds.Length ==> fds[k] == 0
    {
      fds := new int[MAX_CLIENT_CONNECTIONS](_ => 0);
      index := 0;
    }

    /** initialize_server: marks every slot free and returns SUCCESS. */
    method InitializeServer() returns (status: int)
      requires Valid()
      modifies fds
      ensures Valid() && status == SUCCESS
      ensures fds[..] == Fresh().slots
    {
      for i := 0 to fds.Length
        invariant forall k :: 0 <= k < i ==> fds[k] == INVALID_FILE_DESC
      {
        fds[i] := INVALID_FILE_DESC;
      }
      assert fds[..] == Fresh().slots;
      return SUCCESS;
    }

    /**
     * One pass of the accept loop: store the accept result in the slot
     * under the cursor, return on a failed accept, and otherwise advance
     * the cursor to a free slot. The advance loop is cut off after a full
     * turn, where the C code would go round for ever.
     */
    method Accept(fd: int) returns (step: Step)
      requires Valid()
      modifies this, fds
      ensures Valid() && fds == old(fds)
      ensures Served(State(), step) == AcceptStep(old(State()), fd)
    {
      fds[index] := fd;
      if fd == INVALID_FILE_DESC {
        return Stopped(CheckError(INTENDED_ERROR, NO_EXIT_ON_ERROR).status);
      }
      FullTurnFindsAnyFreeSlot(fds[..], index);
      var found := AdvanceCursor();
      step := if found then Continue else Spinning;
    }

    /**
     * The advance loop: move the cursor on, cyclically, while its slot is
     * taken. It is cut off after a full turn, back on the slot it started
     * from, where the C code would go round for ever.
     */
    method AdvanceCursor() returns (found: bool)
      requires Valid()
      modifies this
      ensures Valid() && fds == old(fds)
      ensures found ==> AdvanceFrom(fds[..], old(index), MAX_CLIENT_CONNECTIONS) == Some(index)
      ensures !found ==> AdvanceFrom(fds[..], old(index), MAX_CLIENT_CONNECTIONS).None? && index == old(index)
    {
      ghost var start := index;
      ghost var slots := fds[..];
      ghost var target := AdvanceFrom(slots, start, MAX_CLIENT_CONNECTIONS);
      var steps := 0;
      while steps < MAX_CLIENT_CONNECTIONS && fds[index] != INVALID_FILE_DESC
        invariant 0 <= steps <= MAX_CLIENT_CONNECTIONS && Valid() && fds == old(fds)
        invariant index == SlotAfter(start, steps)
        invariant target == AdvanceFrom(slots, index, MAX_CLIENT_CONNECTIONS - steps)
        decreases MAX_CLIENT_CONNECTIONS - steps
      {
        assert fds[index] == slots[index];
        index := (index + 1) % MAX_CLIENT_CONNECTIONS;
        steps := steps + 1;
      }
      found := fds[index] == INVALID_FILE_DESC;
      assert fds[..] == slots;
    }

    /**
     * handle_connections: the cursor starts at 0 and each accept result in
     * turn goes through the loop, until a pass returns or spins.
     */
    method HandleConnections(accepts: seq<int>) returns (step: Step)
      requires Valid()
      modifies this, fds
      ensures Valid() && fds == old(fds)
      ensures Served(State(), step) == Serve(Table(old(fds[..]), 0), accepts)
    {
      index := 0;
      step := Continue;
      var k := 0;
      while k < |accepts| && step.Continue?
        invariant 0 <= k <= |accepts| && Valid() && fds == old(fds)
        invariant Serve(Table(old(fds[..]), 0), accepts) ==
          if step.Continue? then Serve(State(), accepts[k..]) else Served(State(), step)
        decreases |accepts| - k
      {
        assert accepts[k..][1..] == accepts[k + 1..];
        step := Accept(accepts[k]);
        k := k + 1;
      }
    }
  }
}

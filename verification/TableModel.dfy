/** The live table: rows in order of arrival, and the row announcements its views follow. */
module TableModel {
  import opened Options
  import opened Processes
  import opened Replicas

  /** What a view learns of one change: the announced row, and, for an insertion, the data
      it reads there once the insertion is over. */
  datatype RowChange =
    | RowsInserted(row: nat, data: ProcessInfo)
    | RowsRemoved(row: nat)

  /** A view follows one announcement on its own copy; None when the announced row does
      not exist in the copy. */
  function Follow(copy: seq<ProcessInfo>, change: RowChange): Option<seq<ProcessInfo>> {
    match change
    case RowsInserted(row, data) => if row <= |copy| then Some(InsertAt(copy, row, data)) else None
    case RowsRemoved(row) => if row < |copy| then Some(EraseAt(copy, row)) else None
  }

  function FollowAll(copy: seq<ProcessInfo>, changes: seq<RowChange>): Option<seq<ProcessInfo>> {
    if changes == [] then Some(copy)
    else match FollowAll(copy, changes[..|changes| - 1])
         case None => None
         case Some(c) => Follow(c, changes[|changes| - 1])
  }

  /** What the table announces for one event. */
  function Announcements(t: seq<ProcessInfo>, e: Event): seq<RowChange> {
    match e
    case Created(p) => [RowsInserted(|t|, p)]
    case Deleted(pid) => if FirstMatch(t, pid) < |t| then [RowsRemoved(FirstMatch(t, pid))] else []
  }

  function AllAnnouncements(t: seq<ProcessInfo>, es: seq<Event>): seq<RowChange>
    decreases es
  {
    if es == [] then [] else Announcements(t, es[0]) + AllAnnouncements(TableStep(t, es[0]), es[1..])
  }

  lemma {:induction false} FollowConcat(copy: seq<ProcessInfo>, a: seq<RowChange>, b: seq<RowChange>)
    ensures FollowAll(copy, a + b)
         == match FollowAll(copy, a) case None => None case Some(c) => FollowAll(c, b)
  {
    if b == [] {
      assert a + b == a;
    } else {
      assert (a + b)[..|a + b| - 1] == a + b[..|b| - 1];
      FollowConcat(copy, a, b[..|b| - 1]);
    }
  }

  lemma FollowStep(t: seq<ProcessInfo>, e: Event)
    ensures FollowAll(t, Announcements(t, e)) == Some(TableStep(t, e))
  {
    var changes := Announcements(t, e);
    if changes != [] {
      assert changes[..|changes| - 1] == [];
      if e.Created? { assert InsertAt(t, |t|, e.process) == t + [e.process]; }
    }
  }

  /** A view that starts from the rows and follows every announcement holds exactly the
      table's rows after any events, deletions of unknown pids included. */
  lemma {:induction false} ViewHoldsRows(t: seq<ProcessInfo>, es: seq<Event>)
    ensures FollowAll(t, AllAnnouncements(t, es)) == Some(TableRun(t, es))
    decreases es
  {
    if es != [] {
      FollowStep(t, es[0]);
      ViewHoldsRows(TableStep(t, es[0]), es[1..]);
      FollowConcat(t, Announcements(t, es[0]), AllAnnouncements(TableStep(t, es[0]), es[1..]));
    }
  }

  class ProcessTableModel {
    var processes: seq<ProcessInfo>
    // everything announced so far, and the rows of the constructor
    var announced: seq<RowChange>
    ghost var initial: seq<ProcessInfo>

    /** A view that copied the rows at construction and followed every announcement holds
        exactly the rows. */
    ghost predicate Valid() reads this {
      FollowAll(initial, announced) == Some(processes)
    }

    constructor (tracked: seq<ProcessInfo>)
      ensures Valid() && processes == tracked && announced == []
    {
      processes, initial, announced := tracked, tracked, [];
    }

    method AddNewProcess(process: ProcessInfo)
      requires Valid()
      modifies this
      ensures Valid() && initial == old(initial)
      ensures processes == TableStep(old(processes), Created(process))
      ensures announced == old(announced) + Announcements(old(processes), Created(process))
    {
      var row := |processes|;
      processes := processes + [process];
      assert processes == InsertAt(old(processes), row, processes[row]);
      announced := announced + [RowsInserted(row, processes[row])];
      assert announced[..|announced| - 1] == old(announced);
    }

    method RemoveProcess(process: ProcessInfo)
      requires Valid()
      modifies this
      ensures Valid() && initial == old(initial)
      ensures processes == TableStep(old(processes), Deleted(process.pid))
      ensures announced == old(announced) + Announcements(old(processes), Deleted(process.pid))
    {
      var it := 0;
      while it < |processes| && processes[it].pid != process.pid
        invariant 0 <= it <= |processes|
        invariant forall i :: 0 <= i < it ==> processes[i].pid != process.pid
      {
        it := it + 1;
      }
      assert it == FirstMatch(processes, process.pid);
      if it == |processes| {
        assert announced == old(announced) + [];
        return;
      }
      processes := EraseAt(processes, it);
      announced := announced + [RowsRemoved(it)];
      assert announced[..|announced| - 1] == old(announced);
    }
  }
}

/** The Linux tracker reports a creation for a fork and again for an exec, and stamps a
    deletion with the creation time of the oldest entry of the pid. */
module LinuxHistory {
  import opened Processes
  import opened History
  import opened ProcessTracking

  datatype Machine = Machine(tracker: seq<ProcessInfo>, rows: Rows)

  function Report(m: Machine, p: ProcessInfo): Machine {
    Machine(Inserted(m.tracker, p), InsertOrIgnore(m.rows, p))
  }

  function Exit(m: Machine, gone: ProcessInfo): Machine {
    match LinuxDeletion(m.tracker, gone)
    case None => m
    case Some(p) => Machine(Erased(m.tracker, gone.pid), Stamp(m.rows, p.Id(), p.terminated))
  }

  /** The exit of a listed process reaches its own row exactly when the oldest entry of its
      pid has its creation second. */
  lemma ExitReachesOwnRowIff(m: Machine, gone: ProcessInfo)
    requires Sorted(m.tracker) && Present(m.tracker, gone.pid)
    requires gone.Id() in m.rows && m.rows[gone.Id()].termination != gone.terminated
    ensures OfPid(m.tracker, gone.pid) != []
    ensures Exit(m, gone).rows[gone.Id()].termination == gone.terminated
       <==> OfPid(m.tracker, gone.pid)[0].created == gone.created
  {
    LowerBoundOldest(m.tracker, gone.pid);
  }

  function ForkExecExit(m: Machine, p: ProcessInfo): Machine {
    Exit(Report(Report(m, p), p), p)
  }

  lemma ReportView(m: Machine, p: ProcessInfo)
    requires Sorted(m.tracker)
    ensures Sorted(Report(m, p).tracker)
    ensures OfPid(Report(m, p).tracker, p.pid) == OfPid(m.tracker, p.pid) + [p]
  {
    InsertedView(m.tracker, p, p.pid);
  }

  lemma ExitView(m: Machine, gone: ProcessInfo)
    requires Sorted(m.tracker) && OfPid(m.tracker, gone.pid) != []
    ensures var q := OfPid(m.tracker, gone.pid);
      && Sorted(Exit(m, gone).tracker)
      && OfPid(Exit(m, gone).tracker, gone.pid) == q[1..]
      && Exit(m, gone).rows == Stamp(m.rows, Key(gone.pid, q[0].created), gone.terminated)
  {
    OfPidNone(m.tracker, gone.pid);
    LowerBoundOldest(m.tracker, gone.pid);
    ErasedView(m.tracker, gone.pid, gone.pid);
  }

  lemma ForkExecExitView(m: Machine, p: ProcessInfo)
    requires Sorted(m.tracker)
    ensures var q := OfPid(m.tracker, p.pid) + [p, p];
      && Sorted(ForkExecExit(m, p).tracker)
      && OfPid(ForkExecExit(m, p).tracker, p.pid) == q[1..]
      && ForkExecExit(m, p).rows
         == Stamp(InsertOrIgnore(m.rows, p), Key(p.pid, q[0].created), p.terminated)
  {
    var q := OfPid(m.tracker, p.pid);
    var m1 := Report(m, p);
    var m2 := Report(m1, p);
    assert Sorted(m1.tracker) && OfPid(m1.tracker, p.pid) == q + [p] by { ReportView(m, p); }
    assert Sorted(m2.tracker) && OfPid(m2.tracker, p.pid) == q + [p, p] by {
      ReportView(m1, p);
      assert q + [p] + [p] == q + [p, p];
    }
    assert m2.rows == InsertOrIgnore(m.rows, p);
    ExitView(m2, p);
  }

  /** A process that forked, executed and exited leaves an entry behind. When its pid is
      used again, the exit of the new process overwrites the exact time of the old one, and
      the new one stays "running". */
  lemma ForkExecSpoilsReuse(m: Machine, first: ProcessInfo, second: ProcessInfo)
    requires Sorted(m.tracker) && !Present(m.tracker, first.pid)
    requires first.pid == second.pid && first.created != second.created
    requires first.Id() !in m.rows && second.Id() !in m.rows
    ensures var m1 := ForkExecExit(m, first);
            var m2 := ForkExecExit(m1, second);
      && first.Id() in m1.rows && m1.rows[first.Id()].termination == first.terminated
      && first.Id() in m2.rows && m2.rows[first.Id()].termination == second.terminated
      && second.Id() in m2.rows && m2.rows[second.Id()].termination == 0
  {
    OfPidNone(m.tracker, first.pid);
    ForkExecExitView(m, first);
    assert [first, first][1..] == [first];
    ForkExecExitView(ForkExecExit(m, first), second);
  }
}

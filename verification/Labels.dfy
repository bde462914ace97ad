/** The label the history view shows for a termination time. */
module Labels {
  import opened Integers
  import opened Processes
  import opened HistoryRuns

  /** Undefined is the negation of the least int, which the source leaves undefined. */
  datatype Label = Running | After(second: int) | At(second: int) | Undefined

  /** QVariant::toInt, then a sign test and a 32-bit negation. */
  function Shown(stored: int): Label {
    var ts := ToInt(stored);
    if ts == 0 then Running
    else if ts == -INT_MAX - 1 then Undefined
    else if ts < 0 then After(-ts)
    else At(ts)
  }

  /** What the encoding of the column means. */
  function Meaning(stored: int): Label {
    if stored == 0 then Running else if stored < 0 then After(-stored) else At(stored)
  }

  /** The label says what the column means exactly when the stamp and its opposite fit an int. */
  lemma ShownIsMeaning(stored: int)
    ensures Shown(stored) == Meaning(stored) <==> -INT_MAX <= stored <= INT_MAX
  {
  }

  /** Up to the year 2038, after any run in which exits meet their reports, whenever the
      application shows a row: "running" is a process alive and tracked, a date is the second
      it ended, and "After X" is a process alive or ended no earlier than X. */
  lemma LabelsAreSound(s: System, steps: seq<Step>, k: Key)
    requires Initial(s) && Legal(s, steps) && ExitsMeetReports(s.platform, steps)
    requires Run(s, steps).up && Run(s, steps).now <= INT_MAX
    requires k in Run(s, steps).rows
    ensures var r := Run(s, steps);
      match Shown(r.rows[k].termination)
      case Running => k in r.alive && Newest(r.tracker, k)
      case At(t) => k in r.ended && r.ended[k] == t
      case After(t) => k in r.alive || (k in r.ended && r.ended[k] >= t)
      case Undefined => false
  {
    var r := Run(s, steps);
    RunKeeps(s, steps);
    TruthfulIff(s, steps);
    assert Truthful(r, k);
    ShownIsMeaning(r.rows[k].termination);
  }
}

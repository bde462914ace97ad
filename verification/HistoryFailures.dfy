/** Two ways for the history to become false: a startup that dies between overwriting
    LastAlive and repairing the table, and a pid used again after repeated reports. */
module HistoryFailures {
  import opened Options
  import opened Processes
  import opened History
  import opened HistoryRuns

  lemma RunAppend(s: System, steps: seq<Step>, step: Step)
    ensures Run(s, steps + [step]) == Next(Run(s, steps), step)
    ensures Legal(s, steps + [step]) <==> Legal(s, steps) && Possible(Run(s, steps), step)
  {
    assert (steps + [step])[..|steps + [step]| - 1] == steps;
  }

  lemma ReportsAppend(steps: seq<Step>, step: Step, pid: nat)
    ensures Reports(steps + [step], pid) == ReportsAfter(Reports(steps, pid), step, pid)
    ensures Exits(steps + [step], pid) == ExitsAfter(Exits(steps, pid), step, pid)
  {
    assert (steps + [step])[..|steps + [step]| - 1] == steps;
  }

  /** Five steps in a row. */
  lemma RunFive(s: System, a: Step, b: Step, c: Step, d: Step, e: Step)
    ensures Run(s, [a, b, c, d, e]) == Next(Next(Next(Next(Next(s, a), b), c), d), e)
    ensures Legal(s, [a, b, c, d, e]) <==>
            && Possible(s, a) && Possible(Next(s, a), b) && Possible(Next(Next(s, a), b), c)
            && Possible(Next(Next(Next(s, a), b), c), d)
            && Possible(Next(Next(Next(Next(s, a), b), c), d), e)
  {
    assert [a] == [] + [a] && [a, b] == [a] + [b] && [a, b, c] == [a, b] + [c];
    assert [a, b, c, d] == [a, b, c] + [d] && [a, b, c, d, e] == [a, b, c, d] + [e];
    RunAppend(s, [], a);
    RunAppend(s, [a], b);
    RunAppend(s, [a, b], c);
    RunAppend(s, [a, b, c], d);
    RunAppend(s, [a, b, c, d], e);
  }

  /* ---------- a torn startup ---------- */

  /** The attempt gets as far as storing the current second. */
  function Torn(s: System): System {
    s.(lastAlive := Some(s.now))
  }

  /** What can happen while the application is down. */
  predicate Gap(steps: seq<Step>) {
    forall i :: 0 <= i < |steps| ==> steps[i].Pass? || steps[i].BornUnseen? || steps[i].DiedUnseen?
  }

  lemma {:induction false} GapKeeps(s: System, gap: seq<Step>)
    requires WorldOk(s) && !s.up && Gap(gap) && Legal(s, gap)
    ensures var r := Run(s, gap);
      && WorldOk(r) && r.now >= s.now
      && r == s.(now := r.now, alive := r.alive, ended := r.ended)
      && (forall k :: k in s.ended ==> k in r.ended && r.ended[k] == s.ended[k])
      && (forall k, t :: k in s.rows && t <= s.now ==> (LastedUntil(r, k, t) <==> LastedUntil(s, k, t)))
  {
    if gap != [] {
      GapKeeps(s, gap[..|gap| - 1]);
      assert gap[|gap| - 1].Pass? || gap[|gap| - 1].BornUnseen? || gap[|gap| - 1].DiedUnseen?;
    }
  }

  /** One key under the startup that follows the attempt. */
  lemma TornRow(s: System, gap: seq<Step>, v: seq<ProcessInfo>, k: Key)
    requires WorldOk(s) && !s.up && Gap(gap) && Legal(Torn(s), gap)
    requires k in s.rows ==> Truthful(s, k)
    requires Lists(v, Run(Torn(s), gap).alive)
    ensures var q := Run(Torn(s), gap);
            var r := q.(up := true, rows := StartupRows(q.rows, q.lastAlive, v));
      && (k in s.rows && s.rows[k].termination == 0 ==>
            k in r.rows && r.rows[k].termination == -s.now && (Truthful(r, k) <==> LastedUntil(s, k, s.now)))
      && (k in r.rows && !(k in s.rows && s.rows[k].termination == 0) ==> Truthful(r, k))
  {
    GapKeeps(Torn(s), gap);
    var q := Run(Torn(s), gap);
    OccursAt(v, k);
    StartupAt(q.rows, s.now, v, k);
    InsertAllAt(Repair(q.rows, s.now), v, k);
    if k in s.rows {
      var t := if s.rows[k].termination == 0 then s.now else -s.rows[k].termination;
      assert t <= s.now ==> (LastedUntil(q, k, t) <==> LastedUntil(Torn(s), k, t));
    }
  }

  /** `s` is the state of the attempt. Whatever happens until the next startup, each running
      row then says "after the attempt", and the history is true exactly when all their
      processes outlasted it. */
  lemma TornStartupIff(s: System, gap: seq<Step>, list: seq<ProcessInfo>)
    requires Inv(s) && AllTruthful(s) && !s.up && s.lastAlive.Some?
    requires Gap(gap) && Legal(Torn(s), gap) && Possible(Run(Torn(s), gap), Startup(list))
    ensures var r := Next(Run(Torn(s), gap), Startup(list));
      && (forall k :: k in s.rows && s.rows[k].termination == 0 ==>
            k in r.rows && r.rows[k].termination == -s.now && (Truthful(r, k) <==> LastedUntil(s, k, s.now)))
      && (AllTruthful(r) <==>
            forall k :: k in s.rows && s.rows[k].termination == 0 ==> LastedUntil(s, k, s.now))
  {
    var q := Run(Torn(s), gap);
    var r, v := Next(q, Startup(list)), StableSort(list);
    forall k ensures Occurrences(v, k) == Occurrences(list, k) { SortLists(list, k); }
    forall k
      ensures k in s.rows && s.rows[k].termination == 0 ==>
        k in r.rows && r.rows[k].termination == -s.now && (Truthful(r, k) <==> LastedUntil(s, k, s.now))
      ensures k in r.rows && !(k in s.rows && s.rows[k].termination == 0) ==> Truthful(r, k)
    {
      TornRow(s, gap, v, k);
      var r' := q.(up := true, rows := r.rows);
      assert k in r.rows ==> Truthful(r', k) == Truthful(r, k);
    }
  }

  lemma FirstStartup(s: System, p: ProcessInfo)
    requires Initial(s) && s.alive == {p.Id()}
    ensures Possible(s, Startup([p]))
    ensures Next(s, Startup([p]))
         == s.(up := true, tracker := [p], table := [p],
               rows := map[p.Id() := Row(p.details, 0)], lastAlive := Some(s.now))
  {
    assert StableSort([p]) == [p] by { assert [p][..0] == []; }
    assert InsertAll(map[], [p]) == InsertOrIgnore(map[], p) by { assert [p][..0] == []; }
  }

  lemma EmptyStartup(s: System)
    requires s.alive == {} && !s.up
    ensures Possible(s, Startup([]))
    ensures Next(s, Startup([]))
         == s.(up := true, tracker := [], table := [], lastAlive := Some(s.now),
               rows := if s.lastAlive.Some? then Repair(s.rows, s.lastAlive.value) else s.rows)
  {
  }

  /** From a first installation: the application runs and goes down, a process ends, a later
      startup is torn, and the next one says "after" a second the process did not see. */
  lemma TornRun(s: System, p: ProcessInfo)
    requires Initial(s) && s.alive == {p.Id()}
    ensures var steps := [Startup([p]), Crash, Pass(1), DiedUnseen(p.Id()), Pass(1)];
            var attempt := Run(s, steps);
            var r := Next(Torn(attempt), Startup([]));
      && Legal(s, steps) && Possible(Torn(attempt), Startup([]))
      && p.Id() in r.rows && r.rows[p.Id()].termination == -(s.now + 2)
      && p.Id() in r.ended && r.ended[p.Id()] == s.now + 1
      && !Truthful(r, p.Id())
  {
    var k := p.Id();
    FirstStartup(s, p);
    RunFive(s, Startup([p]), Crash, Pass(1), DiedUnseen(k), Pass(1));
    var s1 := s.(rows := map[k := Row(p.details, 0)], lastAlive := Some(s.now));
    var s2 := s1.(downSince := s.now, tracker := [], table := []);
    assert Next(Next(s, Startup([p])), Crash) == s2;
    var s3 := s2.(now := s.now + 1);
    assert Next(s2, Pass(1)) == s3;
    var attempt := s3.(now := s.now + 2, alive := s.alive - {k}, ended := s.ended[k := s.now + 1]);
    assert Next(Next(s3, DiedUnseen(k)), Pass(1)) == attempt;
    assert attempt.alive == {};
    EmptyStartup(Torn(attempt));
  }

  /* ---------- a pid used again ---------- */

  /** A process forks and executes, so it is reported twice, and exits; another is born with
      its pid and exits. */
  function Reuse(a: ProcessInfo, b: ProcessInfo): seq<Step> {
    [Startup([]), Create(a), Repeat(a), Delete(a), Create(b)]
  }

  lemma ReuseReports(a: ProcessInfo, b: ProcessInfo)
    requires a.pid == b.pid
    ensures Reports(Reuse(a, b), a.pid) == [a, a, b] && Exits(Reuse(a, b), a.pid) == 1
  {
    var x1, x2 := [Startup([])], [Startup([]), Create(a)];
    var x3, x4 := x2 + [Repeat(a)], x2 + [Repeat(a)] + [Delete(a)];
    assert x1 == [] + [Startup([])] && x2 == x1 + [Create(a)] && Reuse(a, b) == x4 + [Create(b)];
    ReportsAppend([], Startup([]), a.pid);
    ReportsAppend(x1, Create(a), a.pid);
    ReportsAppend(x2, Repeat(a), a.pid);
    ReportsAppend(x3, Delete(a), a.pid);
    ReportsAppend(x4, Create(b), a.pid);
  }

  lemma ReuseLegal(s: System, a: ProcessInfo, b: ProcessInfo)
    requires Initial(s) && s.alive == {} && a.terminated == s.now
    requires a.pid == b.pid && a.created != b.created && a.Id() !in s.ended && b.Id() !in s.ended
    ensures Legal(s, Reuse(a, b))
    ensures var r := Run(s, Reuse(a, b)); r.up && b.Id() in r.alive && r.now == s.now
  {
    EmptyStartup(s);
    RunFive(s, Startup([]), Create(a), Repeat(a), Delete(a), Create(b));
  }

  /** From a first installation on Linux, the exit of the second process makes the history
      false. */
  lemma ReuseFails(s: System, a: ProcessInfo, b: ProcessInfo)
    requires Initial(s) && s.platform.Linux? && s.alive == {} && a.terminated == s.now && b.terminated == s.now
    requires a.pid == b.pid && a.created != b.created && a.Id() !in s.ended && b.Id() !in s.ended
    ensures Legal(s, Reuse(a, b) + [Delete(b)])
    ensures !TruthfulThroughout(s, Reuse(a, b) + [Delete(b)])
  {
    var steps := Reuse(a, b);
    ReuseLegal(s, a, b);
    RunAppend(s, steps, Delete(b));
    ReuseReports(a, b);
    assert (steps + [Delete(b)])[..|steps|] == steps;
    TruthfulIff(s, steps + [Delete(b)]);
  }
}

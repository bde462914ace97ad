/** The whole application over any number of sessions: startups, crashes, heartbeats, the
    processes of the machine, and the three replicas. `alive` and `ended` are the truth the
    application never sees; the other components are its state. */
module HistoryRuns {
  import opened Options
  import opened Processes
  import opened ProcessTracking
  import opened History
  import opened Replicas

  datatype Platform = Windows | Linux

  datatype System = System(
    platform: Platform,
    now: int,                     // the clock, in seconds
    alive: set<Key>,              // processes that exist
    ended: map<Key, int>,         // processes that ended, and when
    observed: set<Key>,           // processes that ended while the application ran
    up: bool,
    downSince: int,               // when the last session ended
    tracker: seq<ProcessInfo>,
    table: seq<ProcessInfo>,
    rows: Rows,
    lastAlive: Option<int>)

  datatype Step =
    | Startup(list: seq<ProcessInfo>)    // the processes listed by the machine, in any order
    | Create(process: ProcessInfo)       // a process is born and reported
    | Repeat(process: ProcessInfo)       // a living process is reported again, as after an exec
    | Delete(process: ProcessInfo)       // a process ends and its end is reported
    | Heartbeat
    | Pass(seconds: nat)
    | Crash                              // or an ordinary exit: neither touches the history
    | BornUnseen(key: Key)
    | DiedUnseen(key: Key)

  function Report(s: System, p: ProcessInfo): System {
    s.(tracker := Inserted(s.tracker, p), table := s.table + [p], rows := InsertOrIgnore(s.rows, p))
  }

  /** The deletion the other replicas hear of. */
  function Announced(s: System, p: ProcessInfo): Option<ProcessInfo> {
    match s.platform
    case Windows => Some(p)
    case Linux => LinuxDeletion(s.tracker, p)
  }

  /** The truth of an exit. */
  function Ended(s: System, p: ProcessInfo): System {
    s.(alive := s.alive - {p.Id()}, ended := s.ended[p.Id() := s.now], observed := s.observed + {p.Id()})
  }

  /** What table and history make of an announced deletion. */
  function Heard(s: System, d: ProcessInfo): System {
    s.(table := WithoutFirst(s.table, d.pid), rows := Stamp(s.rows, d.Id(), d.terminated))
  }

  function Next(s: System, step: Step): System {
    match step
    case Startup(list) =>
      var sorted := StableSort(list);
      s.(up := true, tracker := sorted, table := sorted,
         rows := StartupRows(s.rows, s.lastAlive, sorted), lastAlive := Some(s.now))
    case Create(p) => Report(s, p).(alive := s.alive + {p.Id()})
    case Repeat(p) => Report(s, p)
    case Delete(p) =>
      var q := Ended(s, p).(tracker := Erased(s.tracker, p.pid));
      match Announced(s, p) {
        case None => q
        case Some(d) => Heard(q, d)
      }
    case Heartbeat => s.(lastAlive := Some(s.now))
    case Pass(d) => s.(now := s.now + d)
    case Crash => s.(up := false, downSince := s.now, tracker := [], table := [])
    case BornUnseen(k) => s.(alive := s.alive + {k})
    case DiedUnseen(k) => s.(alive := s.alive - {k}, ended := s.ended[k := s.now])
  }

  /** A key nobody ever had, of a pid nobody has now. */
  predicate Fresh(s: System, k: Key) {
    k !in s.alive && k !in s.ended && forall a :: a in s.alive ==> a.pid != k.pid
  }

  function Occurrences(list: seq<ProcessInfo>, k: Key): nat {
    if list == [] then 0 else (if list[0].Id() == k then 1 else 0) + Occurrences(list[1..], k)
  }

  /** `list` holds every key of `keys` once and no other. */
  ghost predicate Lists(list: seq<ProcessInfo>, keys: set<Key>) {
    forall k :: Occurrences(list, k) == if k in keys then 1 else 0
  }

  /** What the machine can do: the environment's side of every step. */
  ghost predicate Possible(s: System, step: Step) {
    match step
    case Startup(list) => !s.up && Lists(list, s.alive)
    case Create(p) => s.up && Fresh(s, p.Id())
    case Repeat(p) => s.up && p.Id() in s.alive
    case Delete(p) => s.up && p.Id() in s.alive && p.terminated == s.now
    case Heartbeat => s.up
    case Pass(_) => true
    case Crash => s.up
    case BornUnseen(k) => !s.up && Fresh(s, k)
    case DiedUnseen(k) => !s.up && k in s.alive
  }

  function Run(s: System, steps: seq<Step>): System {
    if steps == [] then s else Next(Run(s, steps[..|steps| - 1]), steps[|steps| - 1])
  }

  ghost predicate Legal(s: System, steps: seq<Step>) {
    steps == [] || (Legal(s, steps[..|steps| - 1]) && Possible(Run(s, steps[..|steps| - 1]), steps[|steps| - 1]))
  }

  predicate UniquePids(keys: set<Key>) {
    forall a, b :: a in keys && b in keys && a.pid == b.pid ==> a == b
  }

  /** Before the first installation: any machine, no history, no settings. */
  predicate Initial(s: System) {
    && s.now > 0 && !s.up && s.downSince <= s.now
    && UniquePids(s.alive) && s.alive !! s.ended.Keys
    && (forall k :: k in s.ended ==> s.ended[k] <= s.now)
    && s.observed == {} && s.tracker == [] && s.rows == map[] && s.lastAlive == None
  }

  /* ---------- what every run keeps ---------- */

  predicate WorldOk(s: System) {
    && s.now > 0 && s.downSince <= s.now
    && UniquePids(s.alive) && s.alive !! s.ended.Keys
    && (forall k :: k in s.ended ==> s.ended[k] <= s.now)
    && (forall k :: k in s.observed ==> k in s.ended && k in s.rows)
    && (forall k :: k in s.rows ==> k in s.alive || k in s.ended)
  }

  predicate HeartbeatOk(s: System) {
    && (s.lastAlive.Some? ==> 0 < s.lastAlive.value <= if s.up then s.now else s.downSince)
    && (s.lastAlive.None? ==> !s.up && s.rows == map[])
  }

  /** The newest entry of the pid is this process. */
  predicate Newest(v: seq<ProcessInfo>, k: Key) {
    var q := OfPid(v, k.pid);
    q != [] && q[|q| - 1].Id() == k
  }

  /** The vector is the stable sort of the table, and every living process is the newest
      entry of its pid. */
  predicate ReplicasOk(v: seq<ProcessInfo>, t: seq<ProcessInfo>, alive: set<Key>) {
    Sorted(v) && v == StableSort(t) && forall k :: k in alive ==> Newest(v, k)
  }

  predicate Inv(s: System) {
    && WorldOk(s) && HeartbeatOk(s)
    && (s.up ==> ReplicasOk(s.tracker, s.table, s.alive) && forall k :: k in s.alive ==> k in s.rows)
  }

  lemma NewestPresent(v: seq<ProcessInfo>, k: Key)
    requires Newest(v, k)
    ensures Present(v, k.pid)
  {
    OfPidNone(v, k.pid);
  }

  /* ---------- lists of keys under the edits ---------- */

  lemma {:induction false} OccurrencesConcat(a: seq<ProcessInfo>, b: seq<ProcessInfo>, k: Key)
    ensures Occurrences(a + b, k) == Occurrences(a, k) + Occurrences(b, k)
  {
    if a == [] {
      assert a + b == b;
    } else {
      assert (a + b)[1..] == a[1..] + b;
      OccurrencesConcat(a[1..], b, k);
    }
  }

  lemma OccurrencesInsertAt(s: seq<ProcessInfo>, i: nat, p: ProcessInfo, k: Key)
    requires i <= |s|
    ensures Occurrences(InsertAt(s, i, p), k) == Occurrences(s, k) + if p.Id() == k then 1 else 0
  {
    OccurrencesConcat(s[..i] + [p], s[i..], k);
    OccurrencesConcat(s[..i], [p], k);
    OccurrencesConcat(s[..i], s[i..], k);
    assert s == s[..i] + s[i..];
  }

  lemma {:induction false} OccursAt(list: seq<ProcessInfo>, k: Key)
    ensures Occurrences(list, k) > 0 <==> exists i :: 0 <= i < |list| && list[i].Id() == k
  {
    if list != [] {
      OccursAt(list[1..], k);
      if i :| 0 < i < |list| && list[i].Id() == k {
        assert list[1..][i - 1].Id() == k;
      }
    }
  }

  lemma InsertLists(list: seq<ProcessInfo>, keys: set<Key>, i: nat, p: ProcessInfo)
    requires Lists(list, keys) && i <= |list| && p.Id() !in keys
    ensures Lists(InsertAt(list, i, p), keys + {p.Id()})
  {
    forall k ensures Occurrences(InsertAt(list, i, p), k) == if k in keys + {p.Id()} then 1 else 0 {
      OccurrencesInsertAt(list, i, p, k);
    }
  }

  lemma EraseLists(list: seq<ProcessInfo>, keys: set<Key>, i: nat)
    requires Lists(list, keys) && i < |list|
    ensures Lists(EraseAt(list, i), keys - {list[i].Id()})
  {
    assert list == InsertAt(EraseAt(list, i), i, list[i]);
    forall k ensures Occurrences(EraseAt(list, i), k) == if k in keys - {list[i].Id()} then 1 else 0 {
      OccurrencesInsertAt(EraseAt(list, i), i, list[i], k);
    }
  }

  /** Sorting keeps the listed keys. */
  lemma {:induction false} SortLists(list: seq<ProcessInfo>, k: Key)
    ensures Occurrences(StableSort(list), k) == Occurrences(list, k)
  {
    if list != [] {
      var init, last := list[..|list| - 1], list[|list| - 1];
      SortLists(init, k);
      assert list == InsertAt(init, |init|, last);
      OccurrencesInsertAt(init, |init|, last, k);
      OccurrencesInsertAt(StableSort(init), UpperBound(StableSort(init), last.pid), last, k);
    }
  }

  /** The erased entry is the deleted process itself, on both tracker platforms. */
  lemma ErasedIsDeleted(v: seq<ProcessInfo>, keys: set<Key>, k: Key)
    requires Sorted(v) && Lists(v, keys) && UniquePids(keys) && k in keys
    ensures Present(v, k.pid)
    ensures LowerBound(v, k.pid) < |v| && v[LowerBound(v, k.pid)].Id() == k
    ensures OfPid(v, k.pid) != [] && OfPid(v, k.pid)[0].created == k.created
    ensures Lists(Erased(v, k.pid), keys - {k})
  {
    OccursAt(v, k);
    LowerBoundOldest(v, k.pid);
    var i := LowerBound(v, k.pid);
    OccursAt(v, v[i].Id());
    EraseLists(v, keys, i);
  }

  /** The listed processes are the only, hence the newest, entries of their pids. */
  lemma ListedNewest(list: seq<ProcessInfo>, keys: set<Key>, k: Key)
    requires Lists(list, keys) && UniquePids(keys) && k in keys
    ensures Newest(list, k)
    ensures forall i :: 0 <= i < |OfPid(list, k.pid)| ==> OfPid(list, k.pid)[i].Id() == k
  {
    OccursAt(list, k);
    OfPidNone(list, k.pid);
    OfPidMembers(list, k.pid);
    var q := OfPid(list, k.pid);
    forall i | 0 <= i < |q| ensures q[i].Id() == k {
      OccursAt(list, q[i].Id());
    }
  }

  /* ---------- one step of the replicas ---------- */

  lemma StartupReplicas(list: seq<ProcessInfo>, alive: set<Key>)
    requires Lists(list, alive) && UniquePids(alive)
    ensures ReplicasOk(StableSort(list), StableSort(list), alive)
  {
    var v := StableSort(list);
    StableSortView(list);
    SortedIsOwnStableSort(v);
    forall k | k in alive ensures Newest(v, k) {
      ListedNewest(list, alive, k);
      assert OfPid(v, k.pid) == OfPid(list, k.pid);
    }
  }

  lemma ReportNewest(v: seq<ProcessInfo>, p: ProcessInfo, k: Key)
    requires Sorted(v) && (k == p.Id() || (k.pid != p.pid && Newest(v, k)))
    ensures Newest(Inserted(v, p), k)
  {
    InsertedView(v, p, k.pid);
  }

  lemma ReportReplicas(v: seq<ProcessInfo>, t: seq<ProcessInfo>, alive: set<Key>, p: ProcessInfo)
    requires ReplicasOk(v, t, alive)
    requires forall k :: k in alive && k.pid == p.pid ==> k == p.Id()
    ensures ReplicasOk(Inserted(v, p), t + [p], alive + {p.Id()})
  {
    CreatedAgrees(v, t, p);
    InsertedView(v, p, p.pid);
    forall k | k in alive + {p.Id()} ensures Newest(Inserted(v, p), k) {
      ReportNewest(v, p, k);
    }
  }

  lemma DeleteReplicas(v: seq<ProcessInfo>, t: seq<ProcessInfo>, alive: set<Key>, p: ProcessInfo)
    requires ReplicasOk(v, t, alive) && UniquePids(alive) && p.Id() in alive
    ensures ReplicasOk(Erased(v, p.pid), WithoutFirst(t, p.pid), alive - {p.Id()})
  {
    NewestPresent(v, p.Id());
    LowerBoundOldest(v, p.pid);
    AboveAllSame(v, t, p.pid);
    HarmlessDeleteAgrees(v, t, p.pid);
    ErasedSorted(v, p.pid);
    forall k | k in alive - {p.Id()} ensures Newest(Erased(v, p.pid), k) {
      ErasedView(v, p.pid, k.pid);
    }
  }

  lemma StartupKeys(rows: Rows, lastAlive: Option<int>, v: seq<ProcessInfo>, k: Key)
    ensures k in rows ==> k in StartupRows(rows, lastAlive, v)
    ensures k in StartupRows(rows, lastAlive, v) ==> k in rows || Occurrences(v, k) > 0
    ensures Occurrences(v, k) > 0 ==> k in StartupRows(rows, lastAlive, v)
  {
    OccursAt(v, k);
    InsertAllAt(if lastAlive.Some? then Repair(rows, lastAlive.value) else rows, v, k);
  }

  lemma StartupKeeps(s: System, list: seq<ProcessInfo>)
    requires Inv(s) && Possible(s, Startup(list))
    ensures Inv(Next(s, Startup(list)))
  {
    StartupReplicas(list, s.alive);
    forall k ensures Occurrences(StableSort(list), k) == Occurrences(list, k) { SortLists(list, k); }
    var rows := Next(s, Startup(list)).rows;
    forall k
      ensures k in s.rows || k in s.alive ==> k in rows
      ensures k in rows ==> k in s.rows || k in s.alive
    {
      StartupKeys(s.rows, s.lastAlive, StableSort(list), k);
    }
  }

  lemma ReportKeeps(s: System, step: Step)
    requires Inv(s) && Possible(s, step) && (step.Create? || step.Repeat?)
    ensures Inv(Next(s, step))
  {
    ReportReplicas(s.tracker, s.table, s.alive, step.process);
    if step.Repeat? { assert s.alive + {step.process.Id()} == s.alive; }
  }

  /** An announced deletion names the pid and the moment of the exit; on Windows the process
      too, on Linux the creation second of the oldest entry of the pid. */
  lemma DeletionAnnounced(s: System, p: ProcessInfo)
    requires Inv(s) && Possible(s, Delete(p))
    ensures OfPid(s.tracker, p.pid) != []
    ensures var created := if s.platform.Windows? then p.created else OfPid(s.tracker, p.pid)[0].created;
      Announced(s, p) == Some(p.(created := created))
  {
    NewestPresent(s.tracker, p.Id());
    LowerBoundOldest(s.tracker, p.pid);
    assert p.(created := p.created) == p;
  }

  lemma DeleteWorld(s: System, p: ProcessInfo, d: ProcessInfo)
    requires WorldOk(s) && HeartbeatOk(s) && s.up && p.Id() in s.alive && p.Id() in s.rows
    ensures WorldOk(Heard(Ended(s, p), d)) && HeartbeatOk(Heard(Ended(s, p), d))
  {
  }

  lemma DeleteKeeps(s: System, p: ProcessInfo)
    requires Inv(s) && Possible(s, Delete(p))
    ensures Inv(Next(s, Delete(p)))
  {
    DeletionAnnounced(s, p);
    var d := Announced(s, p).value;
    var s' := Next(s, Delete(p));
    assert s' == Heard(Ended(s, p), d).(tracker := Erased(s.tracker, p.pid));
    DeleteWorld(s, p, d);
    assert s'.tracker == Erased(s.tracker, p.pid) && s'.table == WithoutFirst(s.table, p.pid);
    DeleteReplicas(s.tracker, s.table, s.alive, p);
  }

  lemma StepKeeps(s: System, step: Step)
    requires Inv(s) && Possible(s, step)
    ensures Inv(Next(s, step))
  {
    match step
    case Startup(list) => StartupKeeps(s, list);
    case Create(_) => ReportKeeps(s, step);
    case Repeat(_) => ReportKeeps(s, step);
    case Delete(p) => DeleteKeeps(s, p);
    case _ =>
  }

  lemma {:induction false} RunKeeps(s: System, steps: seq<Step>)
    requires Initial(s) && Legal(s, steps)
    ensures Inv(Run(s, steps)) && Run(s, steps).platform == s.platform
  {
    if steps != [] {
      RunKeeps(s, steps[..|steps| - 1]);
      StepKeeps(Run(s, steps[..|steps| - 1]), steps[|steps| - 1]);
    }
  }

  /** Whenever the application runs, on either platform, repeated reports included: the
      vector is the stable sort of the table, every living process is listed, as the newest
      entry of its pid, and has a row. */
  lemma ReplicasAgreeAlways(s: System, steps: seq<Step>)
    requires Initial(s) && Legal(s, steps) && Run(s, steps).up
    ensures var r := Run(s, steps);
      && r.tracker == StableSort(r.table)
      && forall k :: k in r.alive ==> Present(r.tracker, k.pid) && Newest(r.tracker, k) && k in r.rows
  {
    RunKeeps(s, steps);
    var r := Run(s, steps);
    forall k | k in r.alive ensures Present(r.tracker, k.pid) { NewestPresent(r.tracker, k); }
  }

  /* ---------- truth ---------- */

  /** The process is still there, or ended no earlier than `t`. */
  predicate LastedUntil(s: System, k: Key, t: int) {
    k in s.alive || (k in s.ended && s.ended[k] >= t)
  }

  /** Row `k` tells the truth. */
  predicate Truthful(s: System, k: Key)
    requires k in s.rows
  {
    var t := s.rows[k].termination;
    if t > 0 then k in s.observed && k in s.ended && s.ended[k] == t
    else k !in s.observed
         && if t < 0 then -t <= s.now && LastedUntil(s, k, -t)
            else if s.up then k in s.alive
            else LastedUntil(s, k, s.downSince)
  }

  predicate AllTruthful(s: System) {
    forall k :: k in s.rows ==> Truthful(s, k)
  }

  /** What a startup makes of one row, or of one process without a row. */
  lemma StartupRow(s: System, v: seq<ProcessInfo>, k: Key)
    requires WorldOk(s) && HeartbeatOk(s) && !s.up && Lists(v, s.alive)
    requires k in s.rows ==> Truthful(s, k)
    ensures var rows := StartupRows(s.rows, s.lastAlive, v);
      k in rows ==> Truthful(s.(up := true, rows := rows), k)
  {
    OccursAt(v, k);
    if s.lastAlive.Some? {
      StartupAt(s.rows, s.lastAlive.value, v, k);
      InsertAllAt(Repair(s.rows, s.lastAlive.value), v, k);
    } else {
      InsertAllAt(s.rows, v, k);
    }
  }

  lemma StartupTruthful(s: System, list: seq<ProcessInfo>)
    requires Inv(s) && AllTruthful(s) && Possible(s, Startup(list))
    ensures AllTruthful(Next(s, Startup(list)))
  {
    var s', v := Next(s, Startup(list)), StableSort(list);
    forall k ensures Occurrences(v, k) == Occurrences(list, k) { SortLists(list, k); }
    forall k | k in s'.rows ensures Truthful(s', k) {
      if k in s.rows { assert Truthful(s, k); }
      StartupRow(s, v, k);
      assert Truthful(s.(up := true, rows := s'.rows), k) == Truthful(s', k);
    }
  }

  /** An exit stamps the row of the process that ended: always on Windows, and on Linux when
      the oldest entry of its pid has its creation second. */
  predicate FindsItself(s: System, p: ProcessInfo) {
    s.platform.Windows? || (OfPid(s.tracker, p.pid) != [] && OfPid(s.tracker, p.pid)[0].created == p.created)
  }

  /** A reported exit leaves every row truthful exactly when it finds itself. */
  lemma DeleteTruthfulIff(s: System, p: ProcessInfo)
    requires Inv(s) && AllTruthful(s) && Possible(s, Delete(p))
    ensures AllTruthful(Next(s, Delete(p))) <==> FindsItself(s, p)
  {
    var s' := Next(s, Delete(p));
    DeletionAnnounced(s, p);
    assert Truthful(s, p.Id());
    if FindsItself(s, p) {
      assert Announced(s, p) == Some(p);
      forall k | k in s'.rows ensures Truthful(s', k) { assert Truthful(s, k); }
    } else {
      assert s'.rows[p.Id()] == s.rows[p.Id()] && !Truthful(s', p.Id());
    }
  }

  lemma OtherTruthful(s: System, step: Step)
    requires Inv(s) && AllTruthful(s) && Possible(s, step) && !step.Delete?
    ensures AllTruthful(Next(s, step))
  {
    if step.Startup? {
      StartupTruthful(s, step.list);
    } else {
      var s' := Next(s, step);
      forall k | k in s'.rows ensures Truthful(s', k) {
        if k in s.rows { assert Truthful(s, k); }
      }
    }
  }

  /* ---------- the same from the event stream ---------- */

  function ReportsAfter(before: seq<ProcessInfo>, step: Step, pid: nat): seq<ProcessInfo> {
    match step
    case Startup(list) => OfPid(list, pid)
    case Create(p) => if p.pid == pid then before + [p] else before
    case Repeat(p) => if p.pid == pid then before + [p] else before
    case Crash => []
    case _ => before
  }

  function ExitsAfter(before: nat, step: Step, pid: nat): nat {
    match step
    case Startup(_) => 0
    case Delete(p) => if p.pid == pid then before + 1 else before
    case Crash => 0
    case _ => before
  }

  /** Everything this session reported of a pid, from its startup list on. */
  function Reports(steps: seq<Step>, pid: nat): seq<ProcessInfo> {
    if steps == [] then [] else ReportsAfter(Reports(steps[..|steps| - 1], pid), steps[|steps| - 1], pid)
  }

  /** How many exits of the pid this session reported. */
  function Exits(steps: seq<Step>, pid: nat): nat {
    if steps == [] then 0 else ExitsAfter(Exits(steps[..|steps| - 1], pid), steps[|steps| - 1], pid)
  }

  /** The n-th exit of a pid in a session belongs to the n-th report of that pid. */
  predicate MeetsItsReport(steps: seq<Step>, p: ProcessInfo) {
    var n := Exits(steps, p.pid);
    n < |Reports(steps, p.pid)| && Reports(steps, p.pid)[n].created == p.created
  }

  /** Every reported exit of the stream meets a report with its own creation second. */
  predicate ExitsMeetReports(platform: Platform, steps: seq<Step>) {
    platform.Windows? || steps == []
    || (ExitsMeetReports(platform, steps[..|steps| - 1])
        && (steps[|steps| - 1].Delete? ==> MeetsItsReport(steps[..|steps| - 1], steps[|steps| - 1].process)))
  }

  lemma QueueGrows<T>(q: seq<T>, n: nat, x: T)
    requires n <= |q|
    ensures (q + [x])[n..] == q[n..] + [x]
  {
  }

  lemma QueueReported(v: seq<ProcessInfo>, p: ProcessInfo, pid: nat, q: seq<ProcessInfo>, n: nat)
    requires Sorted(v) && n <= |q| && OfPid(v, pid) == q[n..]
    ensures OfPid(Inserted(v, p), pid) == (if p.pid == pid then q + [p] else q)[n..]
  {
    InsertedView(v, p, pid);
    QueueGrows(q, n, p);
  }

  lemma QueueExited(v: seq<ProcessInfo>, gone: nat, pid: nat, q: seq<ProcessInfo>, n: nat)
    requires Sorted(v) && Present(v, gone) && n <= |q| && OfPid(v, pid) == q[n..]
    ensures var n' := if gone == pid then n + 1 else n;
      n' <= |q| && OfPid(Erased(v, gone), pid) == q[n'..]
  {
    ErasedView(v, gone, pid);
    if gone == pid { assert q[n..][1..] == q[n + 1..]; }
  }

  lemma QueueAfter(s: System, step: Step, pid: nat, q: seq<ProcessInfo>, n: nat)
    requires Inv(s) && Possible(s, step)
    requires n <= |q| && OfPid(s.tracker, pid) == q[n..]
    ensures var q', n' := ReportsAfter(q, step, pid), ExitsAfter(n, step, pid);
      n' <= |q'| && OfPid(Next(s, step).tracker, pid) == q'[n'..]
  {
    match step
    case Startup(list) => StableSortView(list);
    case Create(p) => QueueReported(s.tracker, p, pid, q, n);
    case Repeat(p) => QueueReported(s.tracker, p, pid, q, n);
    case Delete(p) =>
      NewestPresent(s.tracker, p.Id());
      QueueExited(s.tracker, p.pid, pid, q, n);
    case _ =>
  }

  /** The tracker's entries of a pid are the session's reports of it, less the oldest ones,
      one for each exit. */
  lemma {:induction false} TrackerIsQueue(s: System, steps: seq<Step>, pid: nat)
    requires Initial(s) && Legal(s, steps)
    ensures Exits(steps, pid) <= |Reports(steps, pid)|
    ensures OfPid(Run(s, steps).tracker, pid) == Reports(steps, pid)[Exits(steps, pid)..]
  {
    if steps != [] {
      var init, last := steps[..|steps| - 1], steps[|steps| - 1];
      TrackerIsQueue(s, init, pid);
      RunKeeps(s, init);
      QueueAfter(Run(s, init), last, pid, Reports(init, pid), Exits(init, pid));
    }
  }

  lemma FindsIffMeets(s: System, steps: seq<Step>, p: ProcessInfo)
    requires Initial(s) && Legal(s, steps) && s.platform.Linux?
    ensures FindsItself(Run(s, steps), p) <==> MeetsItsReport(steps, p)
  {
    TrackerIsQueue(s, steps, p.pid);
    RunKeeps(s, steps);
  }

  predicate TruthfulThroughout(s: System, steps: seq<Step>) {
    AllTruthful(Run(s, steps)) && (steps == [] || TruthfulThroughout(s, steps[..|steps| - 1]))
  }

  /** Over every run of sessions, crashes, restarts and repeated reports: all rows are
      truthful throughout exactly when the platform is Windows, or every exit meets a report
      with its own creation second, the n-th exit of a pid in a session its n-th report. */
  lemma {:induction false} TruthfulIff(s: System, steps: seq<Step>)
    requires Initial(s) && Legal(s, steps)
    ensures TruthfulThroughout(s, steps) <==> ExitsMeetReports(s.platform, steps)
  {
    if steps != [] {
      var init, last := steps[..|steps| - 1], steps[|steps| - 1];
      TruthfulIff(s, init);
      if TruthfulThroughout(s, init) {
        var r := Run(s, init);
        RunKeeps(s, init);
        if last.Delete? {
          DeleteTruthfulIff(r, last.process);
          if s.platform.Linux? { FindsIffMeets(s, init, last.process); }
        } else {
          OtherTruthful(r, last);
        }
      }
    }
  }

  /** A positive time is the second of an observed exit, and every observed exit has one; -L
      means still alive or ended no earlier than L; 0 means alive and tracked while the
      application runs, and otherwise still alive when it last went down. */
  lemma HistoryTellsTheTruth(s: System, steps: seq<Step>, k: Key)
    requires Initial(s) && Legal(s, steps) && ExitsMeetReports(s.platform, steps)
    ensures var r := Run(s, steps);
      && (k in r.observed ==> k in r.rows)
      && (k in r.rows ==>
          var t := r.rows[k].termination;
          && (t > 0 <==> k in r.observed)
          && (t > 0 ==> k in r.ended && r.ended[k] == t)
          && (t < 0 ==> k in r.alive || (k in r.ended && r.ended[k] >= -t))
          && (t == 0 && r.up ==> k in r.alive && Newest(r.tracker, k))
          && (t == 0 && !r.up ==> k in r.alive || (k in r.ended && r.ended[k] >= r.downSince)))
  {
    RunKeeps(s, steps);
    TruthfulIff(s, steps);
    var r := Run(s, steps);
    if k in r.rows { assert Truthful(r, k); }
  }

  lemma StartupKeepsRow(rows: Rows, lastAlive: Option<int>, v: seq<ProcessInfo>, k: Key)
    requires k in rows
    ensures var after := StartupRows(rows, lastAlive, v);
      k in after && after[k].details == rows[k].details && (rows[k].termination != 0 ==> after[k] == rows[k])
  {
    InsertAllAt(if lastAlive.Some? then Repair(rows, lastAlive.value) else rows, v, k);
  }

  lemma DeleteKeepsRow(s: System, p: ProcessInfo, k: Key)
    requires Inv(s) && Possible(s, Delete(p)) && k in s.rows
    ensures var after := Next(s, Delete(p)).rows;
      && k in after && after[k].details == s.rows[k].details
      && (FindsItself(s, p) && k !in s.alive ==> after[k] == s.rows[k])
  {
    DeletionAnnounced(s, p);
  }

  lemma StepKeepsRow(s: System, step: Step, k: Key)
    requires Inv(s) && Possible(s, step) && k in s.rows
    ensures k in Next(s, step).rows && Next(s, step).rows[k].details == s.rows[k].details
    ensures Truthful(s, k) && (step.Delete? ==> FindsItself(s, step.process)) && s.rows[k].termination > 0 ==>
              Next(s, step).rows[k] == s.rows[k]
  {
    match step
    case Startup(list) => StartupKeepsRow(s.rows, s.lastAlive, StableSort(list), k);
    case Delete(p) => DeleteKeepsRow(s, p, k);
    case _ =>
  }

  /** Rows and their other columns persist in every run. An exact termination time is final
      when every exit meets its report: the key cannot be used again. */
  lemma {:induction false} ExactIsFinal(s: System, steps: seq<Step>, later: seq<Step>, k: Key)
    requires Initial(s) && Legal(s, steps + later) && k in Run(s, steps).rows
    ensures var before, after := Run(s, steps).rows, Run(s, steps + later).rows;
      && k in after && after[k].details == before[k].details
      && (ExitsMeetReports(s.platform, steps + later) && before[k].termination > 0 ==> after[k] == before[k])
    decreases later
  {
    if later == [] {
      assert steps + later == steps;
    } else {
      var all, init, last := steps + later, later[..|later| - 1], later[|later| - 1];
      assert all[..|all| - 1] == steps + init;
      ExactIsFinal(s, steps, init, k);
      RunKeeps(s, steps + init);
      StepKeepsRow(Run(s, steps + init), last, k);
      if ExitsMeetReports(s.platform, all) {
        TruthfulIff(s, steps + init);
        if s.platform.Linux? && last.Delete? { FindsIffMeets(s, steps + init, last.process); }
      }
    }
  }

  /* ---------- when exits meet their reports ---------- */

  predicate NoRepeats(steps: seq<Step>) {
    forall i :: 0 <= i < |steps| ==> !steps[i].Repeat?
  }

  /** When no process is reported twice, vector and table list exactly the living, once each,
      and every exit meets its report. */
  lemma {:induction false} ReportedOnce(s: System, steps: seq<Step>)
    requires Initial(s) && Legal(s, steps) && NoRepeats(steps)
    ensures Run(s, steps).up ==> Lists(Run(s, steps).tracker, Run(s, steps).alive)
    ensures ExitsMeetReports(s.platform, steps)
  {
    if steps != [] {
      var init, last := steps[..|steps| - 1], steps[|steps| - 1];
      ReportedOnce(s, init);
      RunKeeps(s, init);
      var r := Run(s, init);
      match last {
        case Startup(list) =>
          forall k ensures Occurrences(StableSort(list), k) == Occurrences(list, k) { SortLists(list, k); }
        case Create(p) => InsertLists(r.tracker, r.alive, UpperBound(r.tracker, p.pid), p);
        case Delete(p) =>
          ErasedIsDeleted(r.tracker, r.alive, p.Id());
          if s.platform.Linux? { FindsIffMeets(s, init, p); }
        case _ =>
      }
    }
  }

  /** No process is born with a pid its session has reported before. */
  predicate NoReuse(steps: seq<Step>) {
    steps == []
    || (NoReuse(steps[..|steps| - 1])
        && (steps[|steps| - 1].Create? ==> Reports(steps[..|steps| - 1], steps[|steps| - 1].process.pid) == []))
  }

  predicate OneSecond(q: seq<ProcessInfo>) {
    forall i, j :: 0 <= i < j < |q| ==> q[i].created == q[j].created
  }

  /** When the entries of a living process are the reports `q` less the `n` oldest, the
      newest report is of that process. */
  lemma NewestOfSuffix(list: seq<ProcessInfo>, k: Key, q: seq<ProcessInfo>, n: nat)
    requires Newest(list, k) && n <= |q| && OfPid(list, k.pid) == q[n..]
    ensures n < |q| && q[|q| - 1].created == k.created
  {
  }

  lemma NewestReport(s: System, steps: seq<Step>, k: Key)
    requires Initial(s) && Legal(s, steps) && Run(s, steps).up && k in Run(s, steps).alive
    ensures var q := Reports(steps, k.pid);
      Exits(steps, k.pid) < |q| && q[|q| - 1].created == k.created
  {
    var v := Run(s, steps).tracker;
    assert Newest(v, k) by { RunKeeps(s, steps); }
    TrackerIsQueue(s, steps, k.pid);
    NewestOfSuffix(v, k, Reports(steps, k.pid), Exits(steps, k.pid));
  }

  lemma ListedOneSecond(list: seq<ProcessInfo>, alive: set<Key>, pid: nat)
    requires Lists(list, alive) && UniquePids(alive)
    ensures OneSecond(OfPid(list, pid))
  {
    var q := OfPid(list, pid);
    if q != [] {
      OfPidMembers(list, pid);
      OccursAt(list, q[0].Id());
      ListedNewest(list, alive, q[0].Id());
    }
  }

  lemma {:induction false} ReportsOneSecond(s: System, steps: seq<Step>, pid: nat)
    requires Initial(s) && Legal(s, steps) && NoReuse(steps)
    ensures OneSecond(Reports(steps, pid))
  {
    if steps != [] {
      var init, last := steps[..|steps| - 1], steps[|steps| - 1];
      ReportsOneSecond(s, init, pid);
      match last {
        case Startup(list) =>
          assert UniquePids(Run(s, init).alive) by { RunKeeps(s, init); }
          ListedOneSecond(list, Run(s, init).alive, pid);
        case Repeat(p) => NewestReport(s, init, p.Id());
        case _ =>
      }
    }
  }

  /** Repeated reports do no harm while no session sees a pid used again. */
  lemma {:induction false} NoReuseSuffices(s: System, steps: seq<Step>)
    requires Initial(s) && Legal(s, steps) && NoReuse(steps)
    ensures ExitsMeetReports(s.platform, steps)
  {
    if steps != [] {
      var init, last := steps[..|steps| - 1], steps[|steps| - 1];
      NoReuseSuffices(s, init);
      if last.Delete? {
        NewestReport(s, init, last.process.Id());
        ReportsOneSecond(s, init, last.process.pid);
      }
    }
  }

  /** Whenever the application runs and exits have met their reports: the vector is the stable
      sort of the table, every living process is listed and has a row without an exact time,
      and every running row is one of them. When none is reported twice, vector and table
      list exactly the living, once each. */
  lemma ReplicasAndHistoryAgree(s: System, steps: seq<Step>)
    requires Initial(s) && Legal(s, steps) && ExitsMeetReports(s.platform, steps) && Run(s, steps).up
    ensures var r := Run(s, steps);
      && r.tracker == StableSort(r.table)
      && (forall k :: k in r.alive ==> Newest(r.tracker, k) && k in r.rows && r.rows[k].termination <= 0)
      && (forall k :: k in r.rows && r.rows[k].termination == 0 ==> k in r.alive)
      && (NoRepeats(steps) ==> Lists(r.tracker, r.alive) && Lists(r.table, r.alive))
  {
    var r := Run(s, steps);
    RunKeeps(s, steps);
    TruthfulIff(s, steps);
    forall k | k in r.rows ensures k in r.alive ==> r.rows[k].termination <= 0 { assert Truthful(r, k); }
    forall k | k in r.rows && r.rows[k].termination == 0 ensures k in r.alive { assert Truthful(r, k); }
    if NoRepeats(steps) {
      ReportedOnce(s, steps);
      forall k ensures Occurrences(r.table, k) == Occurrences(r.tracker, k) { SortLists(r.table, k); }
    }
  }
}

/** The running application: the objects that receive each event, proved to take the steps
    of module HistoryRuns on the state they hold together. */
module Application {
  import opened Options
  import opened Processes
  import opened History
  import opened HistoryRuns
  import opened ProcessTracking
  import opened TableModel

  ghost predicate Represents(s: System, tracker: ProcessTracker, table: ProcessTableModel, store: HistoryStore)
    reads tracker, table, store
  {
    && s.up && s.platform.Windows? && tracker.Valid() && table.Valid()
    && s.tracker == tracker.processes && s.table == table.processes
    && s.rows == store.rows && s.lastAlive == store.lastAlive
  }

  ghost predicate LinuxRepresents(s: System, tracker: LinuxProcessTracker, table: ProcessTableModel, store: HistoryStore)
    reads tracker, table, store
  {
    && s.up && s.platform.Linux? && tracker.Valid() && table.Valid()
    && s.tracker == tracker.processes && s.table == table.processes
    && s.rows == store.rows && s.lastAlive == store.lastAlive
  }

  /** Tracker, history connection and table model, in the order main creates them. */
  method Launch(store: HistoryStore, list: seq<ProcessInfo>, now: int, ghost s: System)
    returns (tracker: ProcessTracker, table: ProcessTableModel)
    requires !s.up && s.platform.Windows?
    requires s.rows == store.rows && s.lastAlive == store.lastAlive && s.now == now
    modifies store
    ensures fresh(tracker) && fresh(table) && tracker.CountExact()
    ensures Represents(Next(s, Startup(list)), tracker, table, store)
  {
    tracker := new ProcessTracker(list);
    store.Startup(now, tracker.processes);
    table := new ProcessTableModel(tracker.processes);
  }

  method LinuxLaunch(store: HistoryStore, list: seq<ProcessInfo>, now: int, ghost s: System)
    returns (tracker: LinuxProcessTracker, table: ProcessTableModel)
    requires !s.up && s.platform.Linux?
    requires s.rows == store.rows && s.lastAlive == store.lastAlive && s.now == now
    modifies store
    ensures fresh(tracker) && fresh(table)
    ensures LinuxRepresents(Next(s, Startup(list)), tracker, table, store)
  {
    tracker := new LinuxProcessTracker(list);
    store.Startup(now, tracker.processes);
    table := new ProcessTableModel(tracker.processes);
  }

  method OnCreated(tracker: ProcessTracker, table: ProcessTableModel, store: HistoryStore,
                   process: ProcessInfo, ghost s: System)
    requires Represents(s, tracker, table, store)
    modifies tracker, table, store
    ensures Represents(Next(s, Create(process)), tracker, table, store)
    ensures Represents(Next(s, Repeat(process)), tracker, table, store)
  {
    tracker.ProcessCreated(process);
    store.ProcessCreated(process);
    table.AddNewProcess(process);
  }

  /** A fork or an exec of a process that /proc knows as `found`. */
  method LinuxOnCreated(tracker: LinuxProcessTracker, table: ProcessTableModel, store: HistoryStore,
                        process: ProcessInfo, found: ProcessInfo, ghost s: System)
    requires LinuxRepresents(s, tracker, table, store) && found.pid == process.pid
    modifies tracker, table, store
    ensures LinuxRepresents(Next(s, Create(found)), tracker, table, store)
    ensures LinuxRepresents(Next(s, Repeat(found)), tracker, table, store)
  {
    var emitted := tracker.ProcessCreated(process, Some(found));
    store.ProcessCreated(emitted.value);
    table.AddNewProcess(emitted.value);
  }

  method OnDeleted(tracker: ProcessTracker, table: ProcessTableModel, store: HistoryStore,
                   process: ProcessInfo, ghost s: System)
    requires Represents(s, tracker, table, store)
    modifies tracker, table, store
    ensures Represents(Next(s, Delete(process)), tracker, table, store)
  {
    tracker.ProcessDeleted(process);
    store.ProcessDeleted(process);
    table.RemoveProcess(process);
  }

  /** The observer knows the pid and the moment only: `process` is what it sends, `ended` the
      process that really ended. */
  method LinuxOnDeleted(tracker: LinuxProcessTracker, table: ProcessTableModel, store: HistoryStore,
                        process: ProcessInfo, ghost ended: ProcessInfo, ghost s: System)
    requires LinuxRepresents(s, tracker, table, store)
    requires process.pid == ended.pid && process.terminated == ended.terminated
    modifies tracker, table, store
    ensures LinuxRepresents(Next(s, Delete(ended)), tracker, table, store)
  {
    var emitted := tracker.ProcessDeleted(process);
    if emitted.Some? {
      store.ProcessDeleted(emitted.value);
      table.RemoveProcess(emitted.value);
    }
  }

  method OnHeartbeat(tracker: ProcessTracker, table: ProcessTableModel, store: HistoryStore,
                     now: int, ghost s: System)
    requires Represents(s, tracker, table, store) && s.now == now
    modifies store
    ensures Represents(Next(s, Heartbeat), tracker, table, store)
  {
    store.SetLastAlive(now);
  }
}

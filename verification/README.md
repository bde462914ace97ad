# DuneCat: a model and its proofs

DuneCat watches the processes of a machine and keeps one fact, which processes exist and
when they ended, in three places: a vector sorted by pid, the live table in order of
arrival, and a history table in a database that outlives the application. It also speaks two
binary protocols, STUN and the UDP tracker protocol, parses `/proc/[pid]/stat`, and shares
database connections between handles by counting. This project models these parts in Dafny
and proves what they promise; where the code does not keep a promise, it proves exactly when
it does.

| module | models |
|---|---|
| `Processes`, `ProcessTracking` | records, `std::lower_bound` and `std::upper_bound` positions, the two trackers |
| `TableModel`, `Replicas` | the live table, its row announcements, and its agreement with the vector |
| `History`, `HistoryRuns`, `Labels` | the history table, all sessions and crashes on both platforms, the displayed labels |
| `HistoryFailures`, `LinuxHistory` | how the history becomes false: a torn startup, and a pid used again on Linux |
| `Application` | the objects of a running session, shown to take the steps of `HistoryRuns` |
| `Connections`, `DatabaseManager` | the shared connection count, as values and as handle objects |
| `ProcStat` | the parser of `/proc/[pid]/stat` |
| `Integers`, `Bytes` | narrowing to `int`; byte order and exclusive or |
| `Stun`, `StunSession` | STUN replies, STUN retransmission |
| `UdpTracker` | BEP 15 packets and the peer list |

Where the source changes an object in place, the model is a class, and each method is proved
equal to a function on values; the lemmas about those functions carry the results over whole
runs. `std::upper_bound` and `std::lower_bound` are written out as the usual bisection.

## What is assumed

- In `HistoryRuns` the world is part of the state: `alive` and `ended` are the truth. A key
  (pid, creation second) is never reused and no two living processes share a pid; a birth or
  an exit that happens while the application runs is reported at that moment, an exit with
  the current second; a birth or an exec is found in `/proc` when it is reported; startup
  lists exactly the living processes; the clock is positive and never goes back; settings and
  rows reach the disk when written.
- A living process may be reported again any number of times, as Linux does at an exec. What
  follows for the history is proved exactly: `TruthfulIff`.
- Startup is one step in `HistoryRuns`; what becomes of one that dies half way is
  `TornStartupIff`.
- `ReplicasAgree` and the lemmas it rests on assume none of this: `AgreementIff` tells which
  deletions are harmless.
- What the machine, the driver or the network answers is a parameter: process lists, file
  contents, whether a database opens, received datagrams, random numbers, the clock.

## What turned out otherwise than intended

- A deletion of a pid that is not listed, but lies below a listed one, erases somebody
  else's entry: the handlers do not compare the element `lower_bound` returns
  (`ErasedIsWithoutFirst`, `StepAgreesIff`, `UnlistedDeleteDiverges`).
- On Linux a process that forked and executed leaves an entry behind; when its pid is used
  again, the exit of the new process overwrites the exact time of the old one, and the new
  one stays "running" (`ForkExecSpoilsReuse`, `ReuseFails`). The history is true throughout
  exactly when the n-th exit of each pid in a session belongs to the n-th report of that pid
  (`TruthfulIff`); it is so when nothing is reported twice (`ReportedOnce`) and when no session
  sees a pid used again (`NoReuseSuffices`).
- `LastAlive` is overwritten before the repair that needs it, so after a torn startup rows can
  say "after" a second the process did not see (`TornStartupIff`, `TornRun`).
- Labels are wrong for stamps beyond 32 bits (`ShownIsMeaning`).
- `connect` and the constructor look an existing connection up with
  `QSqlDatabase::database`, which opens it; it is then open without an open handle
  (`StaysExactIff`, `LookupOpensIdle`). `connect` and `operator=` on an open handle leave its
  count behind (`DisciplineIsNeeded`). With more than 128 open handles the 8-bit count
  fails (`EightBitClose`).
- The count of the Windows tracker is overwritten by `get_process_count` once it is 0
  (`ProcessTracker.GetProcessCount`).
- The scan of a stat line fails on unbalanced names (`ScanRecoversIff`); the name read from
  the comm file, and the last field, keep their newline (`PrintThenParse`).
- The STUN timeout would overflow for limits above 536870536; the code's 38000 is far below
  (`TimeoutsFit`, `TimeoutsOverflow`).
- The STUN loop skips no padding (`PaddedReadIff`), the port of XOR-MAPPED-ADDRESS is never
  decoded (`ResponseUnderstood`), and the cookie in the request is the standard's only on
  big-endian hosts (`RequestCookieIff`).
- The peer loop never ends for datagrams beyond 1550 bytes (`LoopEndsIff`,
  `PeersSurviveIff`). The model answers these with `Endless`.

What the source leaves undefined is an outcome of its own: a slice or index past its end is
`OutOfRange` or `Overrun` in `ProcStat` and `Undefined` in `Stun`, and negating the least int
is `Undefined` in `Labels`. A STUN session that meets one emits nothing and sends nothing
more.

## Model

| member | source | states |
|---|---|---|
| Processes.LowerBound | src/DuneCat_Core/windows/processtracker.cpp:244-245 | the first position whose pid is not below the given one |
| Processes.UpperBound | src/DuneCat_Core/windows/processtracker.cpp:236-237 | the first position whose pid is above the given one |
| Processes.InsertedView | src/DuneCat_Core/windows/processtracker.cpp:232-239 | a creation keeps the vector sorted, puts the entry behind all others of its pid, and leaves other pids alone |
| Processes.ErasedView | src/DuneCat_Core/windows/processtracker.cpp:241-253 | a deletion of a listed pid keeps the vector sorted and removes the oldest entry of that pid only |
| Processes.ErasedSorted | src/DuneCat_Core/windows/processtracker.cpp:241-253 | any deletion keeps the vector sorted |
| Processes.ErasedIsWithoutFirst | src/DuneCat_Core/windows/processtracker.cpp:244-251 | a deletion is "remove one entry of this pid, or nothing" exactly when the pid is listed or above all listed pids |
| Processes.WithoutFirstView | src/DuneCat_App/processtablemodel.cpp:115-125 | the table removes the oldest row of a pid, or nothing |
| Processes.LowerBoundOldest | src/DuneCat_Core/linux/processtracker.cpp:297-308 | the element found for a listed pid is its oldest entry |
| Processes.StableSortView | src/DuneCat_Core/windows/processtracker.cpp:30 | the reference sort is sorted and keeps the order within each pid |
| Processes.IsStableSort | src/DuneCat_Core/windows/processtracker.cpp:30 | a sorted list is the stable sort of another exactly when each pid has the same entries in the same order |
| ProcessTracking.UpperBoundSearch | src/DuneCat_Core/windows/processtracker.cpp:236-237 | bisection finds the upper bound of a sorted vector |
| ProcessTracking.LowerBoundSearch | src/DuneCat_Core/windows/processtracker.cpp:244-245 | bisection finds the lower bound of a sorted vector |
| ProcessTracking.ProcessTracker.constructor | src/DuneCat_Core/windows/processtracker.cpp:20-57 | the gathered list is sorted and the count is its length |
| ProcessTracking.ProcessTracker.ProcessCreated | src/DuneCat_Core/windows/processtracker.cpp:232-239 | insertion at upper_bound; vector stays sorted, count stays exact |
| ProcessTracking.ProcessTracker.ProcessDeleted | src/DuneCat_Core/windows/processtracker.cpp:241-253 | erasure at lower_bound or nothing at the end; vector stays sorted, count stays exact also for absent pids |
| ProcessTracking.ProcessTracker.GetProcessCount | src/DuneCat_Core/windows/processtracker.cpp:60-95 | returns the count narrowed to an int; keeps the count exact exactly when it was not 0, or the system reports nothing |
| ProcessTracking.LinuxProcessTracker.constructor | src/DuneCat_Core/linux/processtracker.cpp:206-214 | the gathered list is sorted |
| ProcessTracking.LinuxProcessTracker.ProcessCreated | src/DuneCat_Core/linux/processtracker.cpp:281-292 | inserts and announces what /proc tells, nothing when the process is gone |
| ProcessTracking.LinuxProcessTracker.ProcessDeleted | src/DuneCat_Core/linux/processtracker.cpp:294-310 | erases at lower_bound and announces the deletion with that entry's creation time |
| ProcessTracking.LinuxDeletionIff | src/DuneCat_Core/linux/processtracker.cpp:297-309 | a deletion is announced for every pid, listed or not, that is not above all listed ones, with the creation time of the first entry not below it |
| TableModel.ProcessTableModel.constructor | src/DuneCat_App/processtablemodel.cpp:7-15 | the rows are a copy of the tracker's vector |
| TableModel.ProcessTableModel.AddNewProcess | src/DuneCat_App/processtablemodel.cpp:108-113 | appends a row and announces it at that place; a following view stays equal |
| TableModel.ProcessTableModel.RemoveProcess | src/DuneCat_App/processtablemodel.cpp:115-125 | removes and announces the first row of the pid, or does neither |
| TableModel.ViewHoldsRows | src/DuneCat_App/processtablemodel.cpp:108-125 | a view that follows every announcement holds exactly the rows after any events |
| Replicas.TrackerRunSorted | src/DuneCat_Core/windows/processtracker.cpp:232-253 | both handlers keep the vector sorted over every sequence of events, harmless or not |
| Replicas.StepAgreesIff | src/DuneCat_Core/windows/processtracker.cpp:232-253 | one event keeps "vector is the stable sort of the table" exactly when it is harmless |
| Replicas.AgreementIff | src/DuneCat_Core/windows/processtracker.cpp:232-253 | vector and table agree after every event of a run exactly when all its deletions are harmless |
| Replicas.ReplicasAgree | src/DuneCat_App/processtablemodel.cpp:7-15 | from any sorted vector the table copied, repeated pids included, the vector stays the stable sort of the table |
| Replicas.UnlistedDeleteDiverges | src/DuneCat_Core/windows/processtracker.cpp:244-251 | a deletion of an unlisted lower pid empties the vector and not the table |
| Replicas.EntriesAreQueues | src/DuneCat_Core/linux/processtracker.cpp:281-310 | over any run, each pid's entries are those at the start, then those created, less as many of the oldest as were deleted |
| History.HistoryStore.Insert | src/DuneCat_App/main.cpp:113-115 | INSERT OR IGNORE under the unique index: a key that has a row keeps it |
| History.HistoryStore.Startup | src/DuneCat_App/main.cpp:99-157 | repairs running rows from the previous LastAlive, if any, stores the new one, and inserts every tracked process |
| History.HistoryStore.ProcessCreated | src/DuneCat_App/main.cpp:161-177 | inserts the created process as running unless its key has a row |
| History.HistoryStore.ProcessDeleted | src/DuneCat_App/main.cpp:178-188 | stamps the row of the key, and no other |
| History.HistoryStore.SetLastAlive | src/DuneCat_App/settings.cpp:78-83 | the heartbeat stores the current second |
| History.InsertAllAt | src/DuneCat_App/main.cpp:135-150 | the insertion loop adds exactly the missing keys, as running, each from its first record |
| History.StartupAt | src/DuneCat_App/main.cpp:99-157 | after startup no old row is running, and the running rows are exactly the listed processes that had no row |
| History.FirstStartupAt | src/DuneCat_App/main.cpp:99-157 | without a LastAlive no row changes, and exactly the listed processes without a row get a running one |
| History.UpdateTouchesOne | src/DuneCat_App/main.cpp:122-123 | a deletion sets the time of its key's row, touches no other key and makes no row |
| History.RowsPersist | src/DuneCat_App/main.cpp:93-125 | under any statements a row stays, its other columns stay, and a nonzero time stays until its key is deleted |
| History.LastUpdateWins | src/DuneCat_App/main.cpp:122-123 | after any statements the last deletion of a key decides its time |
| HistoryRuns.ErasedIsDeleted | src/DuneCat_Core/linux/processtracker.cpp:294-310 | when each living process is listed once, the erased entry is the deleted process, so both trackers name the same key |
| HistoryRuns.StepKeeps | src/DuneCat_App/main.cpp:62-190 | every step on either platform, repeated reports included, keeps: vector sorted and the stable sort of the table, each living process the newest entry of its pid and owner of a row, and a heartbeat no later than the session |
| HistoryRuns.ReplicasAgreeAlways | src/DuneCat_Core/linux/processtracker.cpp:281-310 | in every run, repeated reports and mistaken stamps included: the vector is the stable sort of the table, and every living process is listed and has a row |
| HistoryRuns.DeleteTruthfulIff | src/DuneCat_Core/linux/processtracker.cpp:294-310 | one reported exit leaves every row truthful exactly on Windows, or when the oldest entry of its pid has its creation second |
| HistoryRuns.TrackerIsQueue | src/DuneCat_Core/linux/processtracker.cpp:281-310 | the entries of a pid are the session's reports of it, less the oldest ones, one for each exit |
| HistoryRuns.TruthfulIff | src/DuneCat_App/main.cpp:99-188 | over every run of sessions, crashes and repeated reports, all rows are truthful throughout exactly when the platform is Windows or the n-th exit of each pid in a session belongs to its n-th report |
| HistoryRuns.ReportedOnce | src/DuneCat_Core/windows/processtracker.cpp:232-253 | when no process is reported twice, the vector lists exactly the living, once each, and every exit meets its report |
| HistoryRuns.NoReuseSuffices | src/DuneCat_Core/linux/linuxprocessobserver.cpp:99-118 | repeated reports do no harm while no session sees a pid used again |
| HistoryRuns.HistoryTellsTheTruth | src/DuneCat_App/main.cpp:99-188 | over every run whose exits meet their reports, always so on Windows: positive exactly for observed exits, and then the true second; -L means alive or ended no earlier than L; 0 means alive and tracked, or alive when the application last went down |
| HistoryRuns.ReplicasAndHistoryAgree | src/DuneCat_App/main.cpp:93-188 | under the same condition, whenever the application runs: each living process has a row not exactly stamped, and every running row is one of them; with no repeated report, vector and table list exactly the living, once each |
| HistoryRuns.ExactIsFinal | src/DuneCat_App/main.cpp:93-123 | rows and their other columns persist in every run; under the same condition an exact time never changes again, through restarts and repairs |
| HistoryFailures.TornStartupIff | src/DuneCat_App/main.cpp:100-105 | if startup dies between lines 101 and 104, then whatever happens until the next startup, each running row says "after the attempt", and the history is true exactly when all their processes outlasted it |
| HistoryFailures.TornRun | src/DuneCat_App/main.cpp:100-105 | a run from a first installation after which a row says "after" a second its process did not see |
| HistoryFailures.ReuseFails | src/DuneCat_Core/linux/linuxprocessobserver.cpp:99-128 | a run from a first installation on Linux in which fork, exec and reuse of a pid make the history false |
| Labels.ShownIsMeaning | src/DuneCat_App/sqltablemodel.cpp:92-104 | the label says what the stored time means exactly when the time lies within 32 bits and its opposite too |
| Labels.LabelsAreSound | src/DuneCat_App/sqltablemodel.cpp:85-107 | up to 2038, after every run, "running", a date and "After" are true of the process |
| LinuxHistory.ExitReachesOwnRowIff | src/DuneCat_Core/linux/processtracker.cpp:294-310 | an exit stamps its own row exactly when the oldest entry of the pid has its creation second |
| LinuxHistory.ForkExecSpoilsReuse | src/DuneCat_Core/linux/linuxprocessobserver.cpp:99-128 | after fork, exec and exit, a reuse of the pid overwrites the old exact time and leaves the new process running |
| Application.Launch | src/DuneCat_App/main.cpp:62-190 | Windows tracker, history and table together take the startup step |
| Application.LinuxLaunch | src/DuneCat_App/main.cpp:62-190 | Linux tracker, history and table together take the startup step |
| Application.OnCreated | src/DuneCat_App/main.cpp:161-177 | a creation event reaches Windows tracker, history and table as one step |
| Application.LinuxOnCreated | src/DuneCat_Core/linux/processtracker.cpp:281-292 | a fork or exec reaches Linux tracker, history and table as one step |
| Application.OnDeleted | src/DuneCat_App/main.cpp:178-188 | a deletion event reaches Windows tracker, history and table as one step |
| Application.LinuxOnDeleted | src/DuneCat_Core/linux/processtracker.cpp:294-310 | an exit, known by pid and moment only, reaches Linux tracker, history and table as one step |
| Application.OnHeartbeat | src/DuneCat_App/settings.cpp:78-83 | the heartbeat step changes LastAlive only |
| Connections.StepConsistent | src/DuneCat_Core/dbmanager.cpp:36-114 | every operation that does not assign to or reconnect an open handle, with at most 128 open handles a connection for the 8-bit count, keeps: count is the number of open handles, and an open handle has an open connection |
| Connections.StaysExactIff | src/DuneCat_Core/dbmanager.cpp:212-241 | an operation keeps "connected exactly when some handle is open" exactly when it does not look an idle connection up |
| Connections.CloseIsFair | src/DuneCat_Core/dbmanager.cpp:100-114 | with at most 128 open handles for the 8-bit count, closing or destroying never disconnects another open handle, and after the last one always disconnects |
| Connections.EightBitClose | src/DuneCat_Core/dbmanager.h:53 | for every number of open handles, exactly when closing one leaves the connection open; 128 is tight |
| Connections.ConstructThenOpen | src/DuneCat_Core/dbmanager.cpp:11-15 | a handle constructed on a name and then opened is one more open handle on that name, counted, with the connection open and the others untouched |
| Connections.ReconnectThenOpen | src/DuneCat_Core/dbmanager.cpp:212-226 | a closed handle moved to a name and then opened is one more open handle on that name, counted, with the connection open and the others untouched |
| Connections.DefaultNeverOpens | src/DuneCat_Core/dbmanager.cpp:71-78 | a handle on no connection stays closed and changes nothing when opened |
| Connections.OpenThenClose | src/DuneCat_Core/dbmanager.cpp:71-114 | opening connects and marks the handle, and closing again restores everything |
| Connections.CopyThenDestroy | src/DuneCat_Core/dbmanager.cpp:36-56 | a copy is as open as its original, and destroying it restores everything |
| Connections.CountsOpenHandles | src/DuneCat_Core/dbmanager.cpp:36-114 | for every legal sequence (as in StepConsistent) the count is the number of open handles and a positive count means an open connection; without lookups of idle connections the connection is open exactly then |
| Connections.ExactThroughoutIff | src/DuneCat_Core/dbmanager.cpp:212-241 | through a legal sequence, connections are open exactly when some handle is, exactly when no operation looks an idle connection up |
| Connections.LookupOpensIdle | src/DuneCat_Core/dbmanager.cpp:228-231 | constructing two handles on one name opens its connection with no handle open |
| Connections.EightBitsRefine | src/DuneCat_Core/dbmanager.h:53 | the wrapping count behaves as an unbounded one on all runs with at most 128 open handles a connection |
| Connections.DisciplineIsNeeded | src/DuneCat_Core/dbmanager.cpp:58-69 | assigning to or reconnecting a handle keeps the counts exactly when the handle is closed or nothing changes |
| DatabaseManager.Shared.AddCount | src/DuneCat_Core/dbmanager.cpp:41 | adds to the 8-bit count of one connection and returns the wrapped value |
| DatabaseManager.Shared.CreateConnection | src/DuneCat_Core/dbmanager.cpp:228-241 | a known name is looked up, which opens it, a new one is registered |
| DatabaseManager.DBManager.constructor | src/DuneCat_Core/dbmanager.cpp:11-23 | a closed handle that carries the given connection name |
| DatabaseManager.DBManager.Default | src/DuneCat_Core/dbmanager.cpp:25-34 | a closed handle on no connection |
| DatabaseManager.DBManager.Copy | src/DuneCat_Core/dbmanager.cpp:47-56 | the copy shares connection and openness, and is counted if open |
| DatabaseManager.DBManager.Assign | src/DuneCat_Core/dbmanager.cpp:58-69 | the target becomes like the other and is counted if open |
| DatabaseManager.DBManager.Open | src/DuneCat_Core/dbmanager.cpp:71-98 | opens and counts once; the result tells whether the handle is open on an open connection |
| DatabaseManager.DBManager.Close | src/DuneCat_Core/dbmanager.cpp:100-114 | counts down an open handle and disconnects when the count is not positive |
| DatabaseManager.DBManager.Destroy | src/DuneCat_Core/dbmanager.cpp:36-45 | the same for a handle that goes away |
| DatabaseManager.DBManager.Connect | src/DuneCat_Core/dbmanager.cpp:212-226 | the handle carries the given connection name and is as open as before |
| ProcStat.CloseIsFirst | src/DuneCat_Core/linux/processtracker.cpp:107-117 | the scan stops at the first position where closings match openings, or at the end |
| ProcStat.NoFields | src/DuneCat_Core/linux/processtracker.cpp:101-125 | a line without a space before its last character has no parameters |
| ProcStat.ScanName | src/DuneCat_Core/linux/processtracker.cpp:106-118 | collects the name up to the matching parenthesis, or finds that there is none |
| ProcStat.FallbackScan | src/DuneCat_Core/linux/processtracker.cpp:99-123 | name and offset found by the scan of any line |
| ProcStat.GetStatParams | src/DuneCat_Core/linux/processtracker.cpp:77-135 | the selected parameters of the line by either route, with its failures |
| ProcStat.ScanRecoversIff | src/DuneCat_Core/linux/processtracker.cpp:99-123 | on every printed line without parentheses in its fields, the scan recovers name and state offset exactly when the name is balanced |
| ProcStat.RoutesAgree | src/DuneCat_Core/linux/processtracker.cpp:92-123 | the comm route gives the state offset for every newline-free name, and the scan the same exactly when it is balanced |
| ProcStat.ReadLineWhole | src/DuneCat_Core/linux/processtracker.cpp:87-96 | a line ends with its newline, or with the file |
| ProcStat.SplitJoin | src/DuneCat_Core/linux/processtracker.cpp:125 | splitting joined fields gives the fields |
| ProcStat.JoinSplit | src/DuneCat_Core/linux/processtracker.cpp:125 | joining the pieces of any text gives the text |
| ProcStat.PrintThenParse | src/DuneCat_Core/linux/processtracker.cpp:18-130 | printing a line and parsing it by either route puts pid, name and every field at its index, up to two newlines |
| ProcStat.IndexSelectsField | src/DuneCat_Core/linux/processtracker.cpp:18-130 | on a printed line any indices yield their fields of proc(5), in their own order, by either route, and an index past the fields is out of range |
| Bytes.ToInt16 | src/DuneCat_Core/tools.h:13-20 | reads a big-endian 16-bit number on either kind of host |
| Bytes.ToInt32 | src/DuneCat_Core/tools.h:13-20 | reads a big-endian 32-bit number on either kind of host |
| Stun.CollectAttributes | src/DuneCat_Network/stunclient.cpp:96-108 | the loop ends and yields exactly the attributes of the datagram, or fails on a slice past its end |
| Stun.ParseIffSerialized | src/DuneCat_Network/stunclient.cpp:96-108 | the loop yields a list exactly for the serialisation of that list |
| Stun.PaddedReadIff | src/DuneCat_Network/stunclient.cpp:96-108 | a message padded with any bytes per section 15 of RFC 5389 is read as written exactly when all lengths are multiples of 4 |
| Stun.XorDecodedBytes | src/DuneCat_Network/stunclient.cpp:127-132 | load, exclusive or and swap are bytewise exclusive or with 21 12 A4 42 on both kinds of host |
| Stun.XorRoundTrip | src/DuneCat_Network/stunclient.cpp:127-132 | an address encoded per section 15.2 of RFC 5389 is decoded |
| Stun.RequestCookieIff | src/DuneCat_Network/networkmodels.h:94 | the request carries the standard cookie exactly on big-endian hosts |
| Stun.MappedRead | src/DuneCat_Network/stunclient.cpp:116-140 | a plain mapped address of either family is read with its port |
| Stun.XorMappedRead | src/DuneCat_Network/stunclient.cpp:116-132 | an exclusive-ored IPv4 address is read; its port is left as on the wire |
| Stun.ServerErrorIff | src/DuneCat_Network/stunclient.cpp:81-87 | exactly the datagrams that begin with 01 11 are error responses |
| Stun.ForeignIff | src/DuneCat_Network/stunclient.cpp:88-94 | exactly the other datagrams of at least 20 bytes without the transaction id at offset 8 are foreign |
| Stun.AcceptedIff | src/DuneCat_Network/stunclient.cpp:82-108 | a datagram that ends in a serialised list is read by its first address exactly when it is no error and echoes the transaction id |
| Stun.AddressOutcomes | src/DuneCat_Network/stunclient.cpp:110-158 | attributes are passed over exactly when their types are neither 0x01 nor 0x20 |
| Stun.AddressKinds | src/DuneCat_Network/stunclient.cpp:113-132 | types 0x01 and 0x20 carry a plain and an exclusive-ored address |
| Stun.NoAddressIff | src/DuneCat_Network/stunclient.cpp:116-155 | exactly which address attributes end in a slice past the body or an invalid pointer |
| Stun.ProcessReply | src/DuneCat_Network/stunclient.cpp:73-164 | the outcome of any datagram: errors first, then transaction id, attributes, first address |
| Stun.ResponseUnderstood | src/DuneCat_Network/stunclient.cpp:73-164 | an exclusive-ored answer with aligned attributes, any cookie and any length field yields the encoded address on either host, and never the port meant |
| Stun.PlainResponseUnderstood | src/DuneCat_Network/stunclient.cpp:73-164 | a plain answer, which a server gives a client without the standard cookie, yields address and port |
| Stun.AnswersExist | src/DuneCat_Network/stunclient.cpp:96-113 | any aligned attributes around an aligned address make such an answer |
| StunSession.RequestBytes | src/DuneCat_Network/stunclient.cpp:30-38 | the request begins 00 01 00 00, then 21 12 A4 42 on a big-endian host and 42 A4 12 21 on a little-endian one, then the transaction id |
| StunSession.Prepared | src/DuneCat_Network/stunclient.cpp:30-38 | the request has 20 bytes and carries the transaction id at offset 8 |
| StunSession.StunClient.constructor | src/DuneCat_Network/stunclient.cpp:12-22 | one request is sent, the timer runs and the reply is awaited |
| StunSession.StunClient.SendRequest | src/DuneCat_Network/stunclient.cpp:41-66 | sends the request, starts the timer and listens |
| StunSession.StunClient.ResendRequest | src/DuneCat_Network/stunclient.cpp:47-57 | doubles the timeout plus 500, stops past the limit, and sends in either case |
| StunSession.StunClient.ProcessData | src/DuneCat_Network/stunclient.cpp:73-164 | stops timer and listening; emits `processing_error` for a full datagram exactly when it is an error response or foreign, and returns true exactly when it emits `updated` |
| StunSession.ListeningIff | src/DuneCat_Network/stunclient.cpp:59-76 | a reply is awaited exactly until the first datagram |
| StunSession.FirstDatagramEnds | src/DuneCat_Network/stunclient.cpp:73-164 | the first datagram ends the session, sends nothing and emits exactly what it means, for every outcome |
| StunSession.AddressKept | src/DuneCat_Network/stunclient.cpp:77-94 | a datagram without an address leaves the mapped address as it was |
| StunSession.ErrorSignalIff | src/DuneCat_Network/stunclient.cpp:81-94 | an awaited datagram of at least 20 bytes ends in `processing_error` exactly when it begins 01 11 or lacks the transaction id, with the mapped address untouched |
| StunSession.AtMostOneSignal | src/DuneCat_Network/stunclient.cpp:73-94 | in every interleaving at most one signal, `updated` only after an echo of the transaction id, and every datagram is the request |
| StunSession.SilentAfterSignal | src/DuneCat_Network/stunclient.cpp:73-94 | after a signal no event changes, sends or emits anything |
| StunSession.AnswerEndsSession | src/DuneCat_Network/stunclient.cpp:73-164 | an awaited answer that carries an address ends the session in `updated` with it, whatever came before |
| StunSession.ClientLearnsAddress | src/DuneCat_Network/stunclient.cpp:73-164 | an awaited standard answer gives the client its own address, and a plain one its port too |
| StunSession.FirstBeyondExists | src/DuneCat_Network/stunclient.cpp:47-57 | for every positive timeout and every limit there is a first number k* of resends whose timeout exceeds the limit |
| StunSession.SentBound | src/DuneCat_Network/stunclient.cpp:47-57 | in every interleaving the timeout after k resends, on unbounded integers, is (r+500)*2^k-500 and at most k*+2 datagrams are sent |
| StunSession.TimeoutsFit | src/DuneCat_Network/stunclient.cpp:47-57 | no timeout ever overflows an int for limits up to 536870536 and initial timeouts up to 1073741573 |
| StunSession.TimeoutsOverflow | src/DuneCat_Network/stunclient.cpp:47-57 | past that limit some timeout does |
| StunSession.SentWithoutReply | src/DuneCat_Network/stunclient.cpp:47-57 | n timeouts without a reply send n more datagrams up to k*+2, and the timer runs exactly until then |
| StunSession.AtMostSevenRequests | src/DuneCat_Network/stunclient.cpp:19-57 | with 1000 and 38000 at most 7 requests, and exactly 7 without a reply |
| UdpTracker.LoopEndsIff | src/DuneCat_Network/trackermanager.cpp:168 | the 8-bit index leaves the peer loop exactly for datagrams of at most 1550 bytes |
| UdpTracker.EndlessIff | src/DuneCat_Network/trackermanager.cpp:168-174 | the model answers `Endless` exactly when no 8-bit index ends the loop |
| UdpTracker.ReadPeers | src/DuneCat_Network/trackermanager.cpp:158-174 | the peers of any datagram, or no end |
| UdpTracker.PeerCountIsCeiling | src/DuneCat_Network/trackermanager.cpp:167-174 | ceil((size-20)/6) endpoints, complete ones in place, at most the last made of a rest |
| UdpTracker.PeersSurviveIff | src/DuneCat_Network/trackermanager.cpp:155-177 | a peer list survives encoding and reading, in order, exactly when it has at most 255 entries |
| UdpTracker.ConnectLayout | src/DuneCat_Network/trackermanager.cpp:92-98 | the connect request has the fields of BEP 15 in place |
| UdpTracker.AnnounceLayout | src/DuneCat_Network/trackermanager.cpp:130-143 | the announce packet read at the offsets of BEP 15 gives back every field |
| UdpTracker.ConnectionAcceptedIff | src/DuneCat_Network/trackermanager.cpp:112-128 | any datagram is accepted exactly when it has at least 16 bytes, begins with action 0 and answers this transaction; bytes 8 to 16 are the id kept |
| UdpTracker.OthersCount | src/DuneCat_Network/trackermanager.cpp:187-195 | everybody else is greeted as often as listed, we never |
| UdpTracker.OthersInOrder | src/DuneCat_Network/trackermanager.cpp:187-195 | the recipients keep the order of the endpoints |
| UdpTracker.TrackerManager.ReceiveConnResponse | src/DuneCat_Network/trackermanager.cpp:112-128 | accepts exactly a complete connect response to this transaction, and keeps the received id either way |
| UdpTracker.TrackerManager.SendAnnounce | src/DuneCat_Network/trackermanager.cpp:130-143 | the announce begins with the 8 id bytes of the last connect response |
| UdpTracker.TrackerManager.ReceiveAnnounce | src/DuneCat_Network/trackermanager.cpp:155-177 | the endpoints become the peers of the datagram |
| UdpTracker.TrackerManager.SendMessage | src/DuneCat_Network/trackermanager.cpp:187-195 | the greeting loop ends and addresses every endpoint but our own, in order |

## Left out

- UI: QML, the tray, sorting proxies, column widths, fonts, date formatting and translations.
- Event sources: WMI, netlink, Win32, Cocoa and autostart; they appear as events only. The
  macOS tracker has the handlers of the Windows one.
- SQLite and Qt SQL: the table is a map with insert-or-ignore and update; failing statements,
  transactions and pragmas are not modelled.
- Threads: every method of a manager, tracker or model is one step, and queued signals are
  not modelled.
- Real time: timers appear as timeout and heartbeat events, so nothing is said about the
  3-second period of the heartbeat or the time between datagrams.
- Late exits: an exit reported later than it happened, or never while the application runs,
  is outside `HistoryRuns`; so are invalid creation times, which the source stores as 0.
- The Linux process count, which the source neither initialises from its list nor keeps in
  step with it.
- `SqlTableModel::refresh`, its row count and its row announcement.
- `DBManager::remove_connection`, and a driver that fails to load.
- Text-mode translation of carriage returns in `/proc` files, and the escaping the kernel
  applies to names in stat lines.
- IPv6 XOR-MAPPED-ADDRESS, decoded through an invalid pointer: `Undefined` in the model.
- `TrackerManager` timers and re-announcing, the datagram dispatch, and arriving messages.
- LinuxHistory.ForkExecSpoilsReuse: says nothing about threads, whose exits the observer also
  reports under their own ids.

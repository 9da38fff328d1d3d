# A model of the message bus core

This project models, in Dafny, the parts of three programs whose state is spread
over several lists, tables, counters and files that must agree at all times, and
proves that they do.

* **The bus daemon of dbus 1.10.4** (`bus/`)
  * *Transactions* (`TransactionTheory`, `Transactions`): messages of many open
    transactions share one list per connection; executing or cancelling one
    transaction must not disturb the others.
  * *Expire list* (`ExpireList`): one timer for many deadlines.
  * *Pending replies* (`PendingReplyTheory`, `PendingReplyRuns`, `PendingReplies`):
    one-shot permissions to reply, with cancel hooks that take every change back.
  * *Connection ledger* (`ConnectionLedgerTheory`, `ConnectionLedger`): lists,
    counters, the count per user and the accept switch.
  * *Activation* (`ActivationTheory`, `ActivationRuns`, `ActivationOutcome`,
    `ActivationFailure`, `Activation`): reference-counted pending activations, the
    daemon-wide number of requests, the nested systemd activation and the failure
    sweeps.
  * *Service cache* (`ServiceCacheTheory`, `ServiceCacheOutcome`, `ServiceCache`):
    service files indexed by name and by file.
  * *Configuration* (`ConfigTheory`, `ConfigGrammar`, `ConfigMeaning`,
    `ConfigInline`, `ConfigParser`): which files are accepted, what they set, and
    included files, read by parsers of their own and merged.
  * *Service files* (`DesktopFileTheory`, `DesktopFileOutcome`, `DesktopFile`): the
    file parser.
* **The transaction store of the NCo tutorial** (`TidStoreTheory`, `TidStoreRuns`,
  `TidHandlerTheory`, `TidStore`): a file of fixed-size records, and the handlers
  that keep a committed unit from being executed again.
* **The managed bus of dbus-sharp** (`AddressTheory`, `AddressOutcome`,
  `ServerAddress`, `ServerBusTheory`, `ServerBus`): server addresses and unique names.

Each part has two layers.  A *theory* module describes the state as a value, each
operation as a function on it, and proves what the operations keep over every
run; what an operation answers and leaves behind is stated beside it in terms of
the inputs and the state before, without the function itself (the lemmas named
`...Outcome`, and those of `ConfigMeaning` and `ConfigGrammar`).  The other module is a class, or a set of methods, that changes fields in
place with the loops the original has; every method is proved to be the step of
the theory it stands for.  `Collections` and `BusTypes` are shared.

Objects of the original are named by numbers (`Connection`, `Transaction`,
`Address`): a field that points to an object holds its number, and the objects'
contents are maps from numbers to records.  The order in which a hash table is
walked is a parameter, as is everything that comes from outside: clock readings,
what memory suffices for, the file system, the answers of the security policy.

Where the code does not do what its documentation or its users may think, the
model follows the code, and the difference is a theorem that says exactly when:

* an included `<syslog>` is lost (`ConfigurationIsExactlyInline`), and a top-level
  file may include itself once (`SelfIncludeMeetsBound`);
* a clashing rename leaves a service file without a name
  (`FullExactlyWithoutClash`), and such a file takes its old name away from a later
  owner whenever it is looked at again (`OrphanTakesNameAway`, `CheckTakesNameAway`,
  `NameIsTakenAway`);
* looking up a service name can find an entry of another name (`CheckKeepsEntry`);
* an error text comes back with the rest of its field unless it fills the field
  (`ReadsBackExactlyLongMessages`), and an id starting with NUL is lost on reopening
  (`SurvivesReopen`);
* a transaction left open while timers fire can delay an expiry
  (`HeldLinkIsOnTimeExactly`);
* a hook that cannot be had for the nested systemd activation drops systemd's
  pending activation together with the requests of other callers
  (`ViaSystemdOutcome`);
* the check of section names in service files accepts every name
  (`EveryNameIsValid`).

## Model
| member | source | states |
|---|---|---|
| TransactionTheory.RunDelivers | data/D-Bus_Installation/dbus-1.10.4/bus/connection.c:2324-2537 | Over every run and every interleaving of transactions, the shared newest-first lists behave like private queues: each connection has been handed exactly the batches of the executed transactions, once each, in queueing order, and holds exactly the batches of the open ones |
| TransactionTheory.RunWellFormed | data/D-Bus_Installation/dbus-1.10.4/bus/connection.c:2386-2409 | In every reachable state a connection is in a transaction's list exactly once if and only if it holds a message of it; after a disconnection nothing refers to the connection |
| TransactionTheory.WithoutKeepsOthers | data/D-Bus_Installation/dbus-1.10.4/bus/connection.c:2422-2501 | Taking one transaction out of a message list leaves the messages of every other one, in order |
| TransactionTheory.SendThenExecute | data/D-Bus_Installation/dbus-1.10.4/bus/connection.c:2324-2409 | A message queued last is handed over last when its transaction is executed, and only to its own connection |
| TransactionTheory.SendThenCancel | data/D-Bus_Installation/dbus-1.10.4/bus/connection.c:2324-2447 | A message queued in a transaction makes no difference once the transaction is cancelled |
| TransactionTheory.OpenThenClose | data/D-Bus_Installation/dbus-1.10.4/bus/connection.c:2159-2170 | A transaction in which nothing was sent closes without effect either way |
| TransactionTheory.PopExecutes | data/D-Bus_Installation/dbus-1.10.4/bus/connection.c:2504-2517 | Executing one connection of the list and then the rest equals executing the whole transaction at once |
| TransactionTheory.PopCancels | data/D-Bus_Installation/dbus-1.10.4/bus/connection.c:2449-2463 | The same for cancelling |
| TransactionTheory.DropNewestDisconnects | data/D-Bus_Installation/dbus-1.10.4/bus/connection.c:2520-2537 | Dropping the newest message together with its list entry, until none is left, equals forgetting the connection at once |
| Transactions.BusContext.FindOther | data/D-Bus_Installation/dbus-1.10.4/bus/connection.c:2378-2388 | The walk behind the newest link finds a message of the same transaction if and only if there is one |
| Transactions.BusContext.TransactionSend | data/D-Bus_Installation/dbus-1.10.4/bus/connection.c:2324-2409 | Queues the message on a connected recipient, lists the connection once, and undoes the queueing when the list link cannot be allocated |
| Transactions.BusContext.SendQueued | data/D-Bus_Installation/dbus-1.10.4/bus/connection.c:2466-2501 | The oldest-to-newest walk takes out exactly the messages of the transaction and sends them in queueing order |
| Transactions.BusContext.DropQueued | data/D-Bus_Installation/dbus-1.10.4/bus/connection.c:2422-2447 | The newest-to-oldest walk takes out exactly the messages of the transaction |
| Transactions.BusContext.TransactionExecute | data/D-Bus_Installation/dbus-1.10.4/bus/connection.c:2504-2517 | The loop over the connections hands over every queued message of the transaction and frees it |
| Transactions.BusContext.TransactionCancel | data/D-Bus_Installation/dbus-1.10.4/bus/connection.c:2449-2463 | The loop over the connections drops every queued message of the transaction and frees it |
| Transactions.BusContext.RemoveTransactions | data/D-Bus_Installation/dbus-1.10.4/bus/connection.c:2520-2537 | The loop over the messages of a closed connection removes it from every transaction |
| ExpireList.DoExpiration | data/D-Bus_Installation/dbus-1.10.4/bus/expirelist.c:126-182 | One pass expires exactly the due items up to the first that cannot be expired, keeps the others in order, and returns the truncated shortest wait, at most an hour, or -1 when none waits |
| ExpireList.RunStaysCovered | data/D-Bus_Installation/dbus-1.10.4/bus/expirelist.c:95-262 | Over every run of additions, removals, restored links, rechecks and passes the timer covers every deadline |
| ExpireList.CoveredMeansOnTime | data/D-Bus_Installation/dbus-1.10.4/bus/expirelist.c:95-123 | A covered list that is not empty has an enabled timer that fires no later than the earliest deadline, at once for an overdue item |
| ExpireList.PassCovers | data/D-Bus_Installation/dbus-1.10.4/bus/expirelist.c:126-203 | The interval set by a complete pass covers all survivors |
| ExpireList.AddLinkCovers | data/D-Bus_Installation/dbus-1.10.4/bus/expirelist.c:240-262 | Putting back a link that an open transaction had taken out keeps everything covered |
| ExpireList.OpenTransactionDelaysExpiry | data/D-Bus_Installation/dbus-1.10.4/bus/connection.c:2084-2089 | The promise fails if a transaction stays open across a firing of the timer: a concrete list, stamp and interval |
| ExpireList.HeldLinkIsOnTimeExactly | data/D-Bus_Installation/dbus-1.10.4/bus/connection.c:2084-2089 | A link held across a pass and put back is covered if and only if nothing was left waiting, or the timer fires at once, or no later than its own deadline |
| ExpireList.DueAndWaiting | data/D-Bus_Installation/dbus-1.10.4/bus/expirelist.c:126-182 | A pass loses nothing: every item is either expired or still waiting |
| ExpireList.BusExpireList.Expire | data/D-Bus_Installation/dbus-1.10.4/bus/expirelist.c:187-215 | The timer handler sets list and interval as the pass says, and retries soon when a callback fails |
| PendingReplyTheory.CancelIsExactUndo | data/D-Bus_Installation/dbus-1.10.4/bus/connection.c:1827-1839 | After any sequence of expect and check calls in one transaction, successful or not, running the cancel hooks newest first never misses an entry and brings back exactly the entries before |
| PendingReplyTheory.UndoIgnoresOrder | data/D-Bus_Installation/dbus-1.10.4/bus/connection.c:1978-1988 | A link put back in front instead of in its old place makes no difference to the undoing |
| PendingReplyTheory.SecureIsOps | data/D-Bus_Installation/dbus-1.10.4/bus/bus.c:1558-1778 | The reply part of one security check is a sequence of those calls |
| PendingReplyTheory.DeliveriesAreUndone | data/D-Bus_Installation/dbus-1.10.4/bus/bus.c:1558-1778 | A transaction that passes any number of messages through the security check, allowed or refused, is undone exactly when cancelled |
| PendingReplyTheory.DropLeavesNoTrace | data/D-Bus_Installation/dbus-1.10.4/bus/connection.c:1763-1818 | After a disconnection no entry names the connection: its own are gone, what it owed stays as overdue, every other stays as it was, and there are no further ones |
| PendingReplyRuns.RepliesAreOneShot | data/D-Bus_Installation/dbus-1.10.4/bus/connection.c:1859-2082 | Over every run: reply permissions used never exceed those granted, entries with a live replier are distinct, no caller has more than the maximum |
| PendingReplyRuns.EveryCallEndsOnce | data/D-Bus_Installation/dbus-1.10.4/bus/connection.c:1722-1818 | Between transactions every recorded call is in exactly one place: answered, told that no reply will come, abandoned by its caller, or pending |
| PendingReplies.BusConnections.ExpectReply | data/D-Bus_Installation/dbus-1.10.4/bus/connection.c:1859-1970 | The one walk over the list answers and records as specified: duplicate, limit, memory or success |
| PendingReplies.BusConnections.CheckReply | data/D-Bus_Installation/dbus-1.10.4/bus/connection.c:2015-2082 | Finds the entry, takes it out and registers the hook that puts it back |
| PendingReplies.BusConnections.RunCancelHooks | data/D-Bus_Installation/dbus-1.10.4/bus/connection.c:2449-2463 | Runs the hooks newest first without ever missing an entry to cancel, and ends with the undone list |
| PendingReplies.BusConnections.CancelRestores | data/D-Bus_Installation/dbus-1.10.4/bus/connection.c:1827-1839 | Together: cancelling restores the entries the transaction found, whatever was done in it |
| PendingReplies.BusConnections.DropPendingReplies | data/D-Bus_Installation/dbus-1.10.4/bus/connection.c:1763-1818 | The walk over the list forgets what the connection waits for and marks what it owes as overdue |
| PendingReplies.BusConnections.ExpirePendingReplies | data/D-Bus_Installation/dbus-1.10.4/bus/connection.c:1722-1760 | An expiry pass takes out exactly the due entries |
| PendingReplies.BusConnections.CheckSecurityPolicy | data/D-Bus_Installation/dbus-1.10.4/bus/bus.c:1558-1778 | The two nested calls and the policy in the order of the original; what comes out is SecureOutcome |
| PendingReplyTheory.SecureOutcome | data/D-Bus_Installation/dbus-1.10.4/bus/bus.c:1558-1778 | A message passes exactly if its lookup did not run out of memory, the policy allows it knowing whether it answers a live entry of its addressee, and, for a call to its addressee that wants a reply, the call is new, below the maximum and has memory; the entry answered is then gone and the call first in the list |
| PendingReplyTheory.ExpectOutcome | data/D-Bus_Installation/dbus-1.10.4/bus/connection.c:1859-1970 | Access denied exactly for a call already awaited, limits exceeded exactly for a new one of a caller with the maximum, no memory exactly otherwise without memory; a recorded call is put in front with its hook, anything else changes nothing |
| PendingReplyTheory.CheckOutcome | data/D-Bus_Installation/dbus-1.10.4/bus/connection.c:2015-2082 | A reply was requested exactly if an entry of caller, replier and serial with a live replier is pending; the first such entry, and only that, is taken out |
| ConnectionLedgerTheory.RunStaysConsistent | data/D-Bus_Installation/dbus-1.10.4/bus/connection.c:679-942 | Over every run: the two lists are disjoint and without repetition, the counters are their lengths, a connection has a name exactly if it is completed, the per-user map counts exactly and has no zero entries, the incomplete list is oldest first, accepting is enabled exactly below the maximum, which is never exceeded |
| ConnectionLedgerTheory.EarlyExitIsFullScan | data/D-Bus_Installation/dbus-1.10.4/bus/connection.c:880-942 | Stopping at the first young connection closes exactly those a full scan closes |
| ConnectionLedgerTheory.RunKeepsLimits | data/D-Bus_Installation/dbus-1.10.4/bus/connection.c:1634-1661 | Over every run neither the number of completed connections nor that of any user exceeds its limit |
| ConnectionLedgerTheory.AdmissionKeepsLimits | data/D-Bus_Installation/dbus-1.10.4/bus/connection.c:1634-1661 | One completion after a successful limits check keeps the total and every user within the limits |
| ConnectionLedgerTheory.CompleteStaysConsistent | data/D-Bus_Installation/dbus-1.10.4/bus/connection.c:1495-1580 | Completing moves the connection and its user count without disturbing any part of the ledger |
| ConnectionLedgerTheory.DisconnectStaysConsistent | data/D-Bus_Installation/dbus-1.10.4/bus/connection.c:203-345 | Disconnecting, completed or not, does the same |
| ConnectionLedger.BusConnections.CloseStale | data/D-Bus_Installation/dbus-1.10.4/bus/connection.c:896-938 | The early-exit loop returns the stale connections of the whole list, and as next check what NextCheckIsShortestWait says |
| ConnectionLedgerTheory.NextCheckIsShortestWait | data/D-Bus_Installation/dbus-1.10.4/bus/connection.c:880-942 | The next check is -1 exactly when every listed connection is stale; otherwise it is the truncated remaining wait of a survivor, and at most that of every survivor |
| ConnectionLedgerTheory.RunKeepsTimer | data/D-Bus_Installation/dbus-1.10.4/bus/connection.c:880-942 | Over every run, expiry timer firings included, an incomplete connection has either had its time or the timer is enabled and fires no later than its deadline |
| ConnectionLedger.BusConnections.HandleExpireTimeout | data/D-Bus_Installation/dbus-1.10.4/bus/connection.c:944-955 | The timer handler closes the stale connections and sets the next check, starting from the firing |
| ConnectionLedgerTheory.SetupAdmits | data/D-Bus_Installation/dbus-1.10.4/bus/connection.c:679-877 | A new connection joins the incomplete ones last, without name or user, from the current time on |
| ConnectionLedgerTheory.CompleteMoves | data/D-Bus_Installation/dbus-1.10.4/bus/connection.c:1495-1580 | A completed connection has its name and user, joins the completed ones and leaves the incomplete ones; nobody else moves |
| ConnectionLedgerTheory.DepartForgets | data/D-Bus_Installation/dbus-1.10.4/bus/connection.c:203-345 | A connection that has gone is in neither list; the others stay where they were |
| ConnectionLedger.BusConnections.CheckAllWatches | data/D-Bus_Installation/dbus-1.10.4/bus/bus.c:1782-1813 | Accepting is switched on exactly below the maximum of incomplete connections |
| ConnectionLedger.BusConnections.SetupConnection | data/D-Bus_Installation/dbus-1.10.4/bus/connection.c:679-877 | Appends the new connection, expires old ones and updates the switch |
| ConnectionLedger.BusConnections.CompleteConnection | data/D-Bus_Installation/dbus-1.10.4/bus/connection.c:1495-1580 | All or nothing: a failed policy lookup changes nothing |
| ConnectionLedger.BusConnections.Disconnected | data/D-Bus_Installation/dbus-1.10.4/bus/connection.c:203-345 | Takes the connection out of its list, the counters and the user map |
| ConnectionLedger.BusConnections.CheckLimits | data/D-Bus_Installation/dbus-1.10.4/bus/connection.c:1634-1661 | The answer read off the counters is the answer about the connections themselves |
| ActivationRuns.LedgerHolds | data/D-Bus_Installation/dbus-1.10.4/bus/activation.c:1714-2195 | Over every run with any number of open transactions: the daemon-wide number is the sum over the live pending activations, between 0 and the maximum; each reference count is one for the table plus one per hook; without open transactions exactly the objects in the table are alive |
| ActivationRuns.ActivateIsGood | data/D-Bus_Installation/dbus-1.10.4/bus/activation.c:1714-2195 | One activation keeps this, with its nested systemd activation, successful, failed or cancelled |
| ActivationTheory.RemoveStaysSound | data/D-Bus_Installation/dbus-1.10.4/bus/activation.c:163-219 | Dropping a table entry frees the object with its last reference and takes its requests off the number |
| ActivationTheory.RestoreStaysSound | data/D-Bus_Installation/dbus-1.10.4/bus/activation.c:1026-1044 | Restoring a saved activation keeps the ledger, also when another took its name meanwhile |
| ActivationTheory.AbortStaysSound | data/D-Bus_Installation/dbus-1.10.4/bus/activation.c:1494-1530 | Running all hooks of a transaction and then freeing all accounts for every reference |
| ActivationTheory.CommitStaysSound | data/D-Bus_Installation/dbus-1.10.4/bus/connection.c:2504-2517 | So does freeing them without running them |
| ActivationTheory.StartedStaysSound | data/D-Bus_Installation/dbus-1.10.4/bus/activation.c:1061-1225 | Saving an activation for a cancellation and taking it off the table keeps the ledger |
| Activation.BusActivation.PendingUnref | data/D-Bus_Installation/dbus-1.10.4/bus/activation.c:163-219 | The last reference takes the object and its requests away |
| Activation.BusActivation.TransactionCancel | data/D-Bus_Installation/dbus-1.10.4/bus/connection.c:2449-2463 | The loops over the hooks do what running and freeing them means, and keep the ledger |
| Activation.BusActivation.TransactionExecute | data/D-Bus_Installation/dbus-1.10.4/bus/connection.c:2504-2517 | Frees the hooks without running them |
| Activation.BusActivation.ActivateService | data/D-Bus_Installation/dbus-1.10.4/bus/activation.c:1714-2195 | The whole operation on the fields; its answer is ActivationAnswer, what it leaves is ActivationLeaves, and the number of requests stays within the limit |
| ActivationOutcome.ActivationAnswer | data/D-Bus_Installation/dbus-1.10.4/bus/activation.c:1714-2195 | Limits exceeded, service unknown and already running each exactly when the state and the daemon say so; pending exactly when the request is taken, its hook is allocated, and the name was pending before, systemd is or takes it over, or the child was spawned |
| ActivationOutcome.ActivationLeaves | data/D-Bus_Installation/dbus-1.10.4/bus/activation.c:1714-2195 | Pending: the request is last under its name, in the object there was or a new one made from the service file, and the transaction holds its cancel hook first; failed: nothing is pending under the name; any other answer changes nothing |
| ActivationOutcome.ActivationSpares | data/D-Bus_Installation/dbus-1.10.4/bus/activation.c:1714-2195 | Names other than the one requested keep their object and requests, but for systemd when it is asked to take over, which then has one request more, or none at all without a hook |
| ActivationOutcome.ViaSystemdOutcome | data/D-Bus_Installation/dbus-1.10.4/bus/activation.c:1955-2047 | Systemd takes over exactly if it is there and may be sent to, or else can itself be queued within the limit with a hook; a request for it is then last under its own name, and a failed hook drops that name altogether |
| ActivationOutcome.AttachOutcome | data/D-Bus_Installation/dbus-1.10.4/bus/activation.c:1812-1937 | The request is queued exactly if a hook can be allocated; otherwise the activation is gone with the requests of others |
| ActivationOutcome.StartedOutcome | data/D-Bus_Installation/dbus-1.10.4/bus/activation.c:1061-1225 | A service that appears is pending no longer, under its name only, and the transaction holds the hook that would put it back |
| ActivationOutcome.CancelOutcome | data/D-Bus_Installation/dbus-1.10.4/bus/connection.c:2449-2463 | After a cancellation each name is decided by the last hook run that concerns it, nothing pending after a cancelled request, the very object with its requests after a saved one; names without a hook are left alone |
| ActivationOutcome.CommitOutcome | data/D-Bus_Installation/dbus-1.10.4/bus/connection.c:2504-2517 | An executed transaction leaves what is pending under every name, and the hooks of the others |
| ActivationOutcome.RemoveSeen | data/D-Bus_Installation/dbus-1.10.4/bus/activation.c:1284-1294 | Giving up a name takes away what is pending under it and nothing else |
| Activation.BusActivation.LaunchViaSystemd | data/D-Bus_Installation/dbus-1.10.4/bus/activation.c:1955-2047 | The nested transaction is executed or cancelled, and a failure gives up the outer activation |
| Activation.BusActivation.AttachRequest | data/D-Bus_Installation/dbus-1.10.4/bus/activation.c:1812-1937 | Queues the request and registers the cancel hook; without a hook the pending activation is dropped |
| Activation.BusActivation.ServiceStarted | data/D-Bus_Installation/dbus-1.10.4/bus/activation.c:1061-1225 | Saves the activation for a cancellation before it leaves the table; without a hook nothing changes |
| ActivationFailure.SameExecIsGone | data/D-Bus_Installation/dbus-1.10.4/bus/activation.c:1407-1429 | After a failed child exactly the activations with its command line are gone, in whatever order the table is walked |
| ActivationFailure.SameUnitIsGone | data/D-Bus_Installation/dbus-1.10.4/bus/activation.c:2241-2283 | After a failure in systemd exactly the activations of the unit are gone |
| ActivationFailure.EveryRequestAnsweredOnce | data/D-Bus_Installation/dbus-1.10.4/bus/activation.c:1238-1277 | Each request of a connected caller the driver may send to is answered by exactly one error |
| ActivationFailure.EveryAnswerNamesCause | data/D-Bus_Installation/dbus-1.10.4/bus/activation.c:1238-1277 | A caller gets its answers in the order of its requests, each an error to the serial of the request that carries the cause of the failure |
| ActivationFailure.ToldOneMore | data/D-Bus_Installation/dbus-1.10.4/bus/activation.c:1252-1269 | One more entry adds its error to its caller and to nobody else |
| ActivationFailure.SweepIsExact | data/D-Bus_Installation/dbus-1.10.4/bus/activation.c:1284-1294 | Removing a list of names removes exactly those and leaves the others untouched |
| Activation.BusActivation.TrySendActivationFailure | data/D-Bus_Installation/dbus-1.10.4/bus/activation.c:1238-1277 | All or nothing: either every caller is told or a failed attempt leaves no trace |
| Activation.BusActivation.QueueErrors | data/D-Bus_Installation/dbus-1.10.4/bus/activation.c:1252-1269 | The loop keeps both ways out open: cancelling leads back to the start, executing tells everyone so far |
| Activation.BusActivation.PendingActivationFailed | data/D-Bus_Installation/dbus-1.10.4/bus/activation.c:1284-1294 | However many attempts fail, the callers are told once and the activation is removed |
| Activation.BusActivation.ChildFailed | data/D-Bus_Installation/dbus-1.10.4/bus/activation.c:1407-1429 | All others with the same command line fail first, then the activation itself |
| Activation.BusActivation.SystemdFailure | data/D-Bus_Installation/dbus-1.10.4/bus/activation.c:2241-2283 | Every activation of the unit fails |
| ServiceCacheTheory.IndexesAgree | data/D-Bus_Installation/dbus-1.10.4/bus/activation.c:252-575 | In every reachable state a name leads to an entry of that name which its directory holds under its file name; every live entry is held by its directory |
| ServiceCacheTheory.StepKeeps | data/D-Bus_Installation/dbus-1.10.4/bus/activation.c:252-575 | New, renamed, removed, unreadable and clashing files keep the indexes and the reference counts |
| ServiceCacheTheory.FullExactlyWithoutClash | data/D-Bus_Installation/dbus-1.10.4/bus/activation.c:405-425 | The other direction, every file found under its name, survives an update if and only if it is not a clashing rename |
| ServiceCacheTheory.ClashingRenameLosesName | data/D-Bus_Installation/dbus-1.10.4/bus/activation.c:405-425 | A concrete clash after which a file is found under no name |
| ServiceCacheTheory.OrphanTakesNameAway | data/D-Bus_Installation/dbus-1.10.4/bus/activation.c:405-425 | An entry loses its name to an update of another file if and only if that file is a service file and its entry remembers just that name, whatever it now claims |
| ServiceCacheTheory.CheckTakesNameAway | data/D-Bus_Installation/dbus-1.10.4/bus/activation.c:482-575 | The same for a check: the file is gone, or newer and a service file |
| ServiceCacheTheory.NameIsTakenAway | data/D-Bus_Installation/dbus-1.10.4/bus/activation.c:252-575 | A reached state in which visiting an unchanged file takes the name away from another |
| ServiceCacheOutcome.NewFileOutcome | data/D-Bus_Installation/dbus-1.10.4/bus/activation.c:252-478 | A new file gives a service exactly if its directory is known, it has a name and a command line, and the name is free; the entry then says what the file says and is found by name and file, otherwise nothing changes |
| ServiceCacheOutcome.KnownFileOutcome | data/D-Bus_Installation/dbus-1.10.4/bus/activation.c:252-478 | An update of a known file is taken over exactly if it still is a service file and its name is free or was its own; the entry then says what the file says and is found under the new name, otherwise the entry says what it said |
| ServiceCacheOutcome.OtherNamesStay | data/D-Bus_Installation/dbus-1.10.4/bus/activation.c:252-478 | Names other than the old and the new one of the file lead where they led |
| ServiceCacheOutcome.CheckOutcome | data/D-Bus_Installation/dbus-1.10.4/bus/activation.c:482-575 | A file that is gone is forgotten, a newer one that still is a service is taken over, an older or unusable one changes nothing; an entry is answered exactly if the file is there |
| ServiceCacheOutcome.VisitOutcome | data/D-Bus_Installation/dbus-1.10.4/bus/activation.c:585-690 | Only names ending in ".service" count; an unknown file is filed exactly if it gives a service, a known one stays filed exactly if it is still there |
| ServiceCache.ListingIsVisited | data/D-Bus_Installation/dbus-1.10.4/bus/activation.c:585-690 | Reading a directory is the run of one visit for each name of the listing, in its order |
| ServiceCache.DirectoriesAreVisited | data/D-Bus_Installation/dbus-1.10.4/bus/activation.c:1533-1560 | Reading all directories is the run of their visits |
| ServiceCache.BusServiceCache.UpdateDesktopFileEntry | data/D-Bus_Installation/dbus-1.10.4/bus/activation.c:252-478 | Adds, renames or refuses as specified, with one reference per table |
| ServiceCache.BusServiceCache.CheckServiceFile | data/D-Bus_Installation/dbus-1.10.4/bus/activation.c:482-575 | Drops the entry of a vanished file, rereads a newer one, keeps the others |
| ServiceCache.BusServiceCache.UpdateDirectory | data/D-Bus_Installation/dbus-1.10.4/bus/activation.c:585-690 | The loop over a listing visits every service file |
| ServiceCache.BusServiceCache.FindEntry | data/D-Bus_Installation/dbus-1.10.4/bus/activation.c:1563-1597 | An unknown name is looked for in all directories and found under that name; a known one is checked first |
| ServiceCache.CheckKeepsEntry | data/D-Bus_Installation/dbus-1.10.4/bus/activation.c:1581-1586 | The entry found for a known name has that name unless its file was meanwhile rewritten to claim another, free one |
| ConfigInline.ConfigurationIsInline | data/D-Bus_Installation/dbus-1.10.4/bus/config-parser.c:2139-2209 | However files include each other, the daemon ends with the same error, or with the settings the flat list of all actions gives, where syslog is on exactly if the top-level file itself says so |
| ConfigInline.ConfigurationIsExactlyInline | data/D-Bus_Installation/dbus-1.10.4/bus/config-parser.c:2139-2209 | The result is that of inlining in every respect if and only if inlining fails, or the top-level file switches syslog on, or no file does |
| ConfigInline.LoadInPlace | data/D-Bus_Installation/dbus-1.10.4/bus/config-parser.c:282-352 | A file read by a parser of its own and merged means the same as its actions on the settings read so far |
| ConfigInline.IncludeIsInline | data/D-Bus_Installation/dbus-1.10.4/bus/config-parser.c:2145-2148 | The check the authors ask for, for one include: the same error or the settings of the actions in place, with syslog as before |
| ConfigInline.IncludeIsExactlyInline | data/D-Bus_Installation/dbus-1.10.4/bus/config-parser.c:2145-2148 | With syslog as well if and only if the file cannot be read, syslog was on already, or no file below switches it on |
| ConfigInline.AbsorbAssociative | data/D-Bus_Installation/dbus-1.10.4/bus/config-parser.c:282-352 | Merging is associative: limits, user, type, files, flags, address and mechanism lists, service and configuration directories, context table |
| ConfigInline.AppliedInPlace | data/D-Bus_Installation/dbus-1.10.4/bus/config-parser.c:2359-2658 | Every element but syslog commutes with merging |
| ConfigInline.NestingIsBounded | data/D-Bus_Installation/dbus-1.10.4/bus/config-parser.c:355-370 | Every list of included files set up while a configuration is read, also in files that are given up, is free of repetition; with the top-level file, which is not listed, at most one file more is read at a time than there are |
| ConfigInline.SelfIncludeMeetsBound | data/D-Bus_Installation/dbus-1.10.4/bus/config-parser.c:2247-2356 | A top-level file that includes its own directory: one file, read twice at a time, without an error |
| ConfigInline.ServiceDirsStayUnique | data/D-Bus_Installation/dbus-1.10.4/bus/config-parser.c:255-279 | Service directories never repeat, whatever is read |
| ConfigInline.SyslogIsNotMerged | data/D-Bus_Installation/dbus-1.10.4/bus/config-parser.c:282-352 | A concrete file whose syslog element is lost by inclusion |
| ConfigMeaning.ToplevelMeans | data/D-Bus_Installation/dbus-1.10.4/bus/config-parser.c:2359-2658 | What a configuration without includes loads to, from its events alone: user, type, pidfile and service helper are the text of the last such element, addresses and mechanisms all texts in order, each switch is on exactly if its element occurs, limits and contexts are the last given of each name, service directories those named with repetitions dropped |
| ConfigMeaning.FileMeans | data/D-Bus_Installation/dbus-1.10.4/bus/config-parser.c:2359-2658 | The same for a file that is included, from the limits handed to it |
| ConfigMeaning.IncludeMeans | data/D-Bus_Installation/dbus-1.10.4/bus/config-parser.c:2139-2209 | Including a file that includes no other: an error if it is being read already or is no proper well-formed document, an absence that may be ignored, otherwise the settings before with what the events of the file say, but for syslog |
| ConfigMeaning.RunLeads | data/D-Bus_Installation/dbus-1.10.4/bus/config-parser.c:2359-2658 | With includes: the settings after each event are those before with what the event says, and the text of an include reads that file, below the policy root or the directory of the file, ignoring its absence and passing it over exactly if the attributes say so |
| ConfigMeaning.AppendAllIsFirsts | data/D-Bus_Installation/dbus-1.10.4/bus/config-parser.c:255-279 | Appending directories keeps those there and adds each new one where it first stands |
| ConfigMeaning.ToplevelAcceptedExactly | data/D-Bus_Installation/dbus-1.10.4/bus/config-parser.c:1814-2683 | A configuration without includes is accepted if and only if it is well formed, its events are a proper tree and some listen element has a text |
| ConfigGrammar.AcceptedExactly | data/D-Bus_Installation/dbus-1.10.4/bus/config-parser.c:573-2137 | The parser accepts exactly the events of trees that obey the document type: which element stands in which with which attributes, values with exactly one suitable text, white space elsewhere |
| ConfigGrammar.LoadedIsProper | data/D-Bus_Installation/dbus-1.10.4/bus/config-loader-expat.c:162-294 | Whatever it includes, a file that loads is well formed and such a tree |
| ConfigParser.BusConfigParser.FindDir | data/D-Bus_Installation/dbus-1.10.4/bus/config-parser.c:236-253 | Finds a directory if and only if it is in the list |
| ConfigParser.BusConfigParser.AppendLinksUnique | data/D-Bus_Installation/dbus-1.10.4/bus/config-parser.c:267-279 | Moves links over one by one, dropping those already there |
| ConfigParser.BusConfigParser.MergeContexts | data/D-Bus_Installation/dbus-1.10.4/bus/config-parser.c:193-233 | Included contexts override, the others stay |
| ConfigParser.BusConfigParser.MergeIncluded | data/D-Bus_Installation/dbus-1.10.4/bus/config-parser.c:282-352 | The moved lists, strings and flags are the merged settings |
| ConfigParser.BusConfigParser.StartOf | data/D-Bus_Installation/dbus-1.10.4/bus/config-parser.c:1814-1876 | Opens an element where it is allowed, with its effect on the settings |
| ConfigParser.BusConfigParser.ContentOf | data/D-Bus_Installation/dbus-1.10.4/bus/config-parser.c:2359-2658 | Text goes to the element on top, reading further files where it asks for them; which setting it changes is RunLeads |
| ConfigParser.BusConfigParser.EndOf | data/D-Bus_Installation/dbus-1.10.4/bus/config-parser.c:2015-2105 | Closes the element on top, requiring content and valid limits |
| ConfigParser.BusConfigParser.SetLimitOf | data/D-Bus_Installation/dbus-1.10.4/bus/config-parser.c:1879-2012 | A limit is accepted exactly if its name is known and its value in range |
| ConfigParser.BusConfigParser.IncludeFileOf | data/D-Bus_Installation/dbus-1.10.4/bus/config-parser.c:2139-2209 | Circular inclusion, missing file, failure and merging; the list of files is without repetition before and restored after |
| ConfigParser.BusConfigParser.ReadEvents | data/D-Bus_Installation/dbus-1.10.4/bus/config-loader-expat.c:60-158 | The events of a document, up to the first error, by a parser whose listed files are different |
| ConfigParser.BusConfigParser.IncludeDirectoryOf | data/D-Bus_Installation/dbus-1.10.4/bus/config-parser.c:2247-2356 | Reads every .conf file, passing over those that fail, and records a directory that could be read |
| ConfigParser.LoadToplevel | data/D-Bus_Installation/dbus-1.10.4/bus/config-loader-expat.c:162-294 | The whole load ends with the specified settings or error, on every input; what these are is ToplevelMeans and ConfigurationIsInline |
| TidStoreRuns.StoreIsMap | data/SAP_Doku/NCo_30_Tutorial/TidStore.cs:43-173 | Over every run, reopening included, the byte file with its free slots behaves like a map from ids to a status and a text, the last message since creation cut to 80 bytes and at its first NUL |
| TidStoreRuns.LastMessageReadsBack | data/SAP_Doku/NCo_30_Tutorial/TidStore.cs:124-170 | Over every run whose messages hold no NUL the text is the last message since the entry was created, cut to 80 bytes, after longer messages and in reused slots too |
| TidStoreRuns.ReopenKeeps | data/SAP_Doku/NCo_30_Tutorial/TidStore.cs:43-82 | Rebuilding from the bytes gives the same table and the same free slots |
| TidStoreRuns.SlotsPartition | data/SAP_Doku/NCo_30_Tutorial/TidStore.cs:105-151 | A slot is free if and only if no id uses it |
| TidStoreRuns.SurvivesReopen | data/SAP_Doku/NCo_30_Tutorial/TidStore.cs:75-81 | A new entry is found again after reopening if and only if its id does not start with NUL |
| TidStoreRuns.WrittenText | data/SAP_Doku/NCo_30_Tutorial/TidStore.cs:164-170 | A message without NUL is read back up to the first NUL as it was given, cut to 80 bytes, whatever longer message was there before; one with a NUL up to that |
| TidStoreRuns.ReadsBackExactlyLongMessages | data/SAP_Doku/NCo_30_Tutorial/TidStore.cs:175-193 | GetStatus returns the message just stored if and only if it fills the field |
| TidStoreRuns.ShortMessageIsPadded | data/SAP_Doku/NCo_30_Tutorial/TidStore.cs:186-190 | A concrete short message that does not come back as given |
| TidStoreTheory.CreateKeeps | data/SAP_Doku/NCo_30_Tutorial/TidStore.cs:105-136 | A new or reused slot keeps file, table and free stack consistent if and only if the id does not start with NUL |
| TidStoreTheory.DeleteKeeps | data/SAP_Doku/NCo_30_Tutorial/TidStore.cs:139-151 | So does giving a slot up |
| TidStoreTheory.SetStatusKeeps | data/SAP_Doku/NCo_30_Tutorial/TidStore.cs:153-173 | So does writing status and message |
| TidStoreTheory.SetStatusShape | data/SAP_Doku/NCo_30_Tutorial/TidStore.cs:153-173 | No other record is touched by a byte |
| TidStore.TransactionStore.ReadRecords | data/SAP_Doku/NCo_30_Tutorial/TidStore.cs:63-82 | The loop of the constructor reads the records and refuses a file that ends too early |
| TidStore.TransactionStore.Load | data/SAP_Doku/NCo_30_Tutorial/TidStore.cs:43-91 | A short file is started afresh, a longer one is read back |
| TidStore.TransactionStore.Create | data/SAP_Doku/NCo_30_Tutorial/TidStore.cs:105-136 | Returns the status of a known id, refuses one of the wrong length, else writes a fresh record in a free or new slot; the store stays consistent unless a new id starts with NUL |
| TidStore.TransactionStore.Delete | data/SAP_Doku/NCo_30_Tutorial/TidStore.cs:139-151 | Blanks the id and pushes the slot |
| TidStore.TransactionStore.UpdateStatus | data/SAP_Doku/NCo_30_Tutorial/TidStore.cs:153-173 | Writes status, message and terminator in steps that add up to the specified record |
| TidStore.TransactionStore.FindStatus | data/SAP_Doku/NCo_30_Tutorial/TidStore.cs:175-193 | All 80 bytes for a rolled-back unit, none otherwise |
| TidStore.TransactionStore.DecodeText | data/SAP_Doku/NCo_30_Tutorial/TidStore.cs:233-236 | Cuts at the first NUL |
| TidHandlerTheory.CommittedIsNotExecutedAgain | data/SAP_Doku/NCo_30_Tutorial/StepByStepServer.cs:471-560 | Once a commit follows a check, no later check asks for execution, across reopening, until the unit is confirmed, rolled back or has an error set |
| TidHandlerTheory.FailedIsExecutedAgain | data/SAP_Doku/NCo_30_Tutorial/StepByStepServer.cs:500-560 | A failed unit is asked for again, even after a confirmation, until it is committed |
| TidHandlerTheory.ErrorIsReported | data/SAP_Doku/NCo_30_Tutorial/StepByStepServer.cs:654-670 | An error set for a known unit is its status and text, across checks, confirmations and reopening, until the unit is committed, rolled back or given another error |
| TidStore.UnitHandler.Check | data/SAP_Doku/NCo_30_Tutorial/StepByStepServer.cs:573-597 | True exactly for new, merely created and rolled-back units |
| TidStore.UnitHandler.Confirm | data/SAP_Doku/NCo_30_Tutorial/StepByStepServer.cs:602-616 | Every known unit is deleted except rolled-back ones |
| TidStore.UnitHandler.Rollback | data/SAP_Doku/NCo_30_Tutorial/StepByStepServer.cs:640-652 | Marks a known unit; an unknown one lets the exception through |
| TidStore.UnitHandler.SetError | data/SAP_Doku/NCo_30_Tutorial/StepByStepServer.cs:555-563 | Rolls the unit back with the message; what is reported then is ErrorIsReported |
| TidStore.UnitHandler.GetUnitState | data/SAP_Doku/NCo_30_Tutorial/StepByStepServer.cs:654-670 | The state reported for each status, and for an unknown unit |
| DesktopFileTheory.RoundTrip | data/D-Bus_Installation/dbus-1.10.4/bus/desktop-file.c:601-619 | Printed sections with escaped names and values read back, section by section and line by line |
| DesktopFileTheory.PrintableExactly | data/D-Bus_Installation/dbus-1.10.4/bus/desktop-file.c:623-704 | Exactly the lists of named sections with key lines free of NUL can be read from some text, and printing them gives such a text |
| DesktopFileTheory.EveryNameIsValid | data/D-Bus_Installation/dbus-1.10.4/bus/desktop-file.c:379-393 | The check of section names lets every name pass |
| DesktopFileTheory.UnescapeEscape | data/D-Bus_Installation/dbus-1.10.4/bus/desktop-file.c:182-265 | Escaping is the inverse of unescape_string |
| DesktopFileTheory.NextLine | data/D-Bus_Installation/dbus-1.10.4/bus/desktop-file.c:363-376 | Every step moves on, so parsing ends on every input |
| DesktopFileTheory.ReadsLine | data/D-Bus_Installation/dbus-1.10.4/bus/desktop-file.c:453-578 | One printed line is read as its key and value |
| DesktopFileTheory.ReadsHeader | data/D-Bus_Installation/dbus-1.10.4/bus/desktop-file.c:396-450 | One printed header opens its section |
| DesktopFileOutcome.UnescapedExactly | data/D-Bus_Installation/dbus-1.10.4/bus/desktop-file.c:182-265 | A text is unescaped if and only if it is made of the spellings of the characters it yields: a character other than backslash and NUL, or one of the five codes; everything else is the one error |
| DesktopFileOutcome.LineOutcome | data/D-Bus_Installation/dbus-1.10.4/bus/desktop-file.c:363-376 | A line ends before its first line end, and the next begins after it, two characters on for a carriage return with newline |
| DesktopFileOutcome.BlankOutcome | data/D-Bus_Installation/dbus-1.10.4/bus/desktop-file.c:341-360 | A line is blank exactly if there are only blanks up to a newline, a NUL or the end |
| DesktopFileOutcome.HeaderOutcome | data/D-Bus_Installation/dbus-1.10.4/bus/desktop-file.c:396-450 | A header is a non-empty escaped name in brackets that end the line; which error it is otherwise |
| DesktopFileOutcome.EntryOutcome | data/D-Bus_Installation/dbus-1.10.4/bus/desktop-file.c:453-578 | Key, spaces, equals sign, spaces and an escaped value give that key with the unescaped value |
| DesktopFileOutcome.LocaleOutcome | data/D-Bus_Installation/dbus-1.10.4/bus/desktop-file.c:453-578 | A key followed by a bracket is passed over, whatever follows |
| DesktopFileOutcome.BadLineOutcome | data/D-Bus_Installation/dbus-1.10.4/bus/desktop-file.c:453-578 | A line without a key, or with nothing after it, is a syntax error; one with another character in place of the equals sign has invalid characters |
| DesktopFileOutcome.LineHasParts | data/D-Bus_Installation/dbus-1.10.4/bus/desktop-file.c:453-578 | Every line is key characters, spaces and a rest, so that the cases of entries, locales and errors cover all lines |
| DesktopFileOutcome.StepOutcome | data/D-Bus_Installation/dbus-1.10.4/bus/desktop-file.c:623-704 | Headers open a section, comments and blank lines are passed over, an entry goes to the end of the last section and is an error before the first |
| DesktopFile.BusDesktopFileParser.UnescapeText | data/D-Bus_Installation/dbus-1.10.4/bus/desktop-file.c:182-265 | The loop into a buffer one longer than the text stays within it and yields the unescaped text or the error |
| DesktopFile.BusDesktopFileParser.EolOf | data/D-Bus_Installation/dbus-1.10.4/bus/desktop-file.c:363-376 | Where the line ends, for all three kinds of line end |
| DesktopFile.BusDesktopFileParser.Blank | data/D-Bus_Installation/dbus-1.10.4/bus/desktop-file.c:341-360 | A line is blank up to its newline or a NUL |
| DesktopFile.BusDesktopFileParser.NewSection | data/D-Bus_Installation/dbus-1.10.4/bus/desktop-file.c:268-300 | Appends a section; the room doubled for it is enough and at most twice what is used |
| DesktopFile.BusDesktopFileParser.NewLine | data/D-Bus_Installation/dbus-1.10.4/bus/desktop-file.c:320-338 | Appends a line to the last section, with the same bound |
| DesktopFile.BusDesktopFileParser.ValidSectionName | data/D-Bus_Installation/dbus-1.10.4/bus/desktop-file.c:379-393 | The loop over the name is the check of each character |
| DesktopFile.BusDesktopFileParser.ParseSectionStart | data/D-Bus_Installation/dbus-1.10.4/bus/desktop-file.c:396-450 | Header syntax, escapes, name check and the new section |
| DesktopFile.BusDesktopFileParser.ParseKeyValue | data/D-Bus_Installation/dbus-1.10.4/bus/desktop-file.c:453-578 | Key, locale, spaces, equals sign, value and each error |
| DesktopFile.BusDesktopFileParser.Load | data/D-Bus_Installation/dbus-1.10.4/bus/desktop-file.c:679-704 | The loop yields what the text means, or the first error |
| DesktopFile.BusDesktopFileParser.GetRaw | data/D-Bus_Installation/dbus-1.10.4/bus/desktop-file.c:712-777 | The first section of the name and in it the first line of the key |
| AddressTheory.AddressesReadBackExactly | data/dbus-sharp-0.8.1/src/Address.cs:31-42 | Printed addresses joined by semicolons read back if and only if there is one and all are plain: no reserved character in methods and keys, no key "guid" |
| AddressTheory.EntryReadsBackExactly | data/dbus-sharp-0.8.1/src/AddressEntry.cs:18-124 | One entry, its GUID included, reads back in any property order if and only if it is plain |
| AddressTheory.UnescapeEscape | data/dbus-sharp-0.8.1/src/AddressEntry.cs:47-85 | Unescaping undoes escaping for all characters up to U+00FF |
| AddressTheory.FromHexToHex | data/dbus-sharp-0.8.1/src/Authentication.cs:496-537 | Hexadecimal text reads back to the same bytes |
| AddressTheory.ParsedIsPlain | data/dbus-sharp-0.8.1/src/AddressEntry.cs:88-124 | Whatever is parsed is plain |
| AddressOutcome.AddressOutcome | data/dbus-sharp-0.8.1/src/AddressEntry.cs:88-124 | No colon and too many colons exactly when the text has none or several; otherwise the transport stands before it and the properties, separated by commas, after it |
| AddressOutcome.PropertyOutcome | data/dbus-sharp-0.8.1/src/AddressEntry.cs:88-124 | Which error a property is refused with depends on its text alone: no equals sign, several, or a GUID that is none |
| AddressOutcome.PropertyMeans | data/dbus-sharp-0.8.1/src/AddressEntry.cs:88-124 | An accepted property sets its key to the unescaped value, or the GUID |
| AddressOutcome.PropertiesOutcome | data/dbus-sharp-0.8.1/src/AddressEntry.cs:88-124 | The first property that is refused decides about the error |
| AddressOutcome.ListOutcome | data/dbus-sharp-0.8.1/src/Address.cs:31-42 | One address for each part between semicolons; the first that is refused decides about the error |
| AddressOutcome.UuidOutcome | data/dbus-sharp-0.8.1/src/Authentication.cs:67-84 | A UUID is read from exactly 32 digits, two for each byte, the high one first |
| AddressOutcome.DigitOutcome | data/dbus-sharp-0.8.1/src/Authentication.cs:509-519 | The hexadecimal digits in either case and nothing else |
| AddressOutcome.EscapeOutcome | data/dbus-sharp-0.8.1/src/AddressEntry.cs:47-67 | An escaped text holds only portable characters and percent signs; a text is left as it is exactly if all its characters are portable |
| AddressOutcome.EncodedIsDecoded | data/dbus-sharp-0.8.1/src/AddressEntry.cs:69-85 | A complete encoding becomes its character, whatever stands around it |
| AddressOutcome.BrokenIsCopied | data/dbus-sharp-0.8.1/src/AddressEntry.cs:69-85 | A percent sign that starts no encoding is copied |
| ServerAddress.EscapeText | data/dbus-sharp-0.8.1/src/AddressEntry.cs:47-67 | The loop escapes every character but the safe ones and refuses those above U+00FF |
| ServerAddress.UnescapeText | data/dbus-sharp-0.8.1/src/AddressEntry.cs:69-85 | The loop decodes every complete escape and copies the rest |
| ServerAddress.HexOf | data/dbus-sharp-0.8.1/src/Authentication.cs:54-65 | Two lower-case digits per byte |
| ServerAddress.BytesOf | data/dbus-sharp-0.8.1/src/Authentication.cs:67-82 | The loop fills its buffer with the bytes, or refuses the text |
| ServerAddress.AddressEntry.ToText | data/dbus-sharp-0.8.1/src/AddressEntry.cs:18-45 | The text put together with its commas is the printed entry |
| ServerAddress.AddressEntry.FromText | data/dbus-sharp-0.8.1/src/AddressEntry.cs:88-124 | Colons, properties, equals signs and GUID, with each error |
| ServerAddress.ParseList | data/dbus-sharp-0.8.1/src/Address.cs:31-42 | Every entry between semicolons, or the first error |
| ServerBusTheory.CallGivesName | data/dbus-sharp-0.8.1/src/ServerBus.cs:193-213 | Call k hands out ":(1 + k div 2^31 mod (2^31 - 1)).(k mod 2^31)" |
| ServerBusTheory.NamesRepeatExactly | data/dbus-sharp-0.8.1/src/ServerBus.cs:193-213 | Two calls give the same name if and only if they are a multiple of 2^31 * (2^31 - 1) calls apart |
| ServerBusTheory.NextNameIsNew | data/dbus-sharp-0.8.1/src/ServerBus.cs:208-213 | In every reachable state, until that many calls, the next name is owned and carried by nobody |
| ServerBusTheory.RunKeeps | data/dbus-sharp-0.8.1/src/ServerBus.cs:54-224 | Over every run: owners and rule holders are current connections, no rule list is empty, a name with a colon belongs to the connection carrying it |
| ServerBusTheory.NoTraceLeft | data/dbus-sharp-0.8.1/src/ServerBus.cs:64-107 | A removed connection owns no name and holds no rule; everybody else keeps theirs |
| ServerBus.Bus.RemoveEach | data/dbus-sharp-0.8.1/src/ServerBus.cs:80-84 | Removing until nothing is removed takes out every occurrence |
| ServerBus.Bus.ForgetRules | data/dbus-sharp-0.8.1/src/ServerBus.cs:79-94 | Every rule list loses the connection, empty lists are dropped |
| ServerBus.Bus.Remove | data/dbus-sharp-0.8.1/src/ServerBus.cs:64-107 | The three loops together remove the connection from lists, names and rules |
| ServerBusTheory.AddOutcome | data/dbus-sharp-0.8.1/src/ServerBus.cs:54-62 | A new connection joins the others and nothing else changes |
| ServerBus.Bus.Request | data/dbus-sharp-0.8.1/src/ServerBus.cs:125-162 | The operation on the table of names; its answer and the owner afterwards are RequestOutcome |
| ServerBusTheory.RequestOutcome | data/dbus-sharp-0.8.1/src/ServerBus.cs:125-162 | Refused exactly for an empty, unique or reserved name; primary owner exactly for a free one, which the caller then owns; already owner and exists exactly for one of its own and of another, and nothing changes; no other name changes |
| ServerBusTheory.OwnerKeepsName | data/dbus-sharp-0.8.1/src/ServerBus.cs:64-188 | Over every run an owner keeps its name until it releases it or is removed; a unique name until all have been used |
| ServerBus.Bus.Release | data/dbus-sharp-0.8.1/src/ServerBus.cs:164-188 | Only the owner can release a name |
| ServerBusTheory.ReleaseOutcome | data/dbus-sharp-0.8.1/src/ServerBus.cs:164-188 | The owner of a name without a colon gives it up, nobody else does, and other names keep their owners |
| ServerBus.Bus.NewUniqueName | data/dbus-sharp-0.8.1/src/ServerBus.cs:193-213 | The counters step to the next call without leaving 32 bits |
| ServerBus.Bus.Greet | data/dbus-sharp-0.8.1/src/ServerBus.cs:215-232 | One unique name per connection, owned by it |
| ServerBusTheory.HelloOutcome | data/dbus-sharp-0.8.1/src/ServerBus.cs:215-232 | Once per connection, which then carries and owns the name of the next call; nothing else changes |
| ServerBusTheory.AddMatchOutcome | data/dbus-sharp-0.8.1/src/ServerBus.cs:405-419 | The caller holds the rule once more, everybody else as often as before |
| ServerBusTheory.RemoveMatchOutcome | data/dbus-sharp-0.8.1/src/ServerBus.cs:421-436 | The caller holds the rule once less, if it held it; other rules keep their holders |
| ServerBus.SubscribeThenUnsubscribe | data/dbus-sharp-0.8.1/src/ServerBus.cs:405-434 | A new rule added and removed by one caller leaves nothing behind |
| ServerBus.SubscribeThenUnsubscribeAmongOthers | data/dbus-sharp-0.8.1/src/ServerBus.cs:405-434 | A rule others hold keeps the same holders |
| ServerBus.Bus.Subscribe | data/dbus-sharp-0.8.1/src/ServerBus.cs:405-419 | A rule that parses is added as AddMatchOutcome says, another changes nothing |
| ServerBus.Bus.Unsubscribe | data/dbus-sharp-0.8.1/src/ServerBus.cs:421-436 | Fails exactly for a rule nobody holds, which changes nothing; otherwise the caller is taken out as RemoveMatchOutcome says |

## Left out
- Memory shortage, except where undoing is the point: the list link of `TransactionSend`, the hooks of pending replies and activations, and the retries of `PendingActivationFailed`.
- Memory addresses: since objects are numbers, a use after free would show as a missing key, but how C lays objects out is not modelled.
- Monitors, message capture, logging and the match-rule and service counts of a connection.
- A connection that disconnects or becomes a monitor in the middle of an open reply transaction, and reply transactions that overlap.
- Changes of the limits during a run: the maxima are constants in all invariants.
- The failure of looking up login information in `bus_connection_complete`, after which the user count stays raised; the lookup succeeds here.
- A user id that differs between completing and disconnecting: the id recorded at completion is used for both.
- The sorting of clock readings into seconds and microseconds: time is one number of microseconds, kept exactly.
- Child processes and their watches, and the activation timeout, whose handler only calls what `PendingActivationFailed` models.
- The replies and queued messages sent when a service appears; `ServiceStarted` covers what happens to the pending activation.
- ServiceCache.BusServiceCache.UpdateDesktopFileEntry: a file is looked at once; the original can see it change between two stat calls.
- The tables of all service directories are one table keyed by directory and file name, and a configuration reload, which builds a new cache, is not a step.
- The content of policy rules: the elements are read and nested as in the original, `isUsableRule` answers for their attributes, and the merging of policies is not modelled.
- The library's string-to-number conversion, `dirname` and path joining are parameters of the configuration model.
- ConfigInline.NestingIsBounded: counts path strings; a file reached by two spellings of its path is two files, as in the original, so the file system is assumed to know finitely many spellings.
- TidStore.TransactionStore.Create: needs the file to stay below 2 GiB, where positions still fit the original's integers.
- Ids and error texts of the store are bytes: an id is taken to be ASCII, and a UTF-8 character cut at byte 80 is not treated specially.
- `PrintOverview` and `PrintEntry`, of which only the decoding of the error text is modelled (`DecodeText`), and file locking and flushing.
- Line numbers in the error messages of service files, the size limit and the UTF-8 check before parsing.
- Characters of addresses outside the Unicode scalar values, and null strings.
- Signals, activation messages and message routing of the managed bus; match rules are compared as parsed values, and `RemoveConnection` is not entered a second time by a failed send.
- The introspection of object paths, the SASL exchange, the registry of names, message dispatch and the rest of the three programs.

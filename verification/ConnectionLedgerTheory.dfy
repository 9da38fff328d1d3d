/** The connection ledger of bus/connection.c, on values: the lists of completed
    and incomplete connections, their lengths, the per-user counts, the switch
    that makes the daemon accept connections, and the authentication timer. */
module ConnectionLedgerTheory {
  import opened BusTypes
  import opened Collections
  import opened ExpireList

  type Uid = int

  /** BusConnectionData, as far as the ledger goes; `at` is the time of the
      connection in microseconds. */
  datatype ConnectionData = ConnectionData(name: Option<string>, uid: Option<Uid>, at: int)

  datatype Ledger = Ledger(
    completed: seq<Connection>,
    incomplete: seq<Connection>,
    nCompleted: int,
    nIncomplete: int,
    completedByUser: map<Uid, int>,
    data: map<Connection, ConnectionData>,
    watchesEnabled: bool,
    expireTimeout: Timeout)

  datatype Limits = Limits(maxIncomplete: int, maxCompleted: int, maxPerUser: int, authTimeout: int)

  // ---- per-user counts -------------------------------------------------------------

  predicate BelongsTo(c: Connection, data: map<Connection, ConnectionData>, uid: Uid) {
    c in data && data[c].uid == Some(uid)
  }

  function UserTally(list: seq<Connection>, data: map<Connection, ConnectionData>, uid: Uid): nat {
    if list == [] then 0
    else UserTally(list[1..], data, uid) + if BelongsTo(list[0], data, uid) then 1 else 0
  }

  /** get_connections_for_uid */
  function CountForUid(byUser: map<Uid, int>, uid: Uid): int {
    if uid in byUser then byUser[uid] else 0
  }

  /** adjust_connections_for_uid */
  function AdjustForUid(byUser: map<Uid, int>, uid: Uid, adjustment: int): map<Uid, int> {
    var count := CountForUid(byUser, uid) + adjustment;
    if count == 0 then byUser - {uid} else byUser[uid := count]
  }

  function AdjustFor(byUser: map<Uid, int>, uid: Option<Uid>, adjustment: int): map<Uid, int> {
    if uid.None? then byUser else AdjustForUid(byUser, uid.value, adjustment)
  }

  ghost predicate CountsUsers(byUser: map<Uid, int>, list: seq<Connection>, data: map<Connection, ConnectionData>) {
    && (forall uid :: CountForUid(byUser, uid) == UserTally(list, data, uid))
    && (forall uid :: uid in byUser ==> byUser[uid] != 0)
  }

  lemma {:induction false} UserTallyAppend(a: seq<Connection>, b: seq<Connection>,
                                           data: map<Connection, ConnectionData>, uid: Uid)
    ensures UserTally(a + b, data, uid) == UserTally(a, data, uid) + UserTally(b, data, uid)
  {
    if a == [] {
      assert a + b == b;
    } else {
      assert (a + b)[1..] == a[1..] + b;
      UserTallyAppend(a[1..], b, data, uid);
    }
  }

  lemma {:induction false} UserTallyRemove(list: seq<Connection>, c: Connection,
                                           data: map<Connection, ConnectionData>, uid: Uid)
    requires c in list
    ensures UserTally(list, data, uid) ==
      UserTally(RemoveFirst(list, c), data, uid) + if BelongsTo(c, data, uid) then 1 else 0
  {
    if list[0] != c {
      UserTallyRemove(list[1..], c, data, uid);
      assert RemoveFirst(list, c)[1..] == RemoveFirst(list[1..], c);
    }
  }

  /** Data of connections outside the list does not matter. */
  lemma {:induction false} UserTallyFrame(list: seq<Connection>, data: map<Connection, ConnectionData>,
                                          data': map<Connection, ConnectionData>, uid: Uid)
    requires forall c :: c in list ==> c in data && c in data' && data[c] == data'[c]
    ensures UserTally(list, data, uid) == UserTally(list, data', uid)
  {
    if list != [] {
      UserTallyFrame(list[1..], data, data', uid);
    }
  }

  // ---- the authentication deadline -------------------------------------------------

  predicate IsStale(c: Connection, data: map<Connection, ConnectionData>, authTimeout: int, now: int) {
    c in data && now - data[c].at >= 1000 * authTimeout
  }

  /** A full scan: every connection that has not authenticated soon enough. */
  function Stale(list: seq<Connection>, data: map<Connection, ConnectionData>, authTimeout: int,
                 now: int): seq<Connection> {
    if list == [] then []
    else if IsStale(list[0], data, authTimeout, now) then [list[0]] + Stale(list[1..], data, authTimeout, now)
    else Stale(list[1..], data, authTimeout, now)
  }

  /** Index of the oldest connection that is still within its time. */
  function FirstYoung(list: seq<Connection>, data: map<Connection, ConnectionData>, authTimeout: int,
                      now: int): (k: nat)
    ensures k <= |list|
    ensures k < |list| ==> !IsStale(list[k], data, authTimeout, now)
  {
    if list == [] || !IsStale(list[0], data, authTimeout, now) then 0
    else 1 + FirstYoung(list[1..], data, authTimeout, now)
  }

  ghost predicate OldestFirst(list: seq<Connection>, data: map<Connection, ConnectionData>) {
    && (forall i :: 0 <= i < |list| ==> list[i] in data)
    && (forall i, j :: 0 <= i < j < |list| ==> data[list[i]].at <= data[list[j]].at)
  }

  lemma {:induction false} NoneStale(list: seq<Connection>, data: map<Connection, ConnectionData>,
                                     authTimeout: int, now: int)
    requires forall c :: c in list ==> !IsStale(c, data, authTimeout, now)
    ensures Stale(list, data, authTimeout, now) == []
  {
    if list != [] {
      NoneStale(list[1..], data, authTimeout, now);
    }
  }

  /** Stopping at the first young connection misses nothing. */
  lemma {:induction false} EarlyExitIsFullScan(list: seq<Connection>, data: map<Connection, ConnectionData>,
                                               authTimeout: int, now: int)
    requires OldestFirst(list, data)
    ensures Stale(list, data, authTimeout, now) == list[..FirstYoung(list, data, authTimeout, now)]
  {
    if list == [] {
    } else if IsStale(list[0], data, authTimeout, now) {
      var k := FirstYoung(list[1..], data, authTimeout, now);
      assert OldestFirst(list[1..], data);
      EarlyExitIsFullScan(list[1..], data, authTimeout, now);
      assert list[..k + 1] == [list[0]] + list[1..][..k];
    } else {
      forall c | c in list
        ensures !IsStale(c, data, authTimeout, now)
      {
        var i :| 0 <= i < |list| && list[i] == c;
      }
      NoneStale(list, data, authTimeout, now);
    }
  }

  /** The wait of the oldest survivor, -1 when there is none. */
  function NextCheck(list: seq<Connection>, data: map<Connection, ConnectionData>, authTimeout: int, now: int): int
    requires forall c :: c in list ==> c in data
  {
    var k := FirstYoung(list, data, authTimeout, now);
    if k == |list| then -1 else (1000 * authTimeout - (now - data[list[k]].at)) / 1000
  }

  /** How long a connection may still take, in whole milliseconds. */
  function WaitOf(c: Connection, data: map<Connection, ConnectionData>, authTimeout: int, now: int): int
    requires c in data
  {
    (1000 * authTimeout - (now - data[c].at)) / 1000
  }

  /** It is -1 exactly when every connection is stale; else it is the wait of some
      survivor, and no survivor's is shorter. */
  lemma NextCheckIsShortestWait(list: seq<Connection>, data: map<Connection, ConnectionData>,
                                authTimeout: int, now: int)
    requires OldestFirst(list, data)
    ensures forall c :: c in list ==> c in data
    ensures var next := NextCheck(list, data, authTimeout, now);
      && (next == -1 <==> forall c :: c in list ==> now - data[c].at >= 1000 * authTimeout)
      && (next != -1 ==>
            exists c :: c in list && now - data[c].at < 1000 * authTimeout && next == WaitOf(c, data, authTimeout, now))
      && (forall c :: c in list && now - data[c].at < 1000 * authTimeout ==> next <= WaitOf(c, data, authTimeout, now))
  {
    var k := FirstYoung(list, data, authTimeout, now);
    AllBeforeAreStale(list, data, authTimeout, now);
    forall c | c in list
      ensures c in data
      ensures now - data[c].at < 1000 * authTimeout ==> k < |list| && data[list[k]].at <= data[c].at
    {
      var i :| 0 <= i < |list| && list[i] == c;
    }
    if k < |list| {
      assert list[k] in list;
    }
  }

  lemma {:induction false} AllBeforeAreStale(list: seq<Connection>, data: map<Connection, ConnectionData>,
                                             authTimeout: int, now: int)
    ensures var k := FirstYoung(list, data, authTimeout, now);
      forall i :: 0 <= i < k ==> IsStale(list[i], data, authTimeout, now)
  {
    if list != [] && IsStale(list[0], data, authTimeout, now) {
      AllBeforeAreStale(list[1..], data, authTimeout, now);
    }
  }

  // ---- steps ------------------------------------------------------------------------

  /** bus_context_check_all_watches */
  function CheckWatches(s: Ledger, limits: Limits): Ledger {
    s.(watchesEnabled := s.nIncomplete < limits.maxIncomplete)
  }

  function Rearm(s: Ledger, limits: Limits, now: int): Ledger
    requires forall c :: c in s.incomplete ==> c in s.data
  {
    s.(expireTimeout := SetInterval(s.expireTimeout, NextCheck(s.incomplete, s.data, limits.authTimeout, now)))
  }

  /** expire_incomplete_timeout; the main loop has just set the timer's base. */
  function Fire(s: Ledger, limits: Limits, base: int, now: int): Ledger
    requires forall c :: c in s.incomplete ==> c in s.data
  {
    Rearm(s.(expireTimeout := s.expireTimeout.(base := base)), limits, now)
  }

  function Setup(s: Ledger, c: Connection, limits: Limits, now: int): Ledger
    requires forall d :: d in s.incomplete ==> d in s.data
  {
    var s' := s.(data := s.data[c := ConnectionData(None, None, now)],
                 incomplete := s.incomplete + [c],
                 nIncomplete := s.nIncomplete + 1);
    CheckWatches(Rearm(s', limits, now), limits)
  }

  function Complete(s: Ledger, c: Connection, name: string, uid: Option<Uid>, limits: Limits, now: int): Ledger
    requires c in s.data && forall d :: d in RemoveFirst(s.incomplete, c) ==> d in s.data
  {
    var s' := s.(data := s.data[c := s.data[c].(name := Some(name), uid := uid)],
                 completedByUser := AdjustFor(s.completedByUser, uid, 1),
                 incomplete := RemoveFirst(s.incomplete, c), nIncomplete := s.nIncomplete - 1,
                 completed := s.completed + [c], nCompleted := s.nCompleted + 1);
    Rearm(CheckWatches(s', limits), limits, now)
  }

  function Depart(s: Ledger, c: Connection, limits: Limits): Ledger
    requires c in s.data
  {
    var s' := s.(data := s.data - {c});
    if s.data[c].name.Some? then
      s'.(completed := RemoveFirst(s.completed, c), nCompleted := s.nCompleted - 1,
          completedByUser := AdjustFor(s.completedByUser, s.data[c].uid, -1))
    else
      CheckWatches(s'.(incomplete := RemoveFirst(s.incomplete, c), nIncomplete := s.nIncomplete - 1), limits)
  }

  /** bus_connections_check_limits */
  predicate WithinLimits(s: Ledger, uid: Option<Uid>, limits: Limits) {
    && s.nCompleted < limits.maxCompleted
    && (uid.Some? ==> CountForUid(s.completedByUser, uid.value) < limits.maxPerUser)
  }

  // ---- the ledger agrees with itself -----------------------------------------------

  /** The lists: no repetition, disjoint, their lengths counted, a name exactly
      for the completed connections. */
  ghost predicate ListsAgree(s: Ledger) {
    && NoDuplicates(s.completed) && NoDuplicates(s.incomplete)
    && (forall c :: c in s.data <==> c in s.completed || c in s.incomplete)
    && (forall c :: c in s.data ==> (s.data[c].name.Some? <==> c in s.completed))
    && (forall c :: c in s.incomplete ==> c !in s.completed)
    && s.nCompleted == |s.completed| && s.nIncomplete == |s.incomplete|
  }

  predicate SwitchAgrees(s: Ledger, limits: Limits) {
    s.nIncomplete <= limits.maxIncomplete && (s.watchesEnabled <==> s.nIncomplete < limits.maxIncomplete)
  }

  ghost predicate Consistent(s: Ledger, limits: Limits, clock: int) {
    && ListsAgree(s)
    && CountsUsers(s.completedByUser, s.completed, s.data)
    && SwitchAgrees(s, limits)
    && OldestFirst(s.incomplete, s.data)
    && (forall c :: c in s.data ==> s.data[c].at <= clock)
  }

  const START := Ledger([], [], 0, 0, map[], map[], true, Timeout(false, 100, 0))

  lemma AppendKeepsOldestFirst(list: seq<Connection>, c: Connection, data: map<Connection, ConnectionData>, now: int)
    requires OldestFirst(list, data) && c !in list
    requires forall d :: d in list ==> data[d].at <= now
    ensures OldestFirst(list + [c], data[c := ConnectionData(None, None, now)])
  {
    var list', data' := list + [c], data[c := ConnectionData(None, None, now)];
    forall i | 0 <= i < |list|
      ensures list'[i] == list[i] && list[i] != c && data'[list'[i]] == data[list[i]] && data[list[i]].at <= now
    {
      assert list[i] in list;
    }
  }

  lemma SetupStaysConsistent(s: Ledger, c: Connection, limits: Limits, clock: int, now: int)
    requires Consistent(s, limits, clock) && c !in s.data && s.watchesEnabled && clock <= now
    ensures Consistent(Setup(s, c, limits, now), limits, now)
  {
    var s' := Setup(s, c, limits, now);
    AppendKeepsOldestFirst(s.incomplete, c, s.data, now);
    assert CountsUsers(s'.completedByUser, s'.completed, s'.data) by {
      forall uid {
        UserTallyFrame(s.completed, s.data, s'.data, uid);
      }
    }
    assert ListsAgree(s');
  }

  lemma CompleteCountsUsers(s: Ledger, c: Connection, name: string, uid: Option<Uid>,
                            data: map<Connection, ConnectionData>)
    requires CountsUsers(s.completedByUser, s.completed, s.data) && c !in s.completed && c in s.data
    requires forall d :: d in s.completed ==> d in s.data
    requires data == s.data[c := s.data[c].(name := Some(name), uid := uid)]
    ensures CountsUsers(AdjustFor(s.completedByUser, uid, 1), s.completed + [c], data)
  {
    forall u
      ensures UserTally(s.completed + [c], data, u) ==
        UserTally(s.completed, s.data, u) + if uid == Some(u) then 1 else 0
    {
      UserTallyAppend(s.completed, [c], data, u);
      UserTallyFrame(s.completed, s.data, data, u);
      assert [c][1..] == [];
    }
  }

  lemma DisconnectCountsUsers(s: Ledger, c: Connection)
    requires CountsUsers(s.completedByUser, s.completed, s.data) && c in s.completed && NoDuplicates(s.completed)
    requires forall d :: d in s.completed ==> d in s.data
    ensures CountsUsers(AdjustFor(s.completedByUser, s.data[c].uid, -1), RemoveFirst(s.completed, c), s.data - {c})
  {
    RemoveFirstNoDuplicates(s.completed, c);
    RemoveFirstMembers(s.completed, c);
    forall u
      ensures UserTally(RemoveFirst(s.completed, c), s.data - {c}, u) ==
        UserTally(s.completed, s.data, u) - if s.data[c].uid == Some(u) then 1 else 0
    {
      UserTallyRemove(s.completed, c, s.data, u);
      UserTallyFrame(RemoveFirst(s.completed, c), s.data, s.data - {c}, u);
    }
  }

  /** Taking one connection out keeps the rest oldest first. */
  lemma {:induction false} RemoveKeepsOldestFirst(list: seq<Connection>, c: Connection,
      data: map<Connection, ConnectionData>)
    requires OldestFirst(list, data) && NoDuplicates(list)
    ensures OldestFirst(RemoveFirst(list, c), data - {c})
  {
    RemoveFirstNoDuplicates(list, c);
    RemoveFirstMembers(list, c);
    if list != [] {
      assert OldestFirst(list[1..], data) && NoDuplicates(list[1..]);
      RemoveKeepsOldestFirst(list[1..], c, data);
      var rest := RemoveFirst(list[1..], c);
      RemoveFirstMembers(list[1..], c);
      if list[0] != c {
        hide RemoveFirst, NoDuplicates;
        forall j | 0 <= j < |rest|
          ensures data[list[0]].at <= data[rest[j]].at
        {
          assert rest[j] in list[1..];
          var m :| 0 <= m < |list[1..]| && list[1..][m] == rest[j];
          assert list[m + 1] == rest[j];
        }
      }
    }
  }

  lemma OldestFirstFrame(list: seq<Connection>, data: map<Connection, ConnectionData>,
                         data': map<Connection, ConnectionData>)
    requires OldestFirst(list, data)
    requires forall c :: c in list ==> c in data' && data'[c] == data[c]
    ensures OldestFirst(list, data')
  {
    forall i | 0 <= i < |list|
      ensures list[i] in data' && data'[list[i]] == data[list[i]]
    {
      var c := list[i];
      assert c in list && c in data';
    }
  }

  lemma CompleteKeepsLists(s: Ledger, c: Connection, name: string, uid: Option<Uid>, limits: Limits, now: int)
    requires ListsAgree(s) && c in s.incomplete && forall d :: d in RemoveFirst(s.incomplete, c) ==> d in s.data
    ensures ListsAgree(Complete(s, c, name, uid, limits, now))
  {
    RemoveFirstMembers(s.incomplete, c);
    RemoveFirstNoDuplicates(s.incomplete, c);
  }

  lemma CompleteStaysConsistent(s: Ledger, c: Connection, name: string, uid: Option<Uid>, limits: Limits,
                                clock: int, now: int)
    requires Consistent(s, limits, clock) && c in s.incomplete && clock <= now
    ensures forall d :: d in RemoveFirst(s.incomplete, c) ==> d in s.data
    ensures Consistent(Complete(s, c, name, uid, limits, now), limits, now)
  {
    RemoveFirstMembers(s.incomplete, c);
    RemoveFirstNoDuplicates(s.incomplete, c);
    var s' := Complete(s, c, name, uid, limits, now);
    CompleteKeepsLists(s, c, name, uid, limits, now);
    CompleteCountsUsers(s, c, name, uid, s'.data);
    RemoveKeepsOldestFirst(s.incomplete, c, s.data);
    OldestFirstFrame(s'.incomplete, s.data - {c}, s'.data);
    hide ListsAgree, CountsUsers, OldestFirst;
  }

  lemma DisconnectKeepsLists(s: Ledger, c: Connection, limits: Limits)
    requires ListsAgree(s) && c in s.data
    ensures ListsAgree(Depart(s, c, limits))
  {
    RemoveFirstMembers(s.completed, c);
    RemoveFirstMembers(s.incomplete, c);
    if c in s.completed {
      RemoveFirstNoDuplicates(s.completed, c);
    } else {
      RemoveFirstNoDuplicates(s.incomplete, c);
    }
  }

  lemma DisconnectKeepsUsers(s: Ledger, c: Connection, limits: Limits)
    requires ListsAgree(s) && c in s.data && CountsUsers(s.completedByUser, s.completed, s.data)
    ensures var s' := Depart(s, c, limits); CountsUsers(s'.completedByUser, s'.completed, s'.data)
  {
    if c in s.completed {
      DisconnectCountsUsers(s, c);
    } else {
      forall uid {
        UserTallyFrame(s.completed, s.data, s.data - {c}, uid);
      }
    }
  }

  lemma DisconnectStaysConsistent(s: Ledger, c: Connection, limits: Limits, clock: int)
    requires Consistent(s, limits, clock) && c in s.data
    ensures Consistent(Depart(s, c, limits), limits, clock)
  {
    DisconnectKeepsLists(s, c, limits);
    DisconnectKeepsUsers(s, c, limits);
    if c in s.incomplete {
      RemoveKeepsOldestFirst(s.incomplete, c, s.data);
    } else {
      OldestFirstFrame(s.incomplete, s.data, s.data - {c});
    }
    assert s.data[c].name.Some? <==> c in s.completed;
    assert Depart(s, c, limits).nIncomplete <= s.nIncomplete;
    hide ListsAgree, CountsUsers, OldestFirst;
  }

  /** Completing only after a successful limits check keeps both limits. */
  lemma AdmissionKeepsLimits(s: Ledger, c: Connection, name: string, uid: Option<Uid>, limits: Limits,
                             clock: int, now: int, user: Uid)
    requires Consistent(s, limits, clock) && c in s.incomplete && clock <= now
    requires s.nCompleted <= limits.maxCompleted && UserTally(s.completed, s.data, user) <= limits.maxPerUser
    requires WithinLimits(s, uid, limits)
    ensures forall d :: d in RemoveFirst(s.incomplete, c) ==> d in s.data
    ensures var s' := Complete(s, c, name, uid, limits, now);
      s'.nCompleted <= limits.maxCompleted && UserTally(s'.completed, s'.data, user) <= limits.maxPerUser
  {
    CompleteStaysConsistent(s, c, name, uid, limits, clock, now);
    var s' := Complete(s, c, name, uid, limits, now);
    assert CountForUid(s'.completedByUser, user) == UserTally(s'.completed, s'.data, user);
    assert CountForUid(s.completedByUser, user) == UserTally(s.completed, s.data, user);
  }

  // ---- runs -----------------------------------------------------------------------------

  datatype Event =
    | Accepted(conn: Connection, at: int)
    | Completed(conn: Connection, name: string, uid: Option<Uid>, at: int)
    | Disconnected(conn: Connection)
    | TimerFired(base: int, at: int)

  /** A connection is only accepted while the listening sockets are watched, and
      the driver checks the limits before it completes a connection. */
  ghost predicate Enabled(s: Ledger, clock: int, e: Event, limits: Limits) {
    match e
    case Accepted(c, at) => c !in s.data && s.watchesEnabled && clock <= at
    case Completed(c, _, uid, at) => c in s.incomplete && clock <= at && WithinLimits(s, uid, limits)
    case Disconnected(c) => c in s.data
    case TimerFired(base, at) => clock <= at && s.expireTimeout.base <= base <= at
  }

  ghost predicate Step(s: Ledger, clock: int, e: Event, s': Ledger, clock': int, limits: Limits) {
    Enabled(s, clock, e, limits) && (forall d :: d in s.incomplete ==> d in s.data) &&
    match e
    case Accepted(c, at) => s' == Setup(s, c, limits, at) && clock' == at
    case Completed(c, name, uid, at) =>
      (forall d :: d in RemoveFirst(s.incomplete, c) ==> d in s.data) &&
      s' == Complete(s, c, name, uid, limits, at) && clock' == at
    case Disconnected(c) => s' == Depart(s, c, limits) && clock' == clock
    case TimerFired(base, at) => s' == Fire(s, limits, base, at) && clock' == at
  }

  ghost predicate IsRun(states: seq<Ledger>, clocks: seq<int>, events: seq<Event>, limits: Limits) {
    && |states| == |clocks| == |events| + 1
    && states[0] == START && clocks[0] == 0
    && forall k :: 0 <= k < |events| ==> Step(states[k], clocks[k], events[k], states[k + 1], clocks[k + 1], limits)
  }

  lemma StepStaysConsistent(s: Ledger, clock: int, e: Event, s': Ledger, clock': int, limits: Limits)
    requires Consistent(s, limits, clock) && Step(s, clock, e, s', clock', limits)
    ensures Consistent(s', limits, clock')
  {
    match e
    case Accepted(c, at) => SetupStaysConsistent(s, c, limits, clock, at);
    case Completed(c, name, uid, at) => CompleteStaysConsistent(s, c, name, uid, limits, clock, at);
    case Disconnected(c) => DisconnectStaysConsistent(s, c, limits, clock);
    case TimerFired(base, at) =>
  }

  /** Over every run, with a positive maximum of incomplete connections, the
      lists, counters, names, per-user counts and the accept switch agree. */
  lemma {:induction false} RunStaysConsistent(states: seq<Ledger>, clocks: seq<int>, events: seq<Event>,
                                              limits: Limits, k: nat)
    requires IsRun(states, clocks, events, limits) && k < |states| && limits.maxIncomplete > 0
    ensures Consistent(states[k], limits, clocks[k])
  {
    if k > 0 {
      RunStaysConsistent(states, clocks, events, limits, k - 1);
      StepStaysConsistent(states[k - 1], clocks[k - 1], events[k - 1], states[k], clocks[k], limits);
    }
  }

  ghost predicate Admitted(s: Ledger, limits: Limits, user: Uid) {
    s.nCompleted <= limits.maxCompleted && UserTally(s.completed, s.data, user) <= limits.maxPerUser
  }

  lemma StepKeepsLimits(s: Ledger, clock: int, e: Event, s': Ledger, clock': int, limits: Limits, user: Uid)
    requires Consistent(s, limits, clock) && Step(s, clock, e, s', clock', limits) && Admitted(s, limits, user)
    ensures Admitted(s', limits, user)
  {
    if e.Completed? {
      AdmissionKeepsLimits(s, e.conn, e.name, e.uid, limits, clock, e.at, user);
    } else {
      StepStaysConsistent(s, clock, e, s', clock', limits);
      OthersCountNoMore(s, clock, e, s', clock', limits, user);
      assert CountForUid(s.completedByUser, user) == UserTally(s.completed, s.data, user);
      assert CountForUid(s'.completedByUser, user) == UserTally(s'.completed, s'.data, user);
      hide Step, ListsAgree, OldestFirst;
    }
  }

  lemma OthersCountNoMore(s: Ledger, clock: int, e: Event, s': Ledger, clock': int, limits: Limits, user: Uid)
    requires Consistent(s, limits, clock) && Step(s, clock, e, s', clock', limits) && !e.Completed?
    ensures s'.nCompleted <= s.nCompleted
    ensures CountForUid(s'.completedByUser, user) <= CountForUid(s.completedByUser, user)
  {
    hide ListsAgree, OldestFirst;
  }

  /** Over every run neither the number of completed connections nor that of any
      user's exceeds its limit. */
  lemma {:induction false} RunKeepsLimits(states: seq<Ledger>, clocks: seq<int>, events: seq<Event>,
                                          limits: Limits, k: nat, user: Uid)
    requires IsRun(states, clocks, events, limits) && k < |states|
    requires limits.maxIncomplete > 0 && limits.maxCompleted >= 0 && limits.maxPerUser >= 0
    ensures states[k].nCompleted <= limits.maxCompleted
    ensures UserTally(states[k].completed, states[k].data, user) <= limits.maxPerUser
  {
    if k > 0 {
      RunKeepsLimits(states, clocks, events, limits, k - 1, user);
      RunStaysConsistent(states, clocks, events, limits, k - 1);
      StepKeepsLimits(states[k - 1], clocks[k - 1], events[k - 1], states[k], clocks[k], limits, user);
    }
  }

  // ---- the authentication timer over runs --------------------------------------------------

  /** Every incomplete connection has had its time, and was told to close when that
      was found, or the timer fires no later than its deadline. */
  ghost predicate TimerCovers(s: Ledger, limits: Limits, clock: int) {
    && s.expireTimeout.base <= clock
    && forall c :: c in s.incomplete ==> c in s.data && OnTime(s.expireTimeout, s.data[c].at, limits.authTimeout, clock)
  }

  predicate OnTime(t: Timeout, at: int, authTimeout: int, clock: int) {
    clock - at >= 1000 * authTimeout || (t.enabled && t.FiresAt() <= at + 1000 * authTimeout)
  }

  lemma RearmCovers(s: Ledger, limits: Limits, now: int)
    requires OldestFirst(s.incomplete, s.data) && s.expireTimeout.base <= now
    ensures forall c :: c in s.incomplete ==> c in s.data
    ensures TimerCovers(Rearm(s, limits, now), limits, now)
  {
    NextCheckIsShortestWait(s.incomplete, s.data, limits.authTimeout, now);
    var next := NextCheck(s.incomplete, s.data, limits.authTimeout, now);
    forall c | c in s.incomplete && now - s.data[c].at < 1000 * limits.authTimeout
      ensures 0 <= next <= WaitOf(c, s.data, limits.authTimeout, now)
    {
    }
    hide OldestFirst, NextCheck;
  }

  lemma StepKeepsTimer(s: Ledger, clock: int, e: Event, s': Ledger, clock': int, limits: Limits)
    requires Consistent(s, limits, clock) && TimerCovers(s, limits, clock) && Step(s, clock, e, s', clock', limits)
    ensures TimerCovers(s', limits, clock')
  {
    StepStaysConsistent(s, clock, e, s', clock', limits);
    match e
    case Accepted(c, at) =>
      RearmCovers(s', limits, at);
      AcceptedIsRearmed(s, c, limits, at);
    case Completed(c, name, uid, at) =>
      RearmCovers(s', limits, at);
      CompletedIsRearmed(s, c, name, uid, limits, at);
    case Disconnected(c) => FewerAreOnTime(s, c, limits, clock);
    case TimerFired(base, at) => RearmCovers(s.(expireTimeout := s.expireTimeout.(base := base)), limits, at);
    hide OldestFirst, ListsAgree, CountsUsers, Setup, Complete, Depart, OnTime;
  }

  /** Rearming again at the same time changes nothing. */
  lemma AcceptedIsRearmed(s: Ledger, c: Connection, limits: Limits, now: int)
    requires forall d :: d in s.incomplete ==> d in s.data
    ensures var s' := Setup(s, c, limits, now);
      && (forall d :: d in s'.incomplete ==> d in s'.data)
      && Rearm(s', limits, now) == s' && s'.expireTimeout.base == s.expireTimeout.base
  {
  }

  lemma CompletedIsRearmed(s: Ledger, c: Connection, name: string, uid: Option<Uid>, limits: Limits, now: int)
    requires c in s.data && forall d :: d in RemoveFirst(s.incomplete, c) ==> d in s.data
    ensures var s' := Complete(s, c, name, uid, limits, now);
      && (forall d :: d in s'.incomplete ==> d in s'.data)
      && Rearm(s', limits, now) == s' && s'.expireTimeout.base == s.expireTimeout.base
  {
  }

  lemma FewerAreOnTime(s: Ledger, c: Connection, limits: Limits, clock: int)
    requires Consistent(s, limits, clock) && TimerCovers(s, limits, clock) && c in s.data
    ensures TimerCovers(Depart(s, c, limits), limits, clock)
  {
    RemoveFirstMembers(s.incomplete, c);
    RemoveFirstNoDuplicates(s.incomplete, c);
    hide OnTime, CountsUsers, OldestFirst;
  }

  /** Over every run an incomplete connection has either had its time, or the timer
      is enabled and fires no later than the connection's deadline. */
  lemma {:induction false} RunKeepsTimer(states: seq<Ledger>, clocks: seq<int>, events: seq<Event>,
                                         limits: Limits, k: nat, c: Connection)
    requires IsRun(states, clocks, events, limits) && k < |states| && limits.maxIncomplete > 0 &&
      c in states[k].incomplete
    ensures c in states[k].data
    ensures var t, deadline := states[k].expireTimeout, states[k].data[c].at + 1000 * limits.authTimeout;
      deadline <= clocks[k] || (t.enabled && t.FiresAt() <= deadline)
  {
    RunCoversTimer(states, clocks, events, limits, k);
    assert OnTime(states[k].expireTimeout, states[k].data[c].at, limits.authTimeout, clocks[k]);
  }

  lemma {:induction false} RunCoversTimer(states: seq<Ledger>, clocks: seq<int>, events: seq<Event>,
                                          limits: Limits, k: nat)
    requires IsRun(states, clocks, events, limits) && k < |states| && limits.maxIncomplete > 0
    ensures TimerCovers(states[k], limits, clocks[k])
  {
    if k > 0 {
      RunCoversTimer(states, clocks, events, limits, k - 1);
      RunStaysConsistent(states, clocks, events, limits, k - 1);
      StepKeepsTimer(states[k - 1], clocks[k - 1], events[k - 1], states[k], clocks[k], limits);
    }
  }

  // ---- what each step does --------------------------------------------------------------------

  /** A new connection is incomplete, without name or user, from now on. */
  lemma SetupAdmits(s: Ledger, c: Connection, limits: Limits, clock: int, now: int)
    requires Consistent(s, limits, clock) && c !in s.data
    ensures forall d :: d in s.incomplete ==> d in s.data
    ensures var s' := Setup(s, c, limits, now);
      && s'.incomplete == s.incomplete + [c] && s'.completed == s.completed
      && s'.data == s.data[c := ConnectionData(None, None, now)]
  {
    hide CountsUsers;
  }

  /** A completed connection has its name and user and leaves the incomplete ones. */
  lemma CompleteMoves(s: Ledger, c: Connection, name: string, uid: Option<Uid>, limits: Limits, clock: int, now: int)
    requires Consistent(s, limits, clock) && c in s.incomplete && clock <= now
    ensures forall d :: d in RemoveFirst(s.incomplete, c) ==> d in s.data
    ensures var s' := Complete(s, c, name, uid, limits, now);
      && s'.completed == s.completed + [c] && c in s.data
      && s'.data == s.data[c := ConnectionData(Some(name), uid, s.data[c].at)]
      && (forall d :: d in s'.incomplete <==> d in s.incomplete && d != c)
  {
    CompleteStaysConsistent(s, c, name, uid, limits, clock, now);
    RemoveFirstMembers(s.incomplete, c);
    RemoveFirstNoDuplicates(s.incomplete, c);
    hide CountsUsers, OldestFirst;
  }

  /** A connection that has gone is in no list, and the others stay where they were. */
  lemma DepartForgets(s: Ledger, c: Connection, limits: Limits, clock: int)
    requires Consistent(s, limits, clock) && c in s.data
    ensures var s' := Depart(s, c, limits);
      && s'.data == s.data - {c} && s'.expireTimeout == s.expireTimeout
      && (forall d :: d in s'.completed <==> d in s.completed && d != c)
      && (forall d :: d in s'.incomplete <==> d in s.incomplete && d != c)
  {
    RemoveFirstMembers(s.incomplete, c);
    RemoveFirstMembers(s.completed, c);
    if c in s.completed {
      RemoveFirstNoDuplicates(s.completed, c);
    } else {
      RemoveFirstNoDuplicates(s.incomplete, c);
    }
    hide CountsUsers, OldestFirst;
  }
}

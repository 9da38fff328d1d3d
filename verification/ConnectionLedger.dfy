/** The connection bookkeeping of bus/connection.c and the accept switch of
    bus/bus.c, over fields that are changed in place. */
module ConnectionLedger {
  import opened BusTypes
  import opened Collections
  import opened ExpireList
  import opened ConnectionLedgerTheory

  class BusConnections {
    var completed: seq<Connection>
    var incomplete: seq<Connection>
    var nCompleted: int
    var nIncomplete: int
    var completedByUser: map<Uid, int>
    var data: map<Connection, ConnectionData>
    var watchesEnabled: bool
    var expireTimeout: Timeout
    const limits: Limits

    function Snapshot(): Ledger
      reads this
    {
      Ledger(completed, incomplete, nCompleted, nIncomplete, completedByUser, data, watchesEnabled, expireTimeout)
    }

    ghost predicate Valid(clock: int)
      reads this
    {
      Consistent(Snapshot(), limits, clock)
    }

    constructor (limits: Limits)
      requires limits.maxIncomplete > 0
      ensures Valid(0) && Snapshot() == ConnectionLedgerTheory.START && this.limits == limits
    {
      completed, incomplete, nCompleted, nIncomplete := [], [], 0, 0;
      completedByUser, data := map[], map[];
      watchesEnabled, expireTimeout := true, Timeout(false, 100, 0);
      this.limits := limits;
    }

    /** bus_context_check_all_watches */
    method CheckAllWatches()
      modifies `watchesEnabled
      ensures watchesEnabled <==> nIncomplete < limits.maxIncomplete
    {
      var enabled := true;
      if nIncomplete >= limits.maxIncomplete {
        enabled := false;
      }
      if watchesEnabled == enabled {
        return;
      }
      watchesEnabled := enabled;
    }

    /** The walk of bus_connections_expire_incomplete: stops at the first
        connection that is young enough. */
    static method CloseStale(list: seq<Connection>, data: map<Connection, ConnectionData>, authTimeout: int, now: int)
      returns (closed: seq<Connection>, next: int)
      requires OldestFirst(list, data)
      ensures closed == Stale(list, data, authTimeout, now)
      ensures (forall c :: c in list ==> c in data) && next == NextCheck(list, data, authTimeout, now)
    {
      next, closed := -1, [];
      var link := 0;
      forall c | c in list
        ensures c in data
      {
        var i :| 0 <= i < |list| && list[i] == c;
      }
      while link < |list|
        invariant 0 <= link <= |list| && closed == list[..link] && next == -1
        invariant FirstYoung(list, data, authTimeout, now) == link + FirstYoung(list[link..], data, authTimeout, now)
      {
        assert list[link..][1..] == list[link + 1..];
        var elapsed := now - data[list[link]].at;
        if elapsed >= 1000 * authTimeout {
          closed := closed + [list[link]];
        } else {
          next := (1000 * authTimeout - elapsed) / 1000;
          break;
        }
        link := link + 1;
      }
      EarlyExitIsFullScan(list, data, authTimeout, now);
    }

    /** bus_connections_expire_incomplete; the returned connections are told to close. */
    method ExpireIncomplete(now: int) returns (closed: seq<Connection>)
      requires OldestFirst(incomplete, data)
      modifies `expireTimeout
      ensures closed == Stale(incomplete, data, limits.authTimeout, now)
      ensures forall c :: c in incomplete ==> c in data
      ensures expireTimeout == SetInterval(old(expireTimeout), NextCheck(incomplete, data, limits.authTimeout, now))
    {
      var next;
      closed, next := CloseStale(incomplete, data, limits.authTimeout, now);
      expireTimeout := SetInterval(expireTimeout, next);
    }

    /** expire_incomplete_timeout: the main loop has just set the timer's base. */
    method HandleExpireTimeout(base: int, now: int) returns (closed: seq<Connection>)
      requires OldestFirst(incomplete, data)
      modifies `expireTimeout
      ensures closed == Stale(incomplete, data, limits.authTimeout, now)
      ensures forall c :: c in incomplete ==> c in data
      ensures Snapshot() == Fire(old(Snapshot()), limits, base, now)
    {
      expireTimeout := expireTimeout.(base := base);
      closed := ExpireIncomplete(now);
    }

    /** bus_connections_setup_connection, once nothing can fail any more. */
    method SetupConnection(c: Connection, clock: int, now: int) returns (closed: seq<Connection>)
      requires Valid(clock) && c !in data && watchesEnabled && clock <= now
      modifies this
      ensures Valid(now) && Snapshot() == Setup(old(Snapshot()), c, limits, now)
      ensures closed == Stale(incomplete, data, limits.authTimeout, now)
    {
      ghost var before := Snapshot();
      SetupStaysConsistent(before, c, limits, clock, now);
      AppendKeepsOldestFirst(incomplete, c, data, now);
      data := data[c := ConnectionData(None, None, now)];
      incomplete := incomplete + [c];
      nIncomplete := nIncomplete + 1;
      closed := ExpireIncomplete(now);
      assert nIncomplete <= limits.maxIncomplete;
      CheckAllWatches();
    }

    /** Names the connection, counts it for its user and moves it between the lists. */
    method MoveToCompleted(c: Connection, name: string, uid: Option<Uid>)
      requires c in data
      modifies `data, `completedByUser, `incomplete, `nIncomplete, `completed, `nCompleted
      ensures data == old(data)[c := old(data)[c].(name := Some(name), uid := uid)]
      ensures completedByUser == AdjustFor(old(completedByUser), uid, 1)
      ensures incomplete == RemoveFirst(old(incomplete), c) && nIncomplete == old(nIncomplete) - 1
      ensures completed == old(completed) + [c] && nCompleted == old(nCompleted) + 1
    {
      data := data[c := data[c].(name := Some(name), uid := uid)];
      if uid.Some? {
        completedByUser := AdjustForUid(completedByUser, uid.value, 1);
      }
      incomplete := RemoveFirst(incomplete, c);
      nIncomplete := nIncomplete - 1;
      completed := completed + [c];
      nCompleted := nCompleted + 1;
    }

    /** bus_connection_complete; `policyCreated` is the outcome of the policy lookup. */
    method CompleteConnection(c: Connection, name: string, uid: Option<Uid>, policyCreated: bool, clock: int, now: int)
      returns (ok: bool, closed: seq<Connection>)
      requires Valid(clock) && c in incomplete && clock <= now
      modifies this
      ensures ok == policyCreated && Valid(now)
      ensures !ok ==> Snapshot() == old(Snapshot()) && closed == []
      ensures ok ==>
        && (forall d :: d in RemoveFirst(old(incomplete), c) ==> d in old(data))
        && Snapshot() == Complete(old(Snapshot()), c, name, uid, limits, now)
        && closed == Stale(incomplete, data, limits.authTimeout, now)
    {
      CompleteStaysConsistent(Snapshot(), c, name, uid, limits, clock, now);
      ok, closed := policyCreated, [];
      if ok {
        ghost var after := Complete(Snapshot(), c, name, uid, limits, now);
        MoveToCompleted(c, name, uid);
        CheckAllWatches();
        assert OldestFirst(after.incomplete, after.data);
        hide Consistent, OldestFirst;
        closed := ExpireIncomplete(now);
        assert Snapshot() == after;
      }
    }

    /** The ledger part of bus_connection_disconnected. */
    method Disconnected(c: Connection, clock: int)
      requires Valid(clock) && c in data
      modifies this
      ensures Valid(clock) && Snapshot() == Depart(old(Snapshot()), c, limits)
    {
      DisconnectStaysConsistent(Snapshot(), c, limits, clock);
      hide Consistent;
      var d := data[c];
      if d.name.Some? {
        completed := RemoveFirst(completed, c);
        nCompleted := nCompleted - 1;
        if d.uid.Some? {
          completedByUser := AdjustForUid(completedByUser, d.uid.value, -1);
        }
        data := data - {c};
      } else {
        incomplete := RemoveFirst(incomplete, c);
        nIncomplete := nIncomplete - 1;
        data := data - {c};
        CheckAllWatches();
      }
    }

    /** bus_connections_check_limits, answered from the counters alone: the
        answer is about the connections themselves. */
    method CheckLimits(uid: Option<Uid>, ghost clock: int) returns (ok: bool)
      requires Valid(clock)
      ensures ok <==> WithinLimits(Snapshot(), uid, limits)
      ensures ok <==> (|completed| < limits.maxCompleted &&
        (uid.Some? ==> UserTally(completed, data, uid.value) < limits.maxPerUser))
    {
      if nCompleted >= limits.maxCompleted {
        return false;
      }
      assert uid.Some? ==> CountForUid(completedByUser, uid.value) == UserTally(completed, data, uid.value);
      if uid.Some? {
        if CountForUid(completedByUser, uid.value) >= limits.maxPerUser {
          return false;
        }
      }
      return true;
    }
  }
}

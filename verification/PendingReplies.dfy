/** The pending-reply code of bus/connection.c, with the reply-related part of
    the security check in bus/bus.c, over the lists it changes in place.  Every
    method is proved to do what the function of the same name in
    `PendingReplyTheory` says. */
module PendingReplies {
  import opened BusTypes
  import opened Collections
  import opened ExpireList
  import opened PendingReplyTheory

  class BusTransaction {
    var cancelHooks: seq<Hook>

    constructor ()
      ensures cancelHooks == []
    {
      cancelHooks := [];
    }

    /** Hooks must be run in the reverse of the order they were added in. */
    method AddCancelHook(hook: Hook)
      modifies this
      ensures cancelHooks == [hook] + old(cancelHooks)
    {
      cancelHooks := [hook] + cancelHooks;
    }
  }

  class BusConnections {
    const pendingReplies: BusExpireList<Reply>
    const maxRepliesPerConnection: int

    constructor (replyTimeout: int, maxReplies: int, now: int)
      ensures fresh(pendingReplies) && pendingReplies.items == []
      ensures pendingReplies.timeout == Timeout(false, 100, now) && pendingReplies.expireAfter == replyTimeout
      ensures maxRepliesPerConnection == maxReplies
    {
      pendingReplies := new BusExpireList(replyTimeout, now);
      maxRepliesPerConnection := maxReplies;
    }

    function BookOf(t: BusTransaction): Book
      reads t, pendingReplies
    {
      Book(pendingReplies.items, t.cancelHooks)
    }

    /** bus_connections_expect_reply: one walk looks for a duplicate and counts
        the caller's entries. */
    method ExpectReply(t: BusTransaction, call: Call, noReply: bool, memory: nat, id: int, now: int)
      returns (answer: Answer)
      modifies t, pendingReplies
      ensures answer == ExpectAnswer(old(BookOf(t)), call, noReply, maxRepliesPerConnection, memory)
      ensures BookOf(t) == Expect(old(BookOf(t)), call, noReply, maxRepliesPerConnection, memory, id, now)
      ensures pendingReplies.timeout == old(pendingReplies.timeout) ||
        (!old(pendingReplies.timeout).enabled && pendingReplies.timeout == SetInterval(old(pendingReplies.timeout), 0))
      ensures answer == Yes && !noReply ==>
        pendingReplies.Contents() ==
          Prepend(old(pendingReplies.Contents()), Item(Reply(id, call.caller, Some(call.replier), call.serial), now))
    {
      if noReply {
        return Yes;
      }
      ghost var list := pendingReplies.items;
      var link, count := 0, 0;
      while link < |pendingReplies.items|
        invariant 0 <= link <= |list| && count >= 0
        invariant IndexOfCall(list, call) == link + IndexOfCall(list[link..], call)
        invariant CountFor(list, call.caller) == count + CountFor(list[link..], call.caller)
      {
        var pending := pendingReplies.items[link];
        assert list[link..][1..] == list[link + 1..];
        if IsFor(pending, call) {
          return AccessDenied;
        }
        link := link + 1;
        if pending.data.caller == call.caller {
          count := count + 1;
        }
      }
      if count >= maxRepliesPerConnection {
        return LimitsExceeded;
      }
      if memory < 3 {
        return NoMemory;
      }
      var pending := Reply(id, call.caller, Some(call.replier), call.serial);
      pendingReplies.AddLink(Item(pending, 0));
      if memory < EXPECT_ALLOCATIONS {
        pendingReplies.Unlink(0);
        return NoMemory;
      }
      pendingReplies.items := [Item(pending, now)] + pendingReplies.items[1..];
      t.AddCancelHook(CancelPendingReply(Item(pending, now)));
      return Yes;
    }

    /** bus_connections_check_reply */
    method CheckReply(t: BusTransaction, call: Call, memory: nat) returns (answer: Answer)
      modifies t, pendingReplies`items
      ensures answer == CheckAnswer(old(BookOf(t)), call, memory)
      ensures BookOf(t) == Check(old(BookOf(t)), call, memory)
    {
      ghost var list := pendingReplies.items;
      var link := 0;
      while link < |pendingReplies.items| && !IsFor(pendingReplies.items[link], call)
        invariant 0 <= link <= |list|
        invariant IndexOfCall(list, call) == link + IndexOfCall(list[link..], call)
      {
        assert list[link..][1..] == list[link + 1..];
        link := link + 1;
      }
      if link == |pendingReplies.items| {
        return No;
      }
      if memory < CHECK_ALLOCATIONS {
        return NoMemory;
      }
      t.AddCancelHook(RestorePendingReply(pendingReplies.items[link]));
      pendingReplies.Unlink(link);
      return Yes;
    }

    /** The hook part of bus_transaction_cancel_and_free. */
    method RunCancelHooks(t: BusTransaction)
      requires Undo(t.cancelHooks, pendingReplies.items).Some?
      modifies t, pendingReplies
      ensures Some(pendingReplies.items) == Undo(old(t.cancelHooks), old(pendingReplies.items))
      ensures t.cancelHooks == []
      ensures pendingReplies.timeout == old(pendingReplies.timeout) ||
        (!old(pendingReplies.timeout).enabled && pendingReplies.timeout == SetInterval(old(pendingReplies.timeout), 0))
    {
      ghost var hooks := t.cancelHooks;
      var k := 0;
      while k < |t.cancelHooks|
        invariant 0 <= k <= |hooks| && t.cancelHooks == hooks
        invariant Undo(hooks[k..], pendingReplies.items) == Undo(hooks, old(pendingReplies.items))
        invariant pendingReplies.timeout == old(pendingReplies.timeout) ||
          (!old(pendingReplies.timeout).enabled &&
            pendingReplies.timeout == SetInterval(old(pendingReplies.timeout), 0))
      {
        assert hooks[k..][1..] == hooks[k + 1..];
        match t.cancelHooks[k] {
          case CancelPendingReply(item) =>
            pendingReplies.items := RemoveFirst(pendingReplies.items, item);
          case RestorePendingReply(link) =>
            pendingReplies.AddLink(link);
        }
        k := k + 1;
      }
      t.cancelHooks := [];
    }

    /** A transaction that is cancelled right away: whatever was pending before
        it began is pending again. */
    method CancelRestores(t: BusTransaction, ghost before: Pending, ghost ops: seq<Op>)
      requires BookOf(t) == ApplyAll(Book(before, []), ops, maxRepliesPerConnection)
      modifies t, pendingReplies
      ensures multiset(pendingReplies.items) == multiset(before) && t.cancelHooks == []
    {
      CancelIsExactUndo(before, ops, maxRepliesPerConnection);
      RunCancelHooks(t);
    }

    /** bus_connection_drop_pending_replies */
    method DropPendingReplies(gone: Connection)
      modifies pendingReplies
      ensures pendingReplies.items == DropFor(old(pendingReplies.items), gone)
      ensures pendingReplies.timeout ==
        if Owes(old(pendingReplies.items), gone) then SetInterval(old(pendingReplies.timeout), 0)
        else old(pendingReplies.timeout)
    {
      ghost var list := pendingReplies.items;
      ghost var owes := false;
      var link := 0;
      while link < |pendingReplies.items|
        invariant 0 <= link <= |pendingReplies.items|
        invariant DropFor(list, gone) == pendingReplies.items[..link] + DropFor(pendingReplies.items[link..], gone)
        invariant Owes(list, gone) <==> owes || Owes(pendingReplies.items[link..], gone)
        invariant pendingReplies.timeout ==
          if owes then SetInterval(old(pendingReplies.timeout), 0) else old(pendingReplies.timeout)
        decreases |pendingReplies.items| - link
      {
        ghost var rest := pendingReplies.items[link..];
        var pending := pendingReplies.items[link];
        assert rest[1..] == pendingReplies.items[link + 1..];
        OwesTail(rest, gone);
        if pending.data.caller == gone {
          pendingReplies.Unlink(link);
        } else {
          if pending.data.replier == Some(gone) {
            pendingReplies.items := pendingReplies.items[link := Item(pending.data.(replier := None), 0)];
            pendingReplies.RecheckImmediately();
            owes := true;
          }
          link := link + 1;
        }
        assert pendingReplies.items[link..] == rest[1..];
      }
    }

    /** The expiry pass; bus_pending_reply_expired fails when the error message
        cannot be sent.  Returns the callers that were told "no reply". */
    method ExpirePendingReplies(base: int, now: int, canSend: Reply -> bool) returns (told: Pending, done: bool)
      requires pendingReplies.timeout.base <= base <= now
      modifies pendingReplies
      ensures done <==>
        forall i :: i in old(pendingReplies.items) && IsDue(i, pendingReplies.expireAfter, now) ==> canSend(i.data)
      ensures done ==>
        told == Due(old(pendingReplies.items), pendingReplies.expireAfter, now) &&
        pendingReplies.items == Waiting(old(pendingReplies.items), pendingReplies.expireAfter, now)
      ensures multiset(told) + multiset(pendingReplies.items) == multiset(old(pendingReplies.items))
    {
      DueAndWaiting(pendingReplies.items, pendingReplies.expireAfter, now);
      told, done := pendingReplies.Expire(base, now, canSend);
    }

    /** The reply-related part of bus_context_check_security_policy. */
    method CheckSecurityPolicy(t: BusTransaction, d: Delivery, memory: nat, id: int, now: int) returns (allowed: bool)
      modifies t, pendingReplies
      ensures (allowed, BookOf(t)) == Secure(old(BookOf(t)), d, maxRepliesPerConnection, memory, id, now)
    {
      var requestedReply := false;
      if d.message.replySerial != 0 && d.proposed.Some? && d.addressed == d.proposed {
        var found := CheckReply(t, Call(d.addressed.value, d.sender, d.message.replySerial), memory);
        if found == NoMemory {
          return false;
        }
        requestedReply := found == Yes;
      }
      if !d.policyAllows(requestedReply) {
        return false;
      }
      if d.message.kind == MethodCall && d.addressed.Some? && d.addressed == d.proposed {
        var call := Call(d.sender, d.addressed.value, d.message.serial);
        var recorded := ExpectReply(t, call, d.message.noReply, memory, id, now);
        return recorded == Yes;
      }
      return true;
    }
  }

  ghost predicate Owes(list: Pending, gone: Connection) {
    exists i :: 0 <= i < |list| && list[i].data.caller != gone && list[i].data.replier == Some(gone)
  }

  lemma OwesTail(list: Pending, gone: Connection)
    requires list != []
    ensures Owes(list, gone) <==>
      (list[0].data.caller != gone && list[0].data.replier == Some(gone)) || Owes(list[1..], gone)
  {
    assert forall i :: 0 <= i < |list[1..]| ==> list[1..][i] == list[i + 1];
    if Owes(list, gone) && !(list[0].data.caller != gone && list[0].data.replier == Some(gone)) {
      var i :| 0 <= i < |list| && list[i].data.caller != gone && list[i].data.replier == Some(gone);
      assert list[1..][i - 1] == list[i];
    }
  }
}

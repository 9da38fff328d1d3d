/** The transaction code of bus/connection.c, with its lists changed in place.
    The fields of `BusContext` are the memory the code works on: the message
    list of each connection, the connection list of each open transaction and
    what has been handed to each transport.  Each method is proved to be the
    step of `TransactionTheory` it stands for. */
module Transactions {
  import opened BusTypes
  import opened Collections
  import opened TransactionTheory

  class BusContext {
    /** BusConnectionData.transaction_messages, newest first. */
    var transactionMessages: map<Connection, seq<MessageToSend>>
    /** BusTransaction.connections, for every transaction not yet freed. */
    var connections: map<Transaction, seq<Connection>>
    var outgoing: map<Connection, seq<Message>>
    var connected: set<Connection>

    function Snapshot(): State
      reads this
    {
      State(transactionMessages, connections, outgoing, connected)
    }

    ghost predicate Valid()
      reads this
    {
      WellFormed(Snapshot())
    }

    constructor ()
      ensures Valid() && Snapshot() == Empty()
    {
      transactionMessages, connections, outgoing, connected := map[], map[], map[], {};
    }

    method NewTransaction(t: Transaction)
      requires Valid() && t !in connections
      modifies `connections
      ensures Valid() && Snapshot() == Open(old(Snapshot()), t)
    {
      StepKeepsWellFormed(Snapshot(), Opened(t));
      connections := connections[t := []];
    }

    /** Looks behind the newest link for another message of the transaction. */
    static method FindOther(list: seq<MessageToSend>, t: Transaction) returns (i: nat)
      requires list != []
      ensures 1 <= i <= |list|
      ensures i < |list| <==> Holds(list[1..], t)
    {
      i := 1;
      while i < |list| && list[i].transaction != t
        invariant 1 <= i <= |list|
        invariant forall j :: 1 <= j < i ==> list[j].transaction != t
      {
        i := i + 1;
      }
      assert i < |list| ==> list[1..][i - 1].transaction == t;
    }

    /** bus_transaction_send.  `linkAllocated` says whether the list link for
        the transaction's connections can be allocated. */
    method TransactionSend(t: Transaction, c: Connection, message: Message, linkAllocated: bool)
      returns (ok: bool)
      requires Valid() && t in connections && c in transactionMessages
      modifies this
      ensures Valid()
      ensures ok <==> linkAllocated || c !in connected || Holds(old(transactionMessages)[c], t)
      ensures Snapshot() == if ok then Send(old(Snapshot()), t, c, message) else old(Snapshot())
    {
      if c !in connected {
        return true;
      }
      SendKeepsWellFormed(Snapshot(), t, c, message);
      var list := transactionMessages[c];
      transactionMessages := transactionMessages[c := [MessageToSend(t, message)] + list];
      var i := FindOther(transactionMessages[c], t);
      assert ([MessageToSend(t, message)] + list)[1..] == list;
      if i == |transactionMessages[c]| {
        if !linkAllocated {
          transactionMessages :=
            transactionMessages[c := RemoveFirst(transactionMessages[c], MessageToSend(t, message))];
          assert transactionMessages == old(transactionMessages);
          return false;
        }
        connections := connections[t := [c] + connections[t]];
      }
      return true;
    }

    /** The walk of connection_execute_transaction, from the oldest link to the
        newest: takes out the links of `t` and sends what they carry. */
    static method SendQueued(list: seq<MessageToSend>, t: Transaction)
      returns (kept: seq<MessageToSend>, sent: seq<Message>)
      ensures kept == Without(list, t) && sent == Queued(list, t)
    {
      kept, sent := list, [];
      var link := |list|;
      while link > 0
        invariant 0 <= link <= |list|
        invariant kept == list[..link] + Without(list[link..], t)
        invariant sent == Queued(list[link..], t)
      {
        link := link - 1;
        WalkFromOldest(list, link, t);
        if kept[link].transaction == t {
          sent := sent + [kept[link].message];
          kept := kept[..link] + kept[link + 1..];
        }
      }
      assert list[0..] == list && [] + Without(list, t) == Without(list, t);
    }

    /** The walk of connection_cancel_transaction, from the newest link to the oldest. */
    static method DropQueued(list: seq<MessageToSend>, t: Transaction) returns (kept: seq<MessageToSend>)
      ensures kept == Without(list, t)
    {
      kept := list;
      ghost var done := 0;
      var link := 0;
      while link < |kept|
        invariant 0 <= done <= |list| && link == |Without(list[..done], t)|
        invariant kept == Without(list[..done], t) + list[done..]
        decreases |list| - done
      {
        WalkFromNewest(list, done, t);
        if kept[link].transaction == t {
          kept := kept[..link] + kept[link + 1..];
        } else {
          link := link + 1;
        }
        done := done + 1;
      }
      assert list[..done] == list && Without(list, t) + [] == Without(list, t);
    }

    /** _dbus_list_pop_first on the transaction's connections */
    method PopConnection(t: Transaction) returns (c: Connection)
      requires t in connections && connections[t] != []
      modifies `connections
      ensures c == old(connections)[t][0] && Snapshot() == Popped(old(Snapshot()), t)
    {
      c := connections[t][0];
      connections := connections[t := connections[t][1..]];
    }

    /** connection_execute_transaction */
    method ConnectionExecute(c: Connection, t: Transaction)
      requires c in transactionMessages && c in outgoing
      modifies `transactionMessages, `outgoing
      ensures Snapshot() == ExecuteOn(old(Snapshot()), c, t)
    {
      var kept, sent := SendQueued(transactionMessages[c], t);
      transactionMessages := transactionMessages[c := kept];
      outgoing := outgoing[c := outgoing[c] + sent];
    }

    /** connection_cancel_transaction */
    method ConnectionCancel(c: Connection, t: Transaction)
      requires c in transactionMessages
      modifies `transactionMessages
      ensures Snapshot() == CancelOn(old(Snapshot()), c, t)
    {
      var kept := DropQueued(transactionMessages[c], t);
      transactionMessages := transactionMessages[c := kept];
    }

    /** bus_transaction_execute_and_free, as far as messages go. */
    method TransactionExecute(t: Transaction)
      requires Valid() && t in connections
      modifies this
      ensures Valid() && Snapshot() == Execute(old(Snapshot()), t)
    {
      ghost var after := Execute(Snapshot(), t);
      CloseKeepsWellFormed(Snapshot(), t);
      StartsDraining(Snapshot(), t);
      hide WellFormed, Draining, Execute, ExecuteOn;
      while connections[t] != []
        invariant t in connections && Draining(Snapshot(), t) && Execute(Snapshot(), t) == after
        decreases |connections[t]|
      {
        PopKeepsDraining(Snapshot(), t);
        PopExecutes(Snapshot(), t);
        var c := PopConnection(t);
        ConnectionExecute(c, t);
      }
      Drained(Snapshot(), t);
      connections := connections - {t};
    }

    /** The message part of bus_transaction_cancel_and_free; the cancel hooks
        are run afterwards by the code that registered them. */
    method TransactionCancel(t: Transaction)
      requires Valid() && t in connections
      modifies this
      ensures Valid() && Snapshot() == Cancel(old(Snapshot()), t)
    {
      ghost var after := Cancel(Snapshot(), t);
      CloseKeepsWellFormed(Snapshot(), t);
      StartsDraining(Snapshot(), t);
      hide WellFormed, Draining, Cancel, CancelOn;
      while connections[t] != []
        invariant t in connections && Draining(Snapshot(), t) && Cancel(Snapshot(), t) == after
        decreases |connections[t]|
      {
        PopKeepsDraining(Snapshot(), t);
        PopCancels(Snapshot(), t);
        var c := PopConnection(t);
        ConnectionCancel(c, t);
      }
      Drained(Snapshot(), t);
      connections := connections - {t};
    }

    /** bus_connection_remove_transactions. */
    method RemoveTransactions(c: Connection)
      requires Valid() && c in transactionMessages && c !in connected
      modifies this
      ensures Valid() && Snapshot() == Disconnect(old(Snapshot()), c)
    {
      ghost var after := Disconnect(Snapshot(), c);
      DisconnectKeepsWellFormed(Snapshot(), c);
      assert Leaving(Snapshot(), c);
      hide WellFormed;
      while transactionMessages[c] != []
        invariant Leaving(Snapshot(), c) && Disconnect(Snapshot(), c) == after
        decreases |transactionMessages[c]|
      {
        DropNewestLeaves(Snapshot(), c);
        DropNewestDisconnects(Snapshot(), c);
        var t := transactionMessages[c][0].transaction;
        connections := connections[t := RemoveFirst(connections[t], c)];
        transactionMessages := transactionMessages[c := transactionMessages[c][1..]];
      }
      HasLeft(Snapshot(), c);
    }
  }
}

/** Message queueing by transactions (bus/connection.c), on values.

    Every connection keeps one list for the messages of all open transactions,
    newest first; every transaction keeps the list of connections it has to
    visit.  The steps below say what the bus does to this shared state.  The
    log functions `Batch` and `Delivered` say what a client expects, without
    mentioning either list: each (transaction, connection) pair has a private
    first-in first-out queue.  `RunDelivers` shows that the two agree. */
module TransactionTheory {
  import opened BusTypes
  import opened Collections

  datatype MessageToSend = MessageToSend(transaction: Transaction, message: Message)

  predicate Holds(list: seq<MessageToSend>, t: Transaction) {
    exists i :: 0 <= i < |list| && list[i].transaction == t
  }

  lemma HoldsTail(list: seq<MessageToSend>, t: Transaction)
    requires list != []
    ensures Holds(list, t) <==> list[0].transaction == t || Holds(list[1..], t)
  {
    assert forall i :: 0 <= i < |list[1..]| ==> list[1..][i] == list[i + 1];
    if Holds(list, t) && list[0].transaction != t {
      var i :| 0 <= i < |list| && list[i].transaction == t;
      assert list[1..][i - 1].transaction == t;
    }
  }

  /** The messages of `t` in a newest-first list, in the order they were queued. */
  function Queued(list: seq<MessageToSend>, t: Transaction): seq<Message> {
    if list == [] then []
    else Queued(list[1..], t) + if list[0].transaction == t then [list[0].message] else []
  }

  /** The list once the links of `t` have been taken out. */
  function Without(list: seq<MessageToSend>, t: Transaction): seq<MessageToSend> {
    if list == [] then []
    else if list[0].transaction == t then Without(list[1..], t)
    else [list[0]] + Without(list[1..], t)
  }

  lemma {:induction false} WithoutHoldsNone(list: seq<MessageToSend>, t: Transaction)
    ensures !Holds(Without(list, t), t)
    ensures forall m :: m in Without(list, t) ==> m in list
  {
    if list != [] {
      WithoutHoldsNone(list[1..], t);
    }
  }

  lemma {:induction false} NothingQueued(list: seq<MessageToSend>, t: Transaction)
    requires !Holds(list, t)
    ensures Queued(list, t) == [] && Without(list, t) == list
  {
    if list != [] {
      assert list[0].transaction != t;
      assert !Holds(list[1..], t) by {
        assert forall i :: 0 <= i < |list[1..]| ==> list[1..][i] == list[i + 1];
      }
      NothingQueued(list[1..], t);
    }
  }

  lemma {:induction false} WithoutAppend(a: seq<MessageToSend>, b: seq<MessageToSend>, t: Transaction)
    ensures Without(a + b, t) == Without(a, t) + Without(b, t)
  {
    if a == [] {
      assert a + b == b;
    } else {
      assert (a + b)[1..] == a[1..] + b;
      WithoutAppend(a[1..], b, t);
    }
  }

  /** Taking out one transaction leaves every other one in place and in order. */
  lemma {:induction false} WithoutKeepsOthers(list: seq<MessageToSend>, t: Transaction, other: Transaction)
    requires other != t
    ensures Queued(Without(list, t), other) == Queued(list, other)
    ensures Holds(Without(list, t), other) <==> Holds(list, other)
  {
    if list != [] {
      var rest := Without(list[1..], t);
      WithoutKeepsOthers(list[1..], t, other);
      HoldsTail(list, other);
      if list[0].transaction != t {
        assert ([list[0]] + rest)[1..] == rest;
        HoldsTail([list[0]] + rest, other);
      }
    }
  }

  lemma QueueWithout(list: seq<MessageToSend>, gone: Transaction, t: Transaction)
    ensures Queued(Without(list, gone), t) == if t == gone then [] else Queued(list, t)
  {
    if t == gone {
      WithoutHoldsNone(list, t);
      NothingQueued(Without(list, t), t);
    } else {
      WithoutKeepsOthers(list, gone, t);
    }
  }

  lemma WithoutTwice(list: seq<MessageToSend>, t: Transaction)
    ensures Without(Without(list, t), t) == Without(list, t)
  {
    WithoutHoldsNone(list, t);
    NothingQueued(Without(list, t), t);
  }

  /** One turn of the oldest-first walk: link `k` is the next to be looked at. */
  lemma WalkFromOldest(list: seq<MessageToSend>, k: nat, t: Transaction)
    requires k < |list|
    ensures var rest := list[..k + 1] + Without(list[k + 1..], t);
      rest[k] == list[k] &&
      list[..k] + Without(list[k..], t) == (if list[k].transaction == t then rest[..k] + rest[k + 1..] else rest)
    ensures Queued(list[k..], t) ==
      Queued(list[k + 1..], t) + if list[k].transaction == t then [list[k].message] else []
  {
    assert list[k..][1..] == list[k + 1..];
  }

  /** One turn of the newest-first walk: `k` links have been looked at. */
  lemma WalkFromNewest(list: seq<MessageToSend>, k: nat, t: Transaction)
    requires k < |list|
    ensures var kept := |Without(list[..k], t)|; var rest := Without(list[..k], t) + list[k..];
      rest[kept] == list[k] &&
      Without(list[..k + 1], t) + list[k + 1..] ==
        (if list[k].transaction == t then rest[..kept] + rest[kept + 1..] else rest) &&
      |Without(list[..k + 1], t)| == (if list[k].transaction == t then kept else kept + 1)
  {
    assert list[..k + 1] == list[..k] + [list[k]];
    WithoutAppend(list[..k], [list[k]], t);
  }

  /** `queues` and `outgoing` have one entry per connection, `visits` one per
      open transaction; `up` holds the connections whose transport is connected. */
  datatype State = State(
    queues: map<Connection, seq<MessageToSend>>,
    visits: map<Transaction, seq<Connection>>,
    outgoing: map<Connection, seq<Message>>,
    up: set<Connection>)

  /** A connection is in a transaction's list exactly once if and only if it
      holds a message of that transaction; nothing refers to a closed one. */
  ghost predicate WellFormed(s: State) {
    && s.queues.Keys == s.outgoing.Keys
    && s.up <= s.queues.Keys
    && (forall c, i :: c in s.queues && 0 <= i < |s.queues[c]| ==> s.queues[c][i].transaction in s.visits)
    && (forall t :: t in s.visits ==> NoDuplicates(s.visits[t]))
    && (forall t, c :: t in s.visits && c in s.visits[t] ==> c in s.queues)
    && (forall t, c :: t in s.visits && c in s.queues ==> (c in s.visits[t] <==> Holds(s.queues[c], t)))
  }

  lemma KeysAgree(s: State)
    requires WellFormed(s)
    ensures s.queues.Keys == s.outgoing.Keys && s.up <= s.queues.Keys
  {
  }

  function Empty(): State {
    State(map[], map[], map[], {})
  }

  // ---- steps -------------------------------------------------------------

  function Connect(s: State, c: Connection): State {
    s.(queues := s.queues[c := []], outgoing := s.outgoing[c := []], up := s.up + {c})
  }

  function HangUp(s: State, c: Connection): State {
    s.(up := s.up - {c})
  }

  function Open(s: State, t: Transaction): State {
    s.(visits := s.visits[t := []])
  }

  function Send(s: State, t: Transaction, c: Connection, m: Message): State {
    if c !in s.up || c !in s.queues || t !in s.visits then s
    else
      s.(queues := s.queues[c := [MessageToSend(t, m)] + s.queues[c]],
         visits := if Holds(s.queues[c], t) then s.visits else s.visits[t := [c] + s.visits[t]])
  }

  /** Every connection gets what was queued for it; the transaction is gone. */
  function Execute(s: State, t: Transaction): State {
    s.(queues := map c | c in s.queues :: Without(s.queues[c], t),
       outgoing := map c | c in s.outgoing ::
         if c in s.queues then s.outgoing[c] + Queued(s.queues[c], t) else s.outgoing[c],
       visits := s.visits - {t})
  }

  function Cancel(s: State, t: Transaction): State {
    s.(queues := map c | c in s.queues :: Without(s.queues[c], t), visits := s.visits - {t})
  }

  /** The connection is gone: no transaction will visit it again. */
  function Disconnect(s: State, c: Connection): State {
    s.(queues := s.queues[c := []], visits := map t | t in s.visits :: RemoveFirst(s.visits[t], c))
  }

  // ---- closing a transaction one connection at a time ----------------------

  /** Only the connections still listed hold messages of `t`. */
  ghost predicate Draining(s: State, t: Transaction) {
    && t in s.visits && s.queues.Keys == s.outgoing.Keys
    && (forall c :: c in s.visits[t] ==> c in s.queues)
    && (forall c :: c in s.queues && Holds(s.queues[c], t) ==> c in s.visits[t])
  }

  function Popped(s: State, t: Transaction): State
    requires t in s.visits && s.visits[t] != []
  {
    s.(visits := s.visits[t := s.visits[t][1..]])
  }

  function ExecuteOn(s: State, c: Connection, t: Transaction): State
    requires c in s.queues && c in s.outgoing
  {
    s.(queues := s.queues[c := Without(s.queues[c], t)],
       outgoing := s.outgoing[c := s.outgoing[c] + Queued(s.queues[c], t)])
  }

  function CancelOn(s: State, c: Connection, t: Transaction): State
    requires c in s.queues
  {
    s.(queues := s.queues[c := Without(s.queues[c], t)])
  }

  lemma StartsDraining(s: State, t: Transaction)
    requires WellFormed(s) && t in s.visits
    ensures Draining(s, t)
  {
  }

  lemma PopKeepsDraining(s: State, t: Transaction)
    requires Draining(s, t) && s.visits[t] != []
    ensures s.visits[t][0] in s.queues && s.visits[t][0] in s.outgoing
    ensures Draining(CancelOn(Popped(s, t), s.visits[t][0], t), t)
    ensures Draining(ExecuteOn(Popped(s, t), s.visits[t][0], t), t)
  {
    var c := s.visits[t][0];
    WithoutHoldsNone(s.queues[c], t);
  }

  /** Serving one connection early changes nothing in the end. */
  lemma PopExecutes(s: State, t: Transaction)
    requires t in s.visits && s.visits[t] != [] && s.visits[t][0] in s.queues && s.visits[t][0] in s.outgoing
    ensures Execute(ExecuteOn(Popped(s, t), s.visits[t][0], t), t) == Execute(s, t)
  {
    var c := s.visits[t][0];
    var s' := ExecuteOn(Popped(s, t), c, t);
    QueueWithout(s.queues[c], t, t);
    WithoutTwice(s.queues[c], t);
    hide Queued, Without;
    assert s'.outgoing[c] + [] == s'.outgoing[c];
    assert Execute(s', t).outgoing == Execute(s, t).outgoing;
    assert Execute(s', t).queues == Execute(s, t).queues;
    assert Execute(s', t).visits == Execute(s, t).visits;
  }

  lemma PopCancels(s: State, t: Transaction)
    requires t in s.visits && s.visits[t] != [] && s.visits[t][0] in s.queues
    ensures Cancel(CancelOn(Popped(s, t), s.visits[t][0], t), t) == Cancel(s, t)
  {
    WithoutTwice(s.queues[s.visits[t][0]], t);
    hide Without;
  }

  /** Nothing is left to do once the list of connections is empty. */
  lemma Drained(s: State, t: Transaction)
    requires Draining(s, t) && s.visits[t] == []
    ensures Execute(s, t) == s.(visits := s.visits - {t}) == Cancel(s, t)
  {
    forall c | c in s.queues
      ensures Queued(s.queues[c], t) == [] && Without(s.queues[c], t) == s.queues[c]
    {
      NothingQueued(s.queues[c], t);
    }
    assert s.outgoing.Keys == s.queues.Keys;
    hide Queued, Without, Holds, Draining;
    assert Cancel(s, t).queues == s.queues;
    assert forall c :: c in s.outgoing ==> Execute(s, t).outgoing[c] == s.outgoing[c];
    assert Execute(s, t).outgoing == s.outgoing;
  }

  // ---- a send only shows when its transaction is executed ----------------------

  lemma SendThenCancel(s: State, t: Transaction, c: Connection, m: Message)
    requires WellFormed(s)
    ensures Cancel(Send(s, t, c, m), t) == Cancel(s, t)
  {
    if c in s.up && t in s.visits {
      var list := [MessageToSend(t, m)] + s.queues[c];
      assert list[1..] == s.queues[c];
      assert Cancel(Send(s, t, c, m), t).queues == Cancel(s, t).queues;
    }
  }

  lemma SendThenExecute(s: State, t: Transaction, c: Connection, m: Message)
    requires WellFormed(s) && t in s.visits
    ensures Execute(Send(s, t, c, m), t) ==
      if c in s.up then Handed(Execute(s, t), c, m) else Execute(s, t)
  {
    if c in s.up {
      SentQueues(s, t, c, m);
      SentOutgoing(s, t, c, m);
      hide Queued, Without, WellFormed, Holds;
      assert Execute(Send(s, t, c, m), t).visits == Execute(s, t).visits;
    }
  }

  lemma SentQueues(s: State, t: Transaction, c: Connection, m: Message)
    requires c in s.queues && t in s.visits && c in s.up
    ensures Execute(Send(s, t, c, m), t).queues == Execute(s, t).queues
  {
    var list := [MessageToSend(t, m)] + s.queues[c];
    assert list[1..] == s.queues[c];
    assert Without(list, t) == Without(s.queues[c], t);
    hide Without, Queued, Holds;
  }

  lemma SentOutgoing(s: State, t: Transaction, c: Connection, m: Message)
    requires c in s.queues && t in s.visits && c in s.up && c in s.outgoing
    ensures Execute(Send(s, t, c, m), t).outgoing == Handed(Execute(s, t), c, m).outgoing
  {
    var list := [MessageToSend(t, m)] + s.queues[c];
    assert list[1..] == s.queues[c];
    assert Queued(list, t) == Queued(s.queues[c], t) + [m];
    hide Without, Queued, Holds;
    assert s.outgoing[c] + (Queued(s.queues[c], t) + [m]) == s.outgoing[c] + Queued(s.queues[c], t) + [m];
  }

  /** The transport of `c` has been given one more message. */
  function Handed(s: State, c: Connection, m: Message): State {
    if c in s.outgoing then s.(outgoing := s.outgoing[c := s.outgoing[c] + [m]]) else s
  }

  lemma OpenThenClose(s: State, t: Transaction)
    requires WellFormed(s) && t !in s.visits
    ensures Cancel(Open(s, t), t) == s && Execute(Open(s, t), t) == s
  {
    forall c | c in s.queues
      ensures Queued(s.queues[c], t) == [] && Without(s.queues[c], t) == s.queues[c]
    {
      NothingQueued(s.queues[c], t);
    }
    assert s.outgoing.Keys == s.queues.Keys && s.visits[t := []] - {t} == s.visits;
    hide Queued, Without, Holds, WellFormed;
    assert Cancel(Open(s, t), t).queues == s.queues;
    assert forall c :: c in s.outgoing ==> Execute(Open(s, t), t).outgoing[c] == s.outgoing[c];
    assert Execute(Open(s, t), t).outgoing == s.outgoing;
  }

  // ---- closing a connection one message at a time ---------------------------

  /** Only transactions with a message at `c` still list it, and only once. */
  ghost predicate Leaving(s: State, c: Connection) {
    && c in s.queues
    && (forall i :: 0 <= i < |s.queues[c]| ==> s.queues[c][i].transaction in s.visits)
    && (forall t :: t in s.visits ==> NoDuplicates(s.visits[t]))
    && (forall t :: t in s.visits && c in s.visits[t] ==> Holds(s.queues[c], t))
  }

  function DropNewest(s: State, c: Connection): State
    requires c in s.queues && s.queues[c] != [] && s.queues[c][0].transaction in s.visits
  {
    var t := s.queues[c][0].transaction;
    s.(queues := s.queues[c := s.queues[c][1..]], visits := s.visits[t := RemoveFirst(s.visits[t], c)])
  }

  lemma DropNewestLeaves(s: State, c: Connection)
    requires Leaving(s, c) && s.queues[c] != []
    ensures Leaving(DropNewest(s, c), c)
  {
    var t := s.queues[c][0].transaction;
    RemoveFirstNoDuplicates(s.visits[t], c);
    forall u | u in s.visits && c in DropNewest(s, c).visits[u]
      ensures Holds(s.queues[c][1..], u)
    {
      HoldsTail(s.queues[c], u);
    }
  }

  lemma DropNewestDisconnects(s: State, c: Connection)
    requires Leaving(s, c) && s.queues[c] != []
    ensures Disconnect(DropNewest(s, c), c) == Disconnect(s, c)
  {
    var t := s.queues[c][0].transaction;
    RemoveFirstNoDuplicates(s.visits[t], c);
    RemoveFirstMembers(RemoveFirst(s.visits[t], c), c);
  }

  lemma HasLeft(s: State, c: Connection)
    requires Leaving(s, c) && s.queues[c] == []
    ensures Disconnect(s, c) == s
  {
    forall t | t in s.visits
      ensures RemoveFirst(s.visits[t], c) == s.visits[t]
    {
      RemoveFirstMembers(s.visits[t], c);
    }
    assert Disconnect(s, c).queues == s.queues;
  }

  // ---- runs --------------------------------------------------------------

  datatype Event =
    | Connected(conn: Connection)
    | HungUp(conn: Connection)
    | Opened(txn: Transaction)
    | Sent(txn: Transaction, conn: Connection, message: Message)
    | Executed(txn: Transaction)
    | Cancelled(txn: Transaction)
    | Disconnected(conn: Connection)

  ghost predicate Enabled(s: State, e: Event) {
    match e
    case Connected(c) => c !in s.queues
    case HungUp(c) => c in s.queues
    case Opened(t) => t !in s.visits
    case Sent(t, c, m) => t in s.visits && c in s.queues
    case Executed(t) => t in s.visits
    case Cancelled(t) => t in s.visits
    case Disconnected(c) => c in s.queues && c !in s.up
  }

  function Step(s: State, e: Event): State {
    match e
    case Connected(c) => Connect(s, c)
    case HungUp(c) => HangUp(s, c)
    case Opened(t) => Open(s, t)
    case Sent(t, c, m) => Send(s, t, c, m)
    case Executed(t) => Execute(s, t)
    case Cancelled(t) => Cancel(s, t)
    case Disconnected(c) => Disconnect(s, c)
  }

  lemma SendKeepsWellFormed(s: State, t: Transaction, c: Connection, m: Message)
    requires WellFormed(s) && t in s.visits
    ensures WellFormed(Send(s, t, c, m))
  {
    if c in s.up {
      var rest := s.queues[c];
      var list := [MessageToSend(t, m)] + rest;
      assert list[0].transaction == t && list[1..] == rest;
      forall u | u in s.visits && u != t
        ensures Holds(list, u) <==> Holds(rest, u)
      {
        if Holds(rest, u) {
          var i :| 0 <= i < |rest| && rest[i].transaction == u;
          assert list[i + 1].transaction == u;
        }
      }
    }
  }

  lemma CloseKeepsWellFormed(s: State, t: Transaction)
    requires WellFormed(s)
    ensures WellFormed(Execute(s, t)) && WellFormed(Cancel(s, t))
  {
    forall c | c in s.queues
      ensures forall u :: u in s.visits && u != t ==> (Holds(Without(s.queues[c], t), u) <==> Holds(s.queues[c], u))
      ensures forall i :: 0 <= i < |Without(s.queues[c], t)| ==>
        Without(s.queues[c], t)[i].transaction in s.visits - {t}
    {
      forall u | u in s.visits && u != t {
        WithoutKeepsOthers(s.queues[c], t, u);
      }
      WithoutHoldsNone(s.queues[c], t);
      var rest := Without(s.queues[c], t);
      forall i | 0 <= i < |rest|
        ensures rest[i].transaction in s.visits - {t}
      {
        assert rest[i] in s.queues[c];
      }
    }
  }

  lemma DisconnectKeepsWellFormed(s: State, c: Connection)
    requires WellFormed(s) && c in s.queues
    ensures WellFormed(Disconnect(s, c))
  {
    var s' := Disconnect(s, c);
    forall t | t in s.visits
      ensures NoDuplicates(s'.visits[t]) && c !in s'.visits[t]
      ensures forall d :: d != c ==> (d in s'.visits[t] <==> d in s.visits[t])
    {
      RemoveFirstNoDuplicates(s.visits[t], c);
      RemoveFirstMembers(s.visits[t], c);
    }
  }

  lemma StepKeepsWellFormed(s: State, e: Event)
    requires WellFormed(s) && Enabled(s, e)
    ensures WellFormed(Step(s, e))
  {
    match e
    case Connected(c) =>
    case HungUp(c) =>
    case Opened(t) =>
      forall c | c in s.queues ensures !Holds(s.queues[c], t) {}
    case Sent(t, c, m) => SendKeepsWellFormed(s, t, c, m);
    case Executed(t) => CloseKeepsWellFormed(s, t);
    case Cancelled(t) => CloseKeepsWellFormed(s, t);
    case Disconnected(c) => DisconnectKeepsWellFormed(s, c);
  }

  function After(log: seq<Event>): State {
    if log == [] then Empty() else Step(After(log[..|log| - 1]), log[|log| - 1])
  }

  /** A log is a run when every event was possible at its time. */
  ghost predicate IsRun(log: seq<Event>) {
    log == [] || (IsRun(log[..|log| - 1]) && Enabled(After(log[..|log| - 1]), log[|log| - 1]))
  }

  lemma {:induction false} RunWellFormed(log: seq<Event>)
    requires IsRun(log)
    ensures WellFormed(After(log))
  {
    if log != [] {
      RunWellFormed(log[..|log| - 1]);
      StepKeepsWellFormed(After(log[..|log| - 1]), log[|log| - 1]);
    }
  }

  // ---- what the clients expect -------------------------------------------

  /** Is the transport of `c` connected after the log? */
  ghost predicate IsUp(log: seq<Event>, c: Connection) {
    if log == [] then false
    else
      match log[|log| - 1]
      case Connected(d) => c == d || IsUp(log[..|log| - 1], c)
      case HungUp(d) => c != d && IsUp(log[..|log| - 1], c)
      case _ => IsUp(log[..|log| - 1], c)
  }

  /** What transaction `t` would hand to `c` if it were executed now. */
  ghost function Batch(log: seq<Event>, t: Transaction, c: Connection): seq<Message> {
    if log == [] then []
    else
      var before := log[..|log| - 1];
      match log[|log| - 1]
      case Sent(u, d, m) =>
        Batch(before, t, c) + if u == t && d == c && IsUp(before, c) then [m] else []
      case Executed(u) => if u == t then [] else Batch(before, t, c)
      case Cancelled(u) => if u == t then [] else Batch(before, t, c)
      case Disconnected(d) => if d == c then [] else Batch(before, t, c)
      case _ => Batch(before, t, c)
  }

  /** Everything handed to `c` so far: the batches of the executed
      transactions, in the order of their execution. */
  ghost function Delivered(log: seq<Event>, c: Connection): seq<Message> {
    if log == [] then []
    else
      var before := log[..|log| - 1];
      Delivered(before, c) + if log[|log| - 1].Executed? then Batch(before, log[|log| - 1].txn, c) else []
  }

  /** The state shows connection `c` exactly what the log promises it. */
  ghost predicate Agrees(log: seq<Event>, c: Connection) {
    var s := After(log);
    && (c in s.up <==> IsUp(log, c))
    && (c in s.outgoing <==> c in s.queues)
    && (if c in s.outgoing then s.outgoing[c] else []) == Delivered(log, c)
    && forall t :: QueueAgrees(log, t, c)
  }

  ghost predicate QueueAgrees(log: seq<Event>, t: Transaction, c: Connection) {
    Batch(log, t, c) == if c in After(log).queues then Queued(After(log).queues[c], t) else []
  }

  /** What one step does to the private queue of `t` at `c`. */
  lemma StepOnQueue(s: State, e: Event, t: Transaction, c: Connection)
    requires WellFormed(s) && Enabled(s, e) && c in s.queues
    ensures c in Step(s, e).queues
    ensures Queued(Step(s, e).queues[c], t) ==
      match e
      case Sent(u, d, m) => Queued(s.queues[c], t) + if u == t && d == c && c in s.up then [m] else []
      case Executed(u) => if u == t then [] else Queued(s.queues[c], t)
      case Cancelled(u) => if u == t then [] else Queued(s.queues[c], t)
      case Disconnected(d) => if d == c then [] else Queued(s.queues[c], t)
      case _ => Queued(s.queues[c], t)
  {
    match e
    case Sent(u, d, m) =>
      var list := [MessageToSend(u, m)] + s.queues[d];
      assert list[1..] == s.queues[d];
    case Executed(u) => QueueWithout(s.queues[c], u, t);
    case Cancelled(u) => QueueWithout(s.queues[c], u, t);
    case _ =>
  }

  /** What one step does to connection `c` besides its queue. */
  lemma StepOnConnection(s: State, e: Event, c: Connection)
    requires WellFormed(s) && Enabled(s, e)
    ensures var s' := Step(s, e);
      && (c in s'.up <==> (e == Connected(c) || (c in s.up && e != HungUp(c))))
      && (c in s'.queues <==> (e == Connected(c) || c in s.queues))
      && (c in s'.outgoing <==> c in s'.queues)
      && (c in s'.queues ==>
            s'.outgoing[c] == (if c in s.queues then s.outgoing[c] else []) +
                              (if e.Executed? && c in s.queues then Queued(s.queues[c], e.txn) else []))
      && (e == Connected(c) ==> s'.queues[c] == [])
  {
  }

  lemma QueueStepAgrees(log: seq<Event>, t: Transaction, c: Connection)
    requires IsRun(log) && log != []
    requires c in After(log[..|log| - 1]).up <==> IsUp(log[..|log| - 1], c)
    requires QueueAgrees(log[..|log| - 1], t, c)
    ensures QueueAgrees(log, t, c)
  {
    var s, e := After(log[..|log| - 1]), log[|log| - 1];
    RunWellFormed(log[..|log| - 1]);
    KeysAgree(s);
    StepOnConnection(s, e, c);
    if c in s.queues {
      StepOnQueue(s, e, t, c);
    }
    hide WellFormed, Step;
  }

  lemma StepAgrees(log: seq<Event>, c: Connection)
    requires IsRun(log) && log != []
    requires Agrees(log[..|log| - 1], c)
    ensures Agrees(log, c)
  {
    var before, e := log[..|log| - 1], log[|log| - 1];
    forall t {
      QueueStepAgrees(log, t, c);
    }
    RunWellFormed(before);
    StepOnConnection(After(before), e, c);
    if e.Executed? {
      assert QueueAgrees(before, e.txn, c);
    }
    hide WellFormed, Step;
  }

  /** The shared newest-first lists behave like private queues, over every run
      and every interleaving of transactions: each connection is sent the
      batches of the executed transactions, in order, and nothing else. */
  lemma {:induction false} RunDelivers(log: seq<Event>, c: Connection)
    requires IsRun(log)
    ensures Agrees(log, c)
  {
    if log != [] {
      RunDelivers(log[..|log| - 1], c);
      StepAgrees(log, c);
    }
  }
}

/** Pending replies (bus/connection.c), on values: what the bus remembers about
    outstanding method calls, how one transaction changes it and takes the
    change back, and what holds over whole runs. */
module PendingReplyTheory {
  import opened BusTypes
  import opened Collections
  import opened ExpireList

  /** BusPendingReply; `id` stands for its address.  `replier` is None once the
      connection that should have replied has gone. */
  datatype Reply = Reply(id: int, caller: Connection, replier: Option<Connection>, serial: nat)

  type Pending = seq<Item<Reply>>

  /** What a transaction undoes when it is cancelled. */
  datatype Hook =
    | CancelPendingReply(pending: Item<Reply>)
    | RestorePendingReply(link: Item<Reply>)

  datatype Call = Call(caller: Connection, replier: Connection, serial: nat)

  predicate IsFor(item: Item<Reply>, call: Call) {
    item.data.serial == call.serial && item.data.caller == call.caller && item.data.replier == Some(call.replier)
  }

  function IndexOfCall(list: Pending, call: Call): (k: nat)
    ensures k <= |list|
    ensures k < |list| ==> IsFor(list[k], call)
    ensures forall i :: 0 <= i < k ==> !IsFor(list[i], call)
  {
    if list == [] || IsFor(list[0], call) then 0 else 1 + IndexOfCall(list[1..], call)
  }

  function CountFor(list: Pending, caller: Connection): nat {
    if list == [] then 0 else CountFor(list[1..], caller) + if list[0].data.caller == caller then 1 else 0
  }

  // ---- one transaction ---------------------------------------------------------

  /** The list of pending replies and the hooks of the open transaction, newest first. */
  datatype Book = Book(pending: Pending, hooks: seq<Hook>)

  datatype Answer = Yes | No | AccessDenied | LimitsExceeded | NoMemory

  /** Allocations bus_connections_expect_reply and bus_connections_check_reply
      need; the last two are the hook and its list link. */
  const EXPECT_ALLOCATIONS := 5
  const CHECK_ALLOCATIONS := 3

  function ExpectAnswer(b: Book, call: Call, noReply: bool, max: int, memory: nat): Answer {
    if noReply then Yes
    else if IndexOfCall(b.pending, call) < |b.pending| then AccessDenied
    else if CountFor(b.pending, call.caller) >= max then LimitsExceeded
    else if memory < EXPECT_ALLOCATIONS then NoMemory
    else Yes
  }

  function Expect(b: Book, call: Call, noReply: bool, max: int, memory: nat, id: int, now: int): Book {
    if ExpectAnswer(b, call, noReply, max, memory) != Yes || noReply then b
    else
      var item := Item(Reply(id, call.caller, Some(call.replier), call.serial), now);
      Book([item] + b.pending, [CancelPendingReply(item)] + b.hooks)
  }

  function CheckAnswer(b: Book, call: Call, memory: nat): Answer {
    if IndexOfCall(b.pending, call) == |b.pending| then No
    else if memory < CHECK_ALLOCATIONS then NoMemory
    else Yes
  }

  function Check(b: Book, call: Call, memory: nat): Book {
    if CheckAnswer(b, call, memory) != Yes then b
    else
      var k := IndexOfCall(b.pending, call);
      Book(DropAt(b.pending, k), [RestorePendingReply(b.pending[k])] + b.hooks)
  }

  /** Runs the hooks in list order; None is "pending reply did not exist to be cancelled". */
  function Undo(hooks: seq<Hook>, list: Pending): Option<Pending> {
    if hooks == [] then Some(list)
    else
      match hooks[0]
      case CancelPendingReply(item) =>
        if item in list then Undo(hooks[1..], RemoveFirst(list, item)) else None
      case RestorePendingReply(link) => Undo(hooks[1..], [link] + list)
  }

  /** Undoing does not depend on the order of the list: a link that is put back
      in front instead of in its old place makes no difference. */
  lemma {:induction false} UndoIgnoresOrder(hooks: seq<Hook>, a: Pending, b: Pending)
    requires multiset(a) == multiset(b)
    ensures Undo(hooks, a).Some? <==> Undo(hooks, b).Some?
    ensures Undo(hooks, a).Some? ==> multiset(Undo(hooks, a).value) == multiset(Undo(hooks, b).value)
  {
    if hooks != [] {
      match hooks[0]
      case CancelPendingReply(item) =>
        assert item in a <==> item in multiset(a);
        assert item in b <==> item in multiset(b);
        RemoveFirstMultiset(a, item);
        RemoveFirstMultiset(b, item);
        if item in a {
          UndoIgnoresOrder(hooks[1..], RemoveFirst(a, item), RemoveFirst(b, item));
        }
      case RestorePendingReply(link) =>
        UndoIgnoresOrder(hooks[1..], [link] + a, [link] + b);
    }
  }

  /** Cancelling now would bring back exactly the entries `base`. */
  ghost predicate UndoesTo(b: Book, base: multiset<Item<Reply>>) {
    Undo(b.hooks, b.pending).Some? && multiset(Undo(b.hooks, b.pending).value) == base
  }

  lemma ExpectStaysUndoable(b: Book, base: multiset<Item<Reply>>, call: Call, noReply: bool, max: int,
                            memory: nat, id: int, now: int)
    requires UndoesTo(b, base)
    ensures UndoesTo(Expect(b, call, noReply, max, memory, id, now), base)
  {
    var b' := Expect(b, call, noReply, max, memory, id, now);
    if b' != b {
      assert b'.hooks[1..] == b.hooks;
      assert RemoveFirst(b'.pending, b'.pending[0]) == b.pending;
    }
  }

  lemma CheckStaysUndoable(b: Book, base: multiset<Item<Reply>>, call: Call, memory: nat)
    requires UndoesTo(b, base)
    ensures UndoesTo(Check(b, call, memory), base)
  {
    var b' := Check(b, call, memory);
    if b' != b {
      var k := IndexOfCall(b.pending, call);
      var link := b.pending[k];
      assert b'.hooks[1..] == b.hooks;
      assert b.pending == b.pending[..k] + [link] + b.pending[k + 1..];
      UndoIgnoresOrder(b.hooks, [link] + b'.pending, b.pending);
    }
  }

  /** The part of bus_context_check_security_policy that touches pending replies:
      a reply to its addressee is looked up first, the policy then decides with
      that knowledge, and an allowed method call is finally expected to be answered. */
  datatype Delivery = Delivery(
    sender: Connection,
    addressed: Option<Connection>,
    proposed: Option<Connection>,
    message: Message,
    policyAllows: bool -> bool)

  predicate ToAddressee(d: Delivery) {
    d.proposed.Some? && d.addressed == d.proposed
  }

  /** `errorSet` is a check that ran out of memory: the delivery is refused. */
  datatype Requested = Requested(reply: bool, errorSet: bool, book: Book)

  function RequestedReply(b: Book, d: Delivery, memory: nat): Requested {
    if d.message.replySerial != 0 && ToAddressee(d) then
      var call := Call(d.addressed.value, d.sender, d.message.replySerial);
      var answer := CheckAnswer(b, call, memory);
      Requested(answer == Yes, answer == NoMemory, Check(b, call, memory))
    else Requested(false, false, b)
  }

  function Secure(b: Book, d: Delivery, max: int, memory: nat, id: int, now: int): (r: (bool, Book)) {
    var q := RequestedReply(b, d, memory);
    if q.errorSet || !d.policyAllows(q.reply) then (false, q.book)
    else if d.message.kind == MethodCall && ToAddressee(d) then
      var call := Call(d.sender, d.addressed.value, d.message.serial);
      (ExpectAnswer(q.book, call, d.message.noReply, max, memory) == Yes,
       Expect(q.book, call, d.message.noReply, max, memory, id, now))
    else (true, q.book)
  }

  /** One call into the pending-reply code inside a transaction. */
  datatype Op =
    | ExpectOp(call: Call, noReply: bool, memory: nat, id: int, now: int)
    | CheckOp(call: Call, memory: nat)

  function Apply(b: Book, op: Op, max: int): Book {
    match op
    case ExpectOp(call, noReply, memory, id, now) => Expect(b, call, noReply, max, memory, id, now)
    case CheckOp(call, memory) => Check(b, call, memory)
  }

  function ApplyAll(b: Book, ops: seq<Op>, max: int): Book {
    if ops == [] then b else Apply(ApplyAll(b, ops[..|ops| - 1], max), ops[|ops| - 1], max)
  }

  /** What a security check does to the book, as calls into the pending-reply code. */
  function SecureOps(b: Book, d: Delivery, memory: nat, id: int, now: int): seq<Op> {
    var q := RequestedReply(b, d, memory);
    var checks := d.message.replySerial != 0 && ToAddressee(d);
    var expects := !q.errorSet && d.policyAllows(q.reply) && d.message.kind == MethodCall && ToAddressee(d);
    if checks && expects then [CheckOf(d, memory), ExpectOf(d, memory, id, now)]
    else if checks then [CheckOf(d, memory)]
    else if expects then [ExpectOf(d, memory, id, now)]
    else []
  }

  function CheckOf(d: Delivery, memory: nat): Op
    requires ToAddressee(d)
  {
    CheckOp(Call(d.addressed.value, d.sender, d.message.replySerial), memory)
  }

  function ExpectOf(d: Delivery, memory: nat, id: int, now: int): Op
    requires ToAddressee(d)
  {
    ExpectOp(Call(d.sender, d.addressed.value, d.message.serial), d.message.noReply, memory, id, now)
  }

  lemma ApplyTwo(b: Book, first: Op, second: Op, max: int)
    ensures ApplyAll(b, [first], max) == Apply(b, first, max)
    ensures ApplyAll(b, [first, second], max) == Apply(Apply(b, first, max), second, max)
  {
    assert [first][..0] == [] && [first, second][..1] == [first];
  }

  /** So everything that holds of sequences of such calls, undoing in
      particular, holds of the security check. */
  lemma SecureIsOps(b: Book, d: Delivery, max: int, memory: nat, id: int, now: int)
    ensures Secure(b, d, max, memory, id, now).1 == ApplyAll(b, SecureOps(b, d, memory, id, now), max)
  {
    if ToAddressee(d) {
      var check, recording := CheckOf(d, memory), ExpectOf(d, memory, id, now);
      ApplyTwo(b, check, recording, max);
      ApplyTwo(b, recording, check, max);
      hide ApplyAll;
    }
  }

  /** Cancelling is an exact undo: whatever a transaction did, successful or
      not, running its hooks never misses an entry and leaves the entries it
      found. */
  lemma {:induction false} CancelIsExactUndo(list: Pending, ops: seq<Op>, max: int)
    ensures UndoesTo(ApplyAll(Book(list, []), ops, max), multiset(list))
  {
    if ops != [] {
      var before := ApplyAll(Book(list, []), ops[..|ops| - 1], max);
      CancelIsExactUndo(list, ops[..|ops| - 1], max);
      match ops[|ops| - 1]
      case ExpectOp(call, noReply, memory, id, now) =>
        ExpectStaysUndoable(before, multiset(list), call, noReply, max, memory, id, now);
      case CheckOp(call, memory) => CheckStaysUndoable(before, multiset(list), call, memory);
    }
  }

  lemma {:induction false} ApplyAllAppend(b: Book, first: seq<Op>, later: seq<Op>, max: int)
    ensures ApplyAll(b, first + later, max) == ApplyAll(ApplyAll(b, first, max), later, max)
  {
    if later == [] {
      assert first + later == first;
    } else {
      assert (first + later)[..|first + later| - 1] == first + later[..|later| - 1];
      ApplyAllAppend(b, first, later[..|later| - 1], max);
    }
  }

  /** What a security check is given besides the message. */
  datatype Attempt = Attempt(delivery: Delivery, memory: nat, id: int, now: int)

  function SecureAll(b: Book, attempts: seq<Attempt>, max: int): Book {
    if attempts == [] then b
    else
      var last := attempts[|attempts| - 1];
      Secure(SecureAll(b, attempts[..|attempts| - 1], max), last.delivery, max, last.memory, last.id, last.now).1
  }

  /** The calls made by a sequence of security checks. */
  function AllOps(b: Book, attempts: seq<Attempt>, max: int): seq<Op> {
    if attempts == [] then []
    else
      var before, last := attempts[..|attempts| - 1], attempts[|attempts| - 1];
      AllOps(b, before, max) + SecureOps(SecureAll(b, before, max), last.delivery, last.memory, last.id, last.now)
  }

  lemma {:induction false} SecureAllIsOps(b: Book, attempts: seq<Attempt>, max: int)
    ensures SecureAll(b, attempts, max) == ApplyAll(b, AllOps(b, attempts, max), max)
  {
    if attempts != [] {
      var before, last := attempts[..|attempts| - 1], attempts[|attempts| - 1];
      var now := SecureAll(b, before, max);
      SecureAllIsOps(b, before, max);
      SecureIsOps(now, last.delivery, max, last.memory, last.id, last.now);
      ApplyAllAppend(b, AllOps(b, before, max), SecureOps(now, last.delivery, last.memory, last.id, last.now), max);
      hide Secure, SecureOps, ApplyAll;
    }
  }

  /** A transaction that delivers any number of messages, allowed or refused, is
      undone exactly as well. */
  lemma DeliveriesAreUndone(list: Pending, attempts: seq<Attempt>, max: int)
    ensures UndoesTo(SecureAll(Book(list, []), attempts, max), multiset(list))
  {
    SecureAllIsOps(Book(list, []), attempts, max);
    CancelIsExactUndo(list, AllOps(Book(list, []), attempts, max), max);
  }

  // ---- disconnection -------------------------------------------------------------

  /** bus_connection_drop_pending_replies: what `gone` waits for is forgotten,
      what it owes becomes overdue. */
  function DropFor(list: Pending, gone: Connection): Pending {
    if list == [] then []
    else
      var rest := DropFor(list[1..], gone);
      if list[0].data.caller == gone then rest
      else if list[0].data.replier == Some(gone) then [Item(list[0].data.(replier := None), 0)] + rest
      else [list[0]] + rest
  }

  function ForgottenFor(list: Pending, gone: Connection): Pending {
    if list == [] then []
    else if list[0].data.caller == gone then [list[0]] + ForgottenFor(list[1..], gone)
    else ForgottenFor(list[1..], gone)
  }

  /** What becomes of an entry that its caller still waits for. */
  function Orphaned(x: Item<Reply>, gone: Connection): Item<Reply> {
    if x.data.replier == Some(gone) then Item(x.data.(replier := None), 0) else x
  }

  /** After its disconnection nothing refers to the connection: its own entries are
      gone, every other stays, overdue if the connection owed the reply, and there
      are no further ones. */
  lemma {:induction false} DropLeavesNoTrace(list: Pending, gone: Connection)
    ensures forall x :: x in DropFor(list, gone) ==>
      x.data.caller != gone && x.data.replier != Some(gone) && (x.data.replier == None && x !in list ==> x.added == 0)
    ensures forall x :: x in list && x.data.caller != gone ==> Orphaned(x, gone) in DropFor(list, gone)
    ensures forall x :: x in DropFor(list, gone) ==> x in list || (x.data.replier == None && x.added == 0)
    ensures |DropFor(list, gone)| + |ForgottenFor(list, gone)| == |list|
  {
    if list != [] {
      DropLeavesNoTrace(list[1..], gone);
      assert list == [list[0]] + list[1..];
    }
  }

  // ---- what each call answers and does ---------------------------------------------------------

  /** Some entry with a live replier is for the call. */
  ghost predicate Awaited(list: Pending, caller: Connection, replier: Connection, serial: nat) {
    exists i :: 0 <= i < |list| && Matches(list[i], caller, replier, serial)
  }

  predicate Matches(item: Item<Reply>, caller: Connection, replier: Connection, serial: nat) {
    item.data.caller == caller && item.data.replier == Some(replier) && item.data.serial == serial
  }

  /** The list without its first entry for the call. */
  ghost predicate FirstTaken(list: Pending, rest: Pending, caller: Connection, replier: Connection, serial: nat) {
    exists k :: 0 <= k < |list| && Matches(list[k], caller, replier, serial) && rest == list[..k] + list[k + 1..]
      && forall i :: 0 <= i < k ==> !Matches(list[i], caller, replier, serial)
  }

  ghost function PlacesOf(list: Pending, caller: Connection): set<int> {
    set i | 0 <= i < |list| && list[i].data.caller == caller
  }

  lemma {:induction false} CountForIsNumber(list: Pending, caller: Connection)
    ensures CountFor(list, caller) == |PlacesOf(list, caller)|
  {
    if list == [] {
      assert PlacesOf(list, caller) == {};
    } else {
      var later := PlacesOf(list, caller) - {0};
      CountForIsNumber(list[1..], caller);
      forall x
        ensures x in later <==> x - 1 in PlacesOf(list[1..], caller)
      {
      }
      hide PlacesOf;
      ShiftKeepsNumber(PlacesOf(list[1..], caller), later);
      FirstPlace(list, caller);
    }
  }

  lemma FirstPlace(list: Pending, caller: Connection)
    requires list != []
    ensures 0 in PlacesOf(list, caller) <==> list[0].data.caller == caller
  {
  }

  lemma SomeMember<X>(s: set<X>) returns (i: X)
    requires s != {}
    ensures i in s
  {
    i :| i in s;
  }

  lemma {:induction false} ShiftKeepsNumber(places: set<int>, shifted: set<int>)
    requires forall x :: x in shifted <==> x - 1 in places
    ensures |shifted| == |places|
    decreases |places|
  {
    if |places| == 0 {
      assert places == {};
      assert forall x :: x in shifted ==> x - 1 in places;
      assert shifted == {};
    } else {
      var i := SomeMember(places);
      ShiftKeepsNumber(places - {i}, shifted - {i + 1});
    }
  }

  /** When a call may be recorded, said of the entries alone; a recorded one comes first. */
  lemma ExpectOutcome(b: Book, call: Call, noReply: bool, max: int, memory: nat, id: int, now: int)
    ensures var answer, b' :=
      ExpectAnswer(b, call, noReply, max, memory), Expect(b, call, noReply, max, memory, id, now);
      var known := Awaited(b.pending, call.caller, call.replier, call.serial);
      var full := |PlacesOf(b.pending, call.caller)| >= max;
      var entry := Item(Reply(id, call.caller, Some(call.replier), call.serial), now);
      && (answer == AccessDenied <==> !noReply && known)
      && (answer == LimitsExceeded <==> !noReply && !known && full)
      && (answer == NoMemory <==> !noReply && !known && !full && memory < 5)
      && (answer == Yes <==> noReply || (!known && !full && memory >= 5))
      && b' == (if answer == Yes &&
         !noReply then Book([entry] + b.pending, [CancelPendingReply(entry)] + b.hooks) else b)
  {
    CountForIsNumber(b.pending, call.caller);
    IndexIsFirst(b.pending, call);
    hide PlacesOf, CountFor;
  }

  lemma IndexIsFirst(list: Pending, call: Call)
    ensures IndexOfCall(list, call) < |list| <==> Awaited(list, call.caller, call.replier, call.serial)
    ensures IndexOfCall(list, call) < |list| ==>
      FirstTaken(list, DropAt(list, IndexOfCall(list, call)), call.caller, call.replier, call.serial)
  {
    var k := IndexOfCall(list, call);
    forall i | 0 <= i < |list|
      ensures IsFor(list[i], call) <==> Matches(list[i], call.caller, call.replier, call.serial)
    {
    }
    if k < |list| {
      assert Matches(list[k], call.caller, call.replier, call.serial);
    }
    hide IsFor, Matches;
  }

  /** When a reply was asked for; its entry is taken out, with a hook to put it back. */
  lemma CheckOutcome(b: Book, call: Call, memory: nat)
    ensures var answer, b' := CheckAnswer(b, call, memory), Check(b, call, memory);
      var known := Awaited(b.pending, call.caller, call.replier, call.serial);
      && (answer == Yes <==> known && memory >= 3) && (answer == NoMemory <==> known && memory < 3) &&
         (answer == No <==> !known)
      && (answer == Yes ==>
            FirstTaken(b.pending, b'.pending, call.caller, call.replier, call.serial)
            && |b'.hooks| == |b.hooks| + 1 && b'.hooks[1..] == b.hooks && b'.hooks[0].RestorePendingReply?)
      && (answer != Yes ==> b' == b)
  {
    IndexIsFirst(b.pending, call);
    hide Awaited, FirstTaken;
  }

  /** The security check lets a message through exactly if the lookup of the call it
      answers does not run out of memory, the policy allows it, knowing whether it
      is a reply that was asked for, and a call to its addressee can be recorded,
      which it then is.  `rest` are the entries after the lookup. */
  lemma SecureOutcome(b: Book, d: Delivery, max: int, memory: nat, id: int, now: int) returns (rest: Pending)
    ensures var (allowed, b') := Secure(b, d, max, memory, id, now);
      var direct := d.addressed.Some? && d.proposed == d.addressed;
      var answers := direct && d.message.replySerial != 0
        && Awaited(b.pending, d.addressed.value, d.sender, d.message.replySerial);
      var asked := answers && memory >= 3;
      var records := direct && d.message.kind == MethodCall && !d.message.noReply;
      var fits := records ==> !Awaited(rest, d.sender, d.addressed.value, d.message.serial)
                              && |PlacesOf(rest, d.sender)| < max && memory >= 5;
      && (asked ==> FirstTaken(b.pending, rest, d.addressed.value, d.sender, d.message.replySerial))
      && (!asked ==> rest == b.pending)
      && (allowed <==> (answers ==> memory >= 3) && d.policyAllows(asked) && fits)
      && b'.pending == (if allowed && records
                        then [Item(Reply(id, d.sender, d.addressed, d.message.serial), now)] + rest else rest)
  {
    var q := RequestedReply(b, d, memory);
    rest := q.book.pending;
    LookupOutcome(b, d, memory);
    if ToAddressee(d) {
      var call := Call(d.sender, d.addressed.value, d.message.serial);
      ExpectOutcome(q.book, call, d.message.noReply, max, memory, id, now);
    }
    hide Awaited, FirstTaken, PlacesOf, RequestedReply, ExpectAnswer, Expect;
  }

  /** The lookup at the beginning of the security check. */
  lemma LookupOutcome(b: Book, d: Delivery, memory: nat)
    ensures var q := RequestedReply(b, d, memory);
      var direct := d.addressed.Some? && d.proposed == d.addressed;
      var answers := direct && d.message.replySerial != 0
        && Awaited(b.pending, d.addressed.value, d.sender, d.message.replySerial);
      && (q.reply <==> answers && memory >= 3) && (q.errorSet <==> answers && memory < 3)
      && (q.reply ==> FirstTaken(b.pending, q.book.pending, d.addressed.value, d.sender, d.message.replySerial))
      && (!q.reply ==> q.book == b)
  {
    if ToAddressee(d) {
      CheckOutcome(b, Call(d.addressed.value, d.sender, d.message.replySerial), memory);
    }
    hide Awaited, FirstTaken, CheckAnswer, Check;
  }
}

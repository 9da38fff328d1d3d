/** Whole runs of the pending-reply code: transactions one after the other,
    expiry passes and disconnections between them.  Every reply permission is
    used at most once, and every recorded call ends in exactly one way. */
module PendingReplyRuns {
  import opened BusTypes
  import opened Collections
  import opened ExpireList
  import opened PendingReplyTheory

  // ---- counting entries -------------------------------------------------------------

  /** The entries a live replier may still answer the call through; those
      waiting for any reply to (caller, serial); all those of a caller. */
  datatype Query = LiveFor(call: Call) | AskedBy(caller: Connection, serial: nat) | HeldBy(caller: Connection)

  predicate Hits(i: Item<Reply>, q: Query) {
    match q
    case LiveFor(call) => IsFor(i, call)
    case AskedBy(caller, serial) => i.data.caller == caller && i.data.serial == serial
    case HeldBy(caller) => i.data.caller == caller
  }

  function Tally(list: Pending, q: Query): nat {
    if list == [] then 0 else Tally(list[1..], q) + if Hits(list[0], q) then 1 else 0
  }

  lemma {:induction false} TallyAppend(a: Pending, b: Pending, q: Query)
    ensures Tally(a + b, q) == Tally(a, q) + Tally(b, q)
  {
    if a == [] {
      assert a + b == b;
    } else {
      assert (a + b)[1..] == a[1..] + b;
      TallyAppend(a[1..], b, q);
    }
  }

  lemma TallyDrop(list: Pending, k: nat, q: Query)
    requires k < |list|
    ensures Tally(list, q) == Tally(DropAt(list, k), q) + if Hits(list[k], q) then 1 else 0
  {
    assert list == list[..k] + list[k..];
    TallyAppend(list[..k], list[k..], q);
    TallyAppend(list[..k], list[k + 1..], q);
  }

  lemma {:induction false} TallyIgnoresOrder(a: Pending, b: Pending, q: Query)
    requires multiset(a) == multiset(b)
    ensures Tally(a, q) == Tally(b, q)
  {
    if a == [] {
      assert |multiset(b)| == 0;
    } else {
      var k := FirstOfOther(a, b);
      TallyIgnoresOrder(a[1..], DropAt(b, k), q);
      TallyDrop(b, k, q);
    }
  }

  lemma {:induction false} NotFoundMeansNotLive(list: Pending, call: Call)
    requires IndexOfCall(list, call) == |list|
    ensures Tally(list, LiveFor(call)) == 0
  {
    if list != [] {
      NotFoundMeansNotLive(list[1..], call);
    }
  }

  lemma {:induction false} CountForIsTally(list: Pending, caller: Connection)
    ensures CountFor(list, caller) == Tally(list, HeldBy(caller))
  {
    if list != [] {
      CountForIsTally(list[1..], caller);
    }
  }

  lemma {:induction false} DropForTally(list: Pending, gone: Connection, q: Query)
    ensures q.AskedBy? ==> Tally(ForgottenFor(list, gone), q) + Tally(DropFor(list, gone), q) == Tally(list, q)
    ensures Tally(DropFor(list, gone), q) <= Tally(list, q)
  {
    if list != [] {
      var rest, forgotten := DropFor(list[1..], gone), ForgottenFor(list[1..], gone);
      DropForTally(list[1..], gone, q);
      if list[0].data.caller == gone {
        assert ([list[0]] + forgotten)[1..] == forgotten;
      } else {
        var kept := DropFor(list, gone)[0];
        assert DropFor(list, gone)[1..] == rest;
      }
    }
  }

  // ---- the books over time -------------------------------------------------------------

  /** What has happened to one call so far, in numbers. */
  datatype Ledger = Ledger(
    expected: nat,    // recorded by expect_reply for this replier
    consumed: nat,    // used up by check_reply from this replier
    asked: nat,       // recorded for this caller and serial, any replier
    answered: nat,    // used up for this caller and serial, any replier
    timedOut: nat,    // told that no reply will come
    abandoned: nat)   // forgotten because the caller has gone

  /** `committed` counts executed transactions only, `draft` the open one as well. */
  datatype Daemon = Daemon(book: Book, open: bool, base: Pending, committed: Ledger, draft: Ledger)

  datatype Event =
    | Begun
    | Did(op: Op)
    | Committed
    | Aborted
    | Expired(expireAfter: int, now: int)
    | Gone(conn: Connection)

  ghost predicate Enabled(w: Daemon, e: Event) {
    w.open <==> (e.Did? || e.Committed? || e.Aborted?)
  }

  function AskOf(call: Call): Query {
    AskedBy(call.caller, call.serial)
  }

  function SameAsk(a: Call, b: Call): bool {
    a.caller == b.caller && a.serial == b.serial
  }

  function Record(l: Ledger, b: Book, op: Op, max: int, call: Call): Ledger {
    match op
    case ExpectOp(c, noReply, memory, _, _) =>
      if ExpectAnswer(b, c, noReply, max, memory) != Yes || noReply then l
      else l.(expected := l.expected + (if c == call then 1 else 0),
              asked := l.asked + (if SameAsk(c, call) then 1 else 0))
    case CheckOp(c, memory) =>
      if CheckAnswer(b, c, memory) != Yes then l
      else l.(consumed := l.consumed + (if c == call then 1 else 0),
              answered := l.answered + (if SameAsk(c, call) then 1 else 0))
  }

  /** None is a failed assertion in a cancel hook. */
  function Step(w: Daemon, e: Event, max: int, call: Call): Option<Daemon> {
    match e
    case Begun => Some(w.(open := true, base := w.book.pending))
    case Did(op) => Some(w.(book := Apply(w.book, op, max), draft := Record(w.draft, w.book, op, max, call)))
    case Committed => Some(w.(open := false, book := w.book.(hooks := []), committed := w.draft))
    case Aborted =>
      var undone := Undo(w.book.hooks, w.book.pending);
      if undone.None? then None
      else Some(w.(open := false, book := Book(undone.value, []), draft := w.committed))
    case Expired(expireAfter, now) =>
      var n := Tally(Due(w.book.pending, expireAfter, now), AskOf(call));
      var l := w.committed.(timedOut := w.committed.timedOut + n);
      Some(w.(book := Book(Waiting(w.book.pending, expireAfter, now), []), committed := l, draft := l))
    case Gone(c) =>
      var n := Tally(ForgottenFor(w.book.pending, c), AskOf(call));
      var l := w.committed.(abandoned := w.committed.abandoned + n);
      Some(w.(book := Book(DropFor(w.book.pending, c), []), committed := l, draft := l))
  }

  predicate Balanced(list: Pending, l: Ledger, max: int, call: Call) {
    && l.consumed + Tally(list, LiveFor(call)) <= l.expected
    && l.answered + l.timedOut + l.abandoned + Tally(list, AskOf(call)) == l.asked
    && Tally(list, LiveFor(call)) <= 1
    && Tally(list, HeldBy(call.caller)) <= max
  }

  ghost predicate Sound(w: Daemon, max: int, call: Call) {
    && Balanced(w.book.pending, w.draft, max, call)
    && (if w.open then Balanced(w.base, w.committed, max, call) && UndoesTo(w.book, multiset(w.base))
        else w.book.hooks == [] && w.draft == w.committed)
  }

  lemma BalancedIgnoresOrder(a: Pending, b: Pending, l: Ledger, max: int, call: Call)
    requires multiset(a) == multiset(b) && Balanced(a, l, max, call)
    ensures Balanced(b, l, max, call)
  {
    TallyIgnoresOrder(a, b, LiveFor(call));
    TallyIgnoresOrder(a, b, AskOf(call));
    TallyIgnoresOrder(a, b, HeldBy(call.caller));
  }

  lemma ExpectStaysBalanced(b: Book, l: Ledger, op: Op, max: int, call: Call)
    requires op.ExpectOp? && Balanced(b.pending, l, max, call)
    ensures Balanced(Apply(b, op, max).pending, Record(l, b, op, max, call), max, call)
  {
    var b' := Apply(b, op, max);
    if ExpectAnswer(b, op.call, op.noReply, max, op.memory) == Yes && !op.noReply {
      assert b'.pending[1..] == b.pending;
      NotFoundMeansNotLive(b.pending, op.call);
      CountForIsTally(b.pending, op.call.caller);
    }
  }

  lemma CheckStaysBalanced(b: Book, l: Ledger, op: Op, max: int, call: Call)
    requires op.CheckOp? && Balanced(b.pending, l, max, call)
    ensures Balanced(Apply(b, op, max).pending, Record(l, b, op, max, call), max, call)
  {
    if CheckAnswer(b, op.call, op.memory) == Yes {
      var k := IndexOfCall(b.pending, op.call);
      TallyDrop(b.pending, k, LiveFor(call));
      TallyDrop(b.pending, k, AskOf(call));
      TallyDrop(b.pending, k, HeldBy(call.caller));
    }
  }

  lemma ExpiryStaysBalanced(list: Pending, l: Ledger, expireAfter: int, now: int, max: int, call: Call)
    requires Balanced(list, l, max, call)
    ensures var n := Tally(Due(list, expireAfter, now), AskOf(call));
      Balanced(Waiting(list, expireAfter, now), l.(timedOut := l.timedOut + n), max, call)
  {
    var due, waiting := Due(list, expireAfter, now), Waiting(list, expireAfter, now);
    DueAndWaiting(list, expireAfter, now);
    BalancedIgnoresOrder(list, due + waiting, l, max, call);
    TallyAppend(due, waiting, LiveFor(call));
    TallyAppend(due, waiting, AskOf(call));
    TallyAppend(due, waiting, HeldBy(call.caller));
  }

  lemma DisconnectStaysBalanced(list: Pending, l: Ledger, gone: Connection, max: int, call: Call)
    requires Balanced(list, l, max, call)
    ensures var n := Tally(ForgottenFor(list, gone), AskOf(call));
      Balanced(DropFor(list, gone), l.(abandoned := l.abandoned + n), max, call)
  {
    DropForTally(list, gone, LiveFor(call));
    DropForTally(list, gone, AskOf(call));
    DropForTally(list, gone, HeldBy(call.caller));
  }

  lemma StepStaysSound(w: Daemon, e: Event, max: int, call: Call)
    requires Sound(w, max, call) && Enabled(w, e)
    ensures Step(w, e, max, call).Some? && Sound(Step(w, e, max, call).value, max, call)
  {
    match e
    case Begun =>
    case Did(op) =>
      if op.ExpectOp? {
        ExpectStaysBalanced(w.book, w.draft, op, max, call);
        ExpectStaysUndoable(w.book, multiset(w.base), op.call, op.noReply, max, op.memory, op.id, op.now);
      } else {
        CheckStaysBalanced(w.book, w.draft, op, max, call);
        CheckStaysUndoable(w.book, multiset(w.base), op.call, op.memory);
      }
    case Committed =>
    case Aborted => BalancedIgnoresOrder(w.base, Undo(w.book.hooks, w.book.pending).value, w.committed, max, call);
    case Expired(expireAfter, now) => ExpiryStaysBalanced(w.book.pending, w.committed, expireAfter, now, max, call);
    case Gone(c) => DisconnectStaysBalanced(w.book.pending, w.committed, c, max, call);
  }

  const NOTHING_YET := Ledger(0, 0, 0, 0, 0, 0)
  const START := Daemon(Book([], []), false, [], NOTHING_YET, NOTHING_YET)

  function After(log: seq<Event>, max: int, call: Call): Option<Daemon> {
    if log == [] then Some(START)
    else
      var before := After(log[..|log| - 1], max, call);
      if before.None? then None else Step(before.value, log[|log| - 1], max, call)
  }

  ghost predicate IsRun(log: seq<Event>, max: int, call: Call) {
    log == [] ||
    (IsRun(log[..|log| - 1], max, call) &&
     var before := After(log[..|log| - 1], max, call);
     before.Some? ==> Enabled(before.value, log[|log| - 1]))
  }

  lemma {:induction false} RunStaysSound(log: seq<Event>, max: nat, call: Call)
    requires IsRun(log, max, call)
    ensures After(log, max, call).Some? && Sound(After(log, max, call).value, max, call)
  {
    if log != [] {
      RunStaysSound(log[..|log| - 1], max, call);
      StepStaysSound(After(log[..|log| - 1], max, call).value, log[|log| - 1], max, call);
    }
  }

  /** Over every run and for every call: cancelling never misses an entry; a
      permission to reply is used at most as often as it was granted; at most one
      entry with a live replier matches; no caller has more than `max` entries. */
  lemma RepliesAreOneShot(log: seq<Event>, max: nat, call: Call)
    requires IsRun(log, max, call)
    ensures After(log, max, call).Some?
    ensures var w := After(log, max, call).value;
      && w.committed.consumed <= w.committed.expected
      && (!w.open ==> w.committed.consumed + Tally(w.book.pending, LiveFor(call)) <= w.committed.expected)
      && Tally(w.book.pending, LiveFor(call)) <= 1
      && CountFor(w.book.pending, call.caller) <= max
  {
    RunStaysSound(log, max, call);
    CountForIsTally(After(log, max, call).value.book.pending, call.caller);
  }

  /** Between transactions every recorded call is in exactly one place: answered,
      told that no reply will come, abandoned by its caller, or still pending. */
  lemma EveryCallEndsOnce(log: seq<Event>, max: nat, call: Call)
    requires IsRun(log, max, call)
    ensures After(log, max, call).Some?
    ensures var w := After(log, max, call).value;
      !w.open ==>
        w.committed.asked == w.committed.answered + w.committed.timedOut + w.committed.abandoned +
                             Tally(w.book.pending, AskOf(call))
  {
    RunStaysSound(log, max, call);
  }
}

/** Telling the callers that an activation has failed (bus/activation.c), and
    sweeping every pending activation with the same cause, on values. */
module ActivationFailure {
  import opened BusTypes
  import opened Collections
  import opened ActivationTheory
  import Bus = TransactionTheory

  /** dbus_message_new_error sent by the driver */
  function ErrorReply(request: Message, how: string): Message {
    Message(Error, 0, request.serial, true, how)
  }

  /** Waits for the activation, is connected, and may be sent to by the driver. */
  predicate IsTold(e: Entry, up: set<Connection>, allowed: set<Connection>) {
    e.connection.Some? && e.connection.value in up && e.connection.value in allowed
  }

  /** The errors for one caller: one for each of its entries, in order. */
  function ErrorsFor(entries: seq<Entry>, c: Connection, up: set<Connection>, allowed: set<Connection>,
                     how: string): seq<Message> {
    if entries == [] then []
    else
      ErrorsFor(entries[..|entries| - 1], c, up, allowed, how) + MoreFor(entries[|entries| - 1], c, up, allowed, how)
  }

  function MoreFor(e: Entry, c: Connection, up: set<Connection>, allowed: set<Connection>, how: string): seq<Message> {
    if e.connection == Some(c) && IsTold(e, up, allowed) then [ErrorReply(e.message, how)] else []
  }

  /** Every caller has been handed its errors, nothing else has changed. */
  function Told(s: Bus.State, entries: seq<Entry>, allowed: set<Connection>, how: string): Bus.State {
    s.(outgoing := map c | c in s.outgoing :: s.outgoing[c] + ErrorsFor(entries, c, s.up, allowed, how))
  }

  lemma ToldNobody(s: Bus.State, allowed: set<Connection>, how: string)
    ensures Told(s, [], allowed, how) == s
  {
    assert forall c :: c in s.outgoing ==> s.outgoing[c] + [] == s.outgoing[c];
  }

  lemma ToldOneMore(s: Bus.State, entries: seq<Entry>, e: Entry, allowed: set<Connection>, how: string)
    requires s.up <= s.outgoing.Keys
    ensures Told(s, entries + [e], allowed, how) ==
      if IsTold(e, s.up, allowed)
      then Bus.Handed(Told(s, entries, allowed, how), e.connection.value, ErrorReply(e.message, how))
      else Told(s, entries, allowed, how)
  {
    var before, after := Told(s, entries, allowed, how), Told(s, entries + [e], allowed, how);
    forall c | c in s.outgoing
      ensures after.outgoing[c] == before.outgoing[c] + MoreFor(e, c, s.up, allowed, how)
      ensures MoreFor(e, c, s.up, allowed, how) == [] ==> after.outgoing[c] == before.outgoing[c]
    {
      assert (entries + [e])[..|entries + [e]| - 1] == entries;
    }
    hide ErrorsFor, IsTold;
    if IsTold(e, s.up, allowed) {
      var c := e.connection.value;
      assert after.outgoing[c] == before.outgoing[c] + [ErrorReply(e.message, how)];
      assert after.outgoing == before.outgoing[c := before.outgoing[c] + [ErrorReply(e.message, how)]];
    } else {
      assert forall c :: c in s.outgoing ==> MoreFor(e, c, s.up, allowed, how) == [];
      assert after.outgoing == before.outgoing;
    }
  }

  // ---- sweeping ---------------------------------------------------------------------------

  function RemoveAll(s: Ledger, names: seq<string>): Ledger {
    if names == [] then s else Remove(RemoveAll(s, names[..|names| - 1]), names[|names| - 1])
  }

  /** The entries of the given names, in the order of the names. */
  function EntriesOf(s: Ledger, names: seq<string>): seq<Entry> {
    if names == [] then []
    else
      var name := names[|names| - 1];
      EntriesOf(s, names[..|names| - 1]) +
        if name in s.table && s.table[name] in s.objects then s.objects[s.table[name]].entries else []
  }

  ghost predicate TableRefers(s: Ledger) {
    forall name :: name in s.table ==> s.table[name] in s.objects && s.objects[s.table[name]].serviceName == name
  }

  lemma RemoveOthersKept(s: Ledger, name: string)
    requires TableRefers(s)
    ensures TableRefers(Remove(s, name))
    ensures Remove(s, name).table == s.table - {name} && Remove(s, name).hooks == s.hooks
    ensures forall other :: other in s.table && other != name ==>
      s.table[other] in Remove(s, name).objects && Remove(s, name).objects[s.table[other]] == s.objects[s.table[other]]
  {
  }

  /** Exactly the named activations are gone from the table; the others are untouched. */
  lemma {:induction false} SweepIsExact(s: Ledger, names: seq<string>)
    requires TableRefers(s)
    ensures TableRefers(RemoveAll(s, names)) && RemoveAll(s, names).hooks == s.hooks
    ensures forall name :: name in RemoveAll(s, names).table <==> name in s.table && name !in names
    ensures forall name :: name in RemoveAll(s, names).table ==>
      RemoveAll(s, names).table[name] == s.table[name] &&
      s.table[name] in RemoveAll(s, names).objects &&
      RemoveAll(s, names).objects[s.table[name]] == s.objects[s.table[name]]
  {
    if names != [] {
      var before, last := names[..|names| - 1], names[|names| - 1];
      assert names == before + [last];
      SweepIsExact(s, before);
      RemoveOthersKept(RemoveAll(s, before), last);
    }
  }

  lemma {:induction false} SweepStaysSound(s: Ledger, names: seq<string>)
    requires Sound(s, multiset{}, [])
    ensures Sound(RemoveAll(s, names), multiset{}, [])
  {
    if names != [] {
      SweepStaysSound(s, names[..|names| - 1]);
      RemoveStaysSound(RemoveAll(s, names[..|names| - 1]), names[|names| - 1], multiset{}, []);
    }
  }

  lemma {:induction false} ToldInTwoParts(s: Bus.State, a: seq<Entry>, b: seq<Entry>,
                                          allowed: set<Connection>, how: string)
    ensures Told(Told(s, a, allowed, how), b, allowed, how) == Told(s, a + b, allowed, how)
  {
    hide ErrorsFor;
    forall c | c in s.outgoing
      ensures Told(Told(s, a, allowed, how), b, allowed, how).outgoing[c] == Told(s, a + b, allowed, how).outgoing[c]
    {
      ErrorsAppend(a, b, c, s.up, allowed, how);
    }
  }

  lemma {:induction false} ErrorsAppend(a: seq<Entry>, b: seq<Entry>, c: Connection, up: set<Connection>,
                                        allowed: set<Connection>, how: string)
    ensures ErrorsFor(a + b, c, up, allowed, how) ==
      ErrorsFor(a, c, up, allowed, how) + ErrorsFor(b, c, up, allowed, how)
  {
    if b == [] {
      assert a + b == a;
    } else {
      assert (a + b)[..|a + b| - 1] == a + b[..|b| - 1];
      ErrorsAppend(a, b[..|b| - 1], c, up, allowed, how);
    }
  }

  // ---- which activations fail together -----------------------------------------------------

  datatype Cause = SameExec(exec: string) | SameUnit(unit: string)

  predicate Concerns(cause: Cause, o: PendingActivation) {
    match cause
    case SameExec(exec) => o.exec == exec
    case SameUnit(unit) => o.systemdService == Some(unit)
  }

  /** Is in the table, is not the one kept for last, and has failed for this cause. */
  predicate IsHit(s: Ledger, name: string, cause: Cause, last: Option<string>) {
    && name in s.table && s.table[name] in s.objects && Some(name) != last
    && Concerns(cause, s.objects[s.table[name]])
  }

  /** The names hit, in the order the table is walked. */
  function Hit(s: Ledger, order: seq<string>, cause: Cause, last: Option<string>): seq<string> {
    if order == [] then []
    else
      Hit(s, order[..|order| - 1], cause, last) +
        if IsHit(s, order[|order| - 1], cause, last) then [order[|order| - 1]] else []
  }

  lemma {:induction false} HitAreExactly(s: Ledger, order: seq<string>, cause: Cause, last: Option<string>)
    ensures forall name :: name in Hit(s, order, cause, last) <==> name in order && IsHit(s, name, cause, last)
  {
    if order != [] {
      HitAreExactly(s, order[..|order| - 1], cause, last);
      assert order == order[..|order| - 1] + [order[|order| - 1]];
    }
  }

  /** The walk over one more name of the table. */
  lemma SweepOneMore(s: Ledger, order: seq<string>, i: nat, cause: Cause, last: Option<string>)
    requires TableRefers(s) && NoDuplicates(order) && i < |order| && order[i] in s.table
    ensures var done := Hit(s, order[..i], cause, last);
      var now := RemoveAll(s, done);
      && Hit(s, order[..i + 1], cause, last) == (if IsHit(s, order[i], cause, last) then done + [order[i]] else done)
      && RemoveAll(s, done + [order[i]]) == Remove(now, order[i])
      && EntriesOf(s, done + [order[i]]) == EntriesOf(s, done) + s.objects[s.table[order[i]]].entries
      && order[i] in now.table && now.table[order[i]] == s.table[order[i]]
      && s.table[order[i]] in now.objects && now.objects[s.table[order[i]]] == s.objects[s.table[order[i]]]
  {
    var done := Hit(s, order[..i], cause, last);
    HitAreExactly(s, order[..i], cause, last);
    SweepIsExact(s, done);
    assert order[i] !in order[..i];
    assert order[..i + 1][..i] == order[..i];
    assert (done + [order[i]])[..|done|] == done;
  }

  /** After a failed child exit exactly the activations with its command line
      are gone, whatever the order of the walk. */
  lemma SameExecIsGone(s: Ledger, order: seq<string>, name: string)
    requires Sound(s, multiset{}, []) && name in s.table && forall n :: n in order <==> n in s.table
    ensures var exec := s.objects[s.table[name]].exec;
      var s' := RemoveAll(s, Hit(s, order, SameExec(exec), Some(name)) + [name]);
      && Sound(s', multiset{}, [])
      && (forall n :: n in s'.table <==> (n in s.table && s.objects[s.table[n]].exec != exec))
      && (forall n :: n in s'.table ==> s'.table[n] == s.table[n] && s'.objects[s'.table[n]] == s.objects[s.table[n]])
  {
    var hit := Hit(s, order, SameExec(s.objects[s.table[name]].exec), Some(name));
    HitAreExactly(s, order, SameExec(s.objects[s.table[name]].exec), Some(name));
    SweepIsExact(s, hit + [name]);
    SweepStaysSound(s, hit + [name]);
    hide ObjectSound, RemoveAll, Hit;
  }

  /** After a failure in systemd exactly the activations of the unit are gone. */
  lemma SameUnitIsGone(s: Ledger, order: seq<string>, unit: string)
    requires Sound(s, multiset{}, []) && forall n :: n in order <==> n in s.table
    ensures var s' := RemoveAll(s, Hit(s, order, SameUnit(unit), None));
      && Sound(s', multiset{}, [])
      && (forall n :: n in s'.table <==> (n in s.table && s.objects[s.table[n]].systemdService != Some(unit)))
      && (forall n :: n in s'.table ==> s'.table[n] == s.table[n] && s'.objects[s'.table[n]] == s.objects[s.table[n]])
  {
    var hit := Hit(s, order, SameUnit(unit), None);
    HitAreExactly(s, order, SameUnit(unit), None);
    SweepIsExact(s, hit);
    SweepStaysSound(s, hit);
    hide ObjectSound, RemoveAll, Hit;
  }

  // ---- every caller is told once per request -------------------------------------------------

  function ErrorsAnswering(messages: seq<Message>, serial: int): nat {
    if messages == [] then 0
    else
      ErrorsAnswering(messages[..|messages| - 1], serial) +
        if messages[|messages| - 1].kind == Error && messages[|messages| - 1].replySerial == serial then 1 else 0
  }

  function RequestsBy(entries: seq<Entry>, c: Connection, serial: int): nat {
    if entries == [] then 0
    else
      RequestsBy(entries[..|entries| - 1], c, serial) +
        if entries[|entries| - 1].connection == Some(c) && entries[|entries| - 1].message.serial == serial then 1 else 0
  }

  /** Each request of a connected, permitted caller is answered by exactly one error. */
  lemma {:induction false} EveryRequestAnsweredOnce(entries: seq<Entry>, c: Connection, serial: int,
      up: set<Connection>, allowed: set<Connection>, how: string)
    ensures ErrorsAnswering(ErrorsFor(entries, c, up, allowed, how), serial) ==
      if c in up && c in allowed then RequestsBy(entries, c, serial) else 0
  {
    if entries != [] {
      EveryRequestAnsweredOnce(entries[..|entries| - 1], c, serial, up, allowed, how);
      var before := ErrorsFor(entries[..|entries| - 1], c, up, allowed, how);
      var more := MoreFor(entries[|entries| - 1], c, up, allowed, how);
      if more == [] {
        assert before + more == before;
      } else {
        assert (before + more)[..|before + more| - 1] == before;
      }
    }
  }

  /** The requests waiting for one caller, in order. */
  function RequestsOf(entries: seq<Entry>, c: Connection): seq<Message> {
    if entries == [] then []
    else
      var last := entries[|entries| - 1];
      RequestsOf(entries[..|entries| - 1], c) + if last.connection == Some(c) then [last.message] else []
  }

  /** Each caller is answered in the order of its requests, and every answer is an
      error with the cause of the failure. */
  lemma {:induction false} EveryAnswerNamesCause(entries: seq<Entry>, c: Connection, up: set<Connection>,
                                                 allowed: set<Connection>, how: string)
    requires c in up && c in allowed
    ensures var (errors, requests) := (ErrorsFor(entries, c, up, allowed, how), RequestsOf(entries, c));
      && |errors| == |requests|
      && forall k :: 0 <= k < |errors| ==>
           errors[k].kind == Error && errors[k].replySerial == requests[k].serial && errors[k].errorName == how &&
           errors[k].noReply
  {
    if entries != [] {
      EveryAnswerNamesCause(entries[..|entries| - 1], c, up, allowed, how);
    }
  }
}

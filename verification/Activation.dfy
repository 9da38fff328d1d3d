/** bus/activation.c over the tables and counters it changes in place. */
module Activation {
  import opened BusTypes
  import opened Collections
  import opened ActivationTheory
  import opened ActivationRuns
  import opened ActivationFailure
  import opened Transactions
  import Bus = TransactionTheory

  class BusActivation {
    var pendingActivations: map<string, Address>
    /** The live BusPendingActivation objects, by address. */
    var objects: map<Address, PendingActivation>
    var nPendingActivations: int
    /** The cancel hooks of the open transactions, newest first. */
    var cancelHooks: map<Transaction, seq<Hook>>

    function Snapshot(): Ledger
      reads this
    {
      Ledger(pendingActivations, objects, nPendingActivations, cancelHooks)
    }

    constructor ()
      ensures Snapshot() == ActivationRuns.START
    {
      pendingActivations, objects, nPendingActivations, cancelHooks := map[], map[], 0, map[];
    }

    /** bus_pending_activation_ref */
    method PendingRef(p: Address)
      requires p in objects
      modifies `objects
      ensures Snapshot() == Ref(old(Snapshot()), p)
    {
      objects := objects[p := objects[p].(refcount := objects[p].refcount + 1)];
    }

    /** bus_pending_activation_unref */
    method PendingUnref(p: Address)
      requires p in objects
      modifies `objects, `nPendingActivations
      ensures Snapshot() == Unref(old(Snapshot()), p)
    {
      var o := objects[p].(refcount := objects[p].refcount - 1);
      objects := objects[p := o];
      if o.refcount > 0 {
        return;
      }
      assert old(objects)[p := o] - {p} == old(objects) - {p};
      objects := objects - {p};
      nPendingActivations := nPendingActivations - o.nEntries;
    }

    /** _dbus_hash_table_remove_string on the pending activations */
    method HashRemove(name: string)
      requires TableRefers(Snapshot())
      modifies `pendingActivations, `objects, `nPendingActivations
      ensures Snapshot() == Remove(old(Snapshot()), name)
    {
      if name in pendingActivations {
        var p := pendingActivations[name];
        pendingActivations := pendingActivations - {name};
        PendingUnref(p);
      }
    }

    /** _dbus_hash_table_insert_string_preallocated on the pending activations */
    method HashInsert(name: string, p: Address)
      requires TableRefers(Snapshot())
      modifies `pendingActivations, `objects, `nPendingActivations
      ensures Snapshot() == Insert(old(Snapshot()), name, p)
    {
      if name in pendingActivations && pendingActivations[name] != p {
        var q := pendingActivations[name];
        pendingActivations := pendingActivations[name := p];
        PendingUnref(q);
      } else {
        pendingActivations := pendingActivations[name := p];
      }
    }

    method CancelPendingHook(p: Address)
      requires p in objects && TableRefers(Snapshot())
      modifies `pendingActivations, `objects, `nPendingActivations
      ensures Snapshot() == RunHook(old(Snapshot()), CancelPending(p))
    {
      HashRemove(objects[p].serviceName);
    }

    method RestorePendingHook(p: Address)
      requires p in objects && TableRefers(Snapshot())
      modifies `pendingActivations, `objects, `nPendingActivations
      ensures Snapshot() == RunHook(old(Snapshot()), RestorePending(p))
    {
      HashInsert(objects[p].serviceName, p);
      PendingRef(p);
    }

    /** The hook part of bus_transaction_cancel_and_free: runs all, then frees all. */
    method TransactionCancel(t: Transaction)
      requires Sound(Snapshot(), multiset{}, []) && t in cancelHooks
      modifies this
      ensures Snapshot() == Abort(old(Snapshot()), t) && Sound(Snapshot(), multiset{}, [])
    {
      hide Sound, RunHooks, FreeHooks;
      AbortStaysSound(Snapshot(), t);
      TakeHooks(Snapshot(), t, cancelHooks[t]);
      var hooks := cancelHooks[t];
      cancelHooks := cancelHooks - {t};
      AllHeld(hooks);
      RunCancelHooks(hooks, Addresses(hooks));
      FreeCancelHooks(hooks);
    }

    /** Runs every hook, newest first. */
    method RunCancelHooks(hooks: seq<Hook>, ghost held: multiset<Address>)
      requires Sound(Snapshot(), held, hooks) && forall i :: 0 <= i < |hooks| ==> hooks[i].p in held
      modifies this
      ensures Snapshot() == RunHooks(old(Snapshot()), hooks) && Sound(Snapshot(), held, [])
    {
      ghost var after := RunHooks(Snapshot(), hooks);
      var k := 0;
      hide Sound, RunHook;
      while k < |hooks|
        invariant 0 <= k <= |hooks|
        invariant Sound(Snapshot(), held, hooks[k..]) && RunHooks(Snapshot(), hooks[k..]) == after
      {
        assert hooks[k..] == [hooks[k]] + hooks[k + 1..];
        SoundRefers(Snapshot(), held, hooks[k..]);
        RunHookStaysSound(Snapshot(), hooks[k], hooks[k + 1..], held);
        RunHooksStep(Snapshot(), hooks[k..]);
        match hooks[k] {
          case CancelPending(p) => CancelPendingHook(p);
          case RestorePending(p) => RestorePendingHook(p);
        }
        k := k + 1;
      }
    }

    /** free_cancel_hooks */
    method FreeCancelHooks(hooks: seq<Hook>)
      requires Sound(Snapshot(), Addresses(hooks), [])
      modifies `objects, `nPendingActivations
      ensures Snapshot() == FreeHooks(old(Snapshot()), hooks)
    {
      ghost var after := FreeHooks(Snapshot(), hooks);
      var k := 0;
      hide Sound, Unref;
      while k < |hooks|
        invariant 0 <= k <= |hooks|
        invariant pendingActivations == old(pendingActivations) && cancelHooks == old(cancelHooks)
        invariant Sound(Snapshot(), Addresses(hooks[k..]), []) && FreeHooks(Snapshot(), hooks[k..]) == after
      {
        assert hooks[k..][1..] == hooks[k + 1..];
        SoundRefers(Snapshot(), Addresses(hooks[k..]), []);
        FreeHooksStep(Snapshot(), hooks[k..]);
        PendingUnref(hooks[k].p);
        k := k + 1;
      }
    }

    /** bus_transaction_execute_and_free: the hooks are freed without being run. */
    method TransactionExecute(t: Transaction)
      requires Sound(Snapshot(), multiset{}, []) && t in cancelHooks
      modifies this
      ensures Snapshot() == Commit(old(Snapshot()), t) && Sound(Snapshot(), multiset{}, [])
    {
      hide Sound, FreeHooks;
      CommitStaysSound(Snapshot(), t);
      TakeHooks(Snapshot(), t, []);
      var hooks := cancelHooks[t];
      cancelHooks := cancelHooks - {t};
      FreeCancelHooks(hooks);
    }

    /** Appends a request to the pending activation of the service, creating it
        when there is none. */
    method EnqueueRequest(name: string, service: Service, entry: Entry, id: Address)
      requires TableRefers(Snapshot())
      modifies this
      ensures Snapshot() == Enqueue(old(Snapshot()), name, service, entry, id)
    {
      if name in pendingActivations {
        var p := pendingActivations[name];
        var o := objects[p];
        objects := objects[p := o.(entries := o.entries + [entry], nEntries := o.nEntries + 1)];
        nPendingActivations := nPendingActivations + 1;
      } else {
        objects := objects[id := PendingActivation(1, name, service.exec, service.systemdService, [entry], 1)];
        nPendingActivations := nPendingActivations + 1;
        pendingActivations := pendingActivations[name := id];
      }
    }

    /** add_cancel_pending_to_transaction */
    method AddCancelPending(t: Transaction, p: Address)
      requires t in cancelHooks && p in objects
      modifies `cancelHooks, `objects
      ensures Snapshot() == Register(old(Snapshot()), t, p)
    {
      cancelHooks := cancelHooks[t := [CancelPending(p)] + cancelHooks[t]];
      PendingRef(p);
    }

    /** bus_activation_activate_service */
    method ActivateService(t: Transaction, nested: Transaction, r: Request, env: Environment, id: Address,
                           nestedId: Address)
      returns (outcome: Outcome)
      requires Ready(Snapshot(), t, nested, r, env, id, nestedId)
      modifies this
      ensures (outcome, Snapshot()) == Activate(old(Snapshot()), t, nested, r, env, id, nestedId)
      ensures Good(Snapshot(), env.maxPending) && cancelHooks.Keys == old(cancelHooks).Keys
      decreases if env.systemdActivation && r.name == SYSTEMD then 0 else 3
    {
      hide Good, Attach, Launch;
      ActivationKeeps(Snapshot(), t, nested, r, env, id, nestedId);
      if nPendingActivations >= env.maxPending {
        return LimitsExceeded;
      }
      if r.name !in env.services {
        return ServiceUnknown;
      }
      if !r.autoActivation && r.name in env.active {
        return AlreadyRunning;
      }
      var wasPending := r.name in pendingActivations;
      AttachIsGood(Snapshot(), t, r, env, id);
      var attached := AttachRequest(t, r, env, id);
      if !attached {
        return Failed;
      }
      if wasPending || (env.systemdActivation && r.name == SYSTEMD) {
        return Pending;
      }
      outcome := LaunchService(nested, r, env, nestedId);
    }

    /** Starting the program, by way of systemd or as a child process. */
    method LaunchService(nested: Transaction, r: Request, env: Environment,
                         nestedId: Address) returns (outcome: Outcome)
      requires Good(Snapshot(), env.maxPending) && nested !in cancelHooks && nestedId !in objects
      requires r.name in env.services && !(env.systemdActivation && r.name == SYSTEMD)
      modifies this
      ensures (outcome, Snapshot()) == Launch(old(Snapshot()), nested, r, env, nestedId)
      decreases 2
    {
      GoodRefers(Snapshot(), env.maxPending);
      hide Good, TableRefers, ViaSystemd, Remove;
      if env.systemdActivation && env.services[r.name].systemdService.Some? {
        outcome := LaunchViaSystemd(nested, r, env, nestedId);
      } else if env.spawned {
        outcome := Pending;
      } else {
        HashRemove(r.name);
        outcome := Failed;
      }
    }

    /** The nested transaction that hands the activation over to systemd. */
    method LaunchViaSystemd(nested: Transaction, r: Request, env: Environment,
                            nestedId: Address) returns (outcome: Outcome)
      requires Good(Snapshot(), env.maxPending) && nested !in cancelHooks && nestedId !in objects
      requires env.systemdActivation && r.name != SYSTEMD
      modifies this
      ensures (outcome, Snapshot()) == ViaSystemd(old(Snapshot()), nested, r, env, nestedId)
      decreases 1
    {
      BeginIsGood(Snapshot(), nested, env.maxPending);
      cancelHooks := cancelHooks[nested := []];
      hide Good, Conclude, Activate;
      var ok := env.dispatchAllowed;
      if SYSTEMD !in env.active {
        var how := ActivateService(nested, nested, SystemdRequest(), env, nestedId, nestedId);
        ok := how == Pending || how == AlreadyRunning;
      }
      outcome := ConcludeNested(nested, ok, r.name, env.maxPending);
    }

    /** Executes the nested transaction, or cancels it and gives up the service. */
    method ConcludeNested(nested: Transaction, ok: bool, name: string, ghost max: int) returns (outcome: Outcome)
      requires Good(Snapshot(), max) && nested in cancelHooks
      modifies this
      ensures (outcome, Snapshot()) == Conclude(old(Snapshot()), nested, ok, name)
    {
      hide Sound, Commit, Abort, Remove;
      if ok {
        TransactionExecute(nested);
        return Pending;
      }
      TransactionCancel(nested);
      SoundRefers(Snapshot(), multiset{}, []);
      HashRemove(name);
      return Failed;
    }

    method AttachRequest(t: Transaction, r: Request, env: Environment, id: Address) returns (attached: bool)
      requires Good(Snapshot(), env.maxPending) && nPendingActivations < env.maxPending && id !in objects
      requires r.name in env.services && t in cancelHooks
      modifies this
      ensures (attached, Snapshot()) == Attach(old(Snapshot()), t, r, env, id)
      ensures Good(Snapshot(), env.maxPending) && cancelHooks.Keys == old(cancelHooks).Keys
    {
      ghost var before := Snapshot();
      var entry := Entry(r.message, r.connection, r.autoActivation);
      AttachIsGood(before, t, r, env, id);
      EnqueueIsGood(before, r.name, env.services[r.name], entry, id, env.maxPending);
      EnqueueRequest(r.name, env.services[r.name], entry, id);
      attached := t in env.hookAllocated;
      if attached {
        AddCancelPending(t, pendingActivations[r.name]);
      } else {
        HashRemove(r.name);
      }
    }

    /** add_restore_pending_to_transaction and the removal that follows it, when
        the service has taken its name. */
    method ServiceStarted(t: Transaction, name: string, hookAllocated: bool) returns (ok: bool)
      requires Sound(Snapshot(), multiset{}, []) && t in cancelHooks
      modifies this
      ensures ok <==> hookAllocated || name !in old(pendingActivations)
      ensures Snapshot() == if ok then Started(old(Snapshot()), t, name) else old(Snapshot())
      ensures Sound(Snapshot(), multiset{}, [])
    {
      if name !in pendingActivations {
        return true;
      }
      StartedStaysSound(Snapshot(), t, name);
      SoundRefers(Snapshot(), multiset{}, []);
      RefAndUnref(Snapshot(), pendingActivations[name]);
      hide Sound;
      var p := pendingActivations[name];
      PendingRef(p);
      if !hookAllocated {
        PendingUnref(p);
        return false;
      }
      cancelHooks := cancelHooks[t := [RestorePending(p)] + cancelHooks[t]];
      HashRemove(name);
      return true;
    }

    /** bus_transaction_send_error_reply: builds the error and, if the policy
        lets the driver send it, queues it. */
    static method SendErrorReply(bus: BusContext, t: Transaction, c: Connection, request: Message,
                                 how: string, allowed: set<Connection>, memory: bool)
      returns (ok: bool)
      requires bus.Valid() && t in bus.connections && c in bus.connected
      modifies bus
      ensures bus.Valid() && ok == memory
      ensures bus.Snapshot() ==
        if ok then Queue(old(bus.Snapshot()), t, c, ErrorReply(request, how), allowed) else old(bus.Snapshot())
    {
      if !memory {
        return false;
      }
      if c !in allowed {
        return true;
      }
      ok := bus.TransactionSend(t, c, ErrorReply(request, how), true);
    }

    /** try_send_activation_failure.  Building the reply for entry `failAt`, if
        there is one, runs out of memory. */
    static method TrySendActivationFailure(bus: BusContext, entries: seq<Entry>, how: string,
                                           allowed: set<Connection>, t: Transaction, failAt: nat)
      returns (ok: bool)
      requires bus.Valid() && t !in bus.connections
      modifies bus
      ensures bus.Valid()
      ensures bus.Snapshot() == if ok then Told(old(bus.Snapshot()), entries, allowed, how) else old(bus.Snapshot())
      ensures failAt >= |entries| ==> ok
    {
      Bus.OpenThenClose(bus.Snapshot(), t);
      ToldNobody(bus.Snapshot(), allowed, how);
      hide Bus.WellFormed, Bus.Cancel, Bus.Execute, Told;
      bus.NewTransaction(t);
      ok := QueueErrors(bus, entries, how, allowed, t, failAt, old(bus.Snapshot()));
      if ok {
        bus.TransactionExecute(t);
      } else {
        bus.TransactionCancel(t);
      }
    }

    /** Its loop: whatever it has queued in `t`, a cancellation still leads back to
        the start, and an execution tells everyone so far. */
    static method QueueErrors(bus: BusContext, entries: seq<Entry>, how: string, allowed: set<Connection>,
                              t: Transaction, failAt: nat, ghost start: Bus.State)
      returns (ok: bool)
      requires bus.Valid() && t in bus.connections && bus.connected == start.up && Bus.WellFormed(start)
      requires Bus.Cancel(bus.Snapshot(), t) == start && Bus.Execute(bus.Snapshot(), t) == Told(start, [], allowed, how)
      modifies bus
      ensures bus.Valid() && t in bus.connections && Bus.Cancel(bus.Snapshot(), t) == start
      ensures ok ==> Bus.Execute(bus.Snapshot(), t) == Told(start, entries, allowed, how)
      ensures failAt >= |entries| ==> ok
    {
      var i := 0;
      hide Bus.WellFormed, Bus.Cancel, Bus.Execute, Told, Queue;
      while i < |entries|
        invariant 0 <= i <= |entries| && bus.Valid() && t in bus.connections && bus.connected == start.up
        invariant Bus.Cancel(bus.Snapshot(), t) == start
        invariant Bus.Execute(bus.Snapshot(), t) == Told(start, entries[..i], allowed, how)
      {
        var entry := entries[i];
        assert entries[..i + 1] == entries[..i] + [entry];
        if entry.connection.Some? && entry.connection.value in bus.connected {
          ghost var now := bus.Snapshot();
          var sent := SendErrorReply(bus, t, entry.connection.value, entry.message, how, allowed, i != failAt);
          if !sent {
            return false;
          }
          SendOneMore(now, start, t, entries[..i], entry, allowed, how);
        } else {
          TellNobody(start, entries[..i], entry, allowed, how);
        }
        i := i + 1;
      }
      assert entries[..i] == entries;
      return true;
    }

    /** pending_activation_failed: tries until memory suffices, then forgets the
        activation.  `failures` says where each attempt runs out of memory. */
    method PendingActivationFailed(bus: BusContext, name: string, how: string, allowed: set<Connection>,
                                   t: Transaction, failures: seq<nat>)
      requires bus.Valid() && t !in bus.connections
      requires TableRefers(Snapshot()) && name in pendingActivations
      modifies this, bus
      ensures bus.Valid() &&
        bus.Snapshot() == Told(old(bus.Snapshot()), old(objects[pendingActivations[name]].entries), allowed, how)
      ensures Snapshot() == Remove(old(Snapshot()), name)
    {
      var entries := objects[pendingActivations[name]].entries;
      ghost var start := bus.Snapshot();
      hide Bus.WellFormed, Told;
      var attempt := 0;
      var sent := false;
      while !sent
        invariant 0 <= attempt <= |failures| + 1 && (attempt == |failures| + 1 ==> sent)
        invariant bus.Valid() && bus.Snapshot() == if sent then Told(start, entries, allowed, how) else start
        invariant Snapshot() == old(Snapshot())
        decreases |failures| + 1 - attempt
      {
        sent := TrySendActivationFailure(bus, entries, how, allowed, t,
          if attempt < |failures| then failures[attempt] else |entries|);
        attempt := attempt + 1;
      }
      HashRemove(name);
    }

    /** The walk over the table that fails everything with one cause. */
    method FailAll(bus: BusContext, order: seq<string>, cause: Cause, last: Option<string>, how: string,
                   allowed: set<Connection>, t: Transaction, failures: map<string, seq<nat>>)
      requires bus.Valid() && t !in bus.connections && TableRefers(Snapshot())
      requires NoDuplicates(order) && forall name :: name in order <==> name in pendingActivations
      modifies this, bus
      ensures bus.Valid() && t !in bus.connections
      ensures var hit := Hit(old(Snapshot()), order, cause, last);
        && Snapshot() == RemoveAll(old(Snapshot()), hit)
        && bus.Snapshot() == Told(old(bus.Snapshot()), EntriesOf(old(Snapshot()), hit), allowed, how)
    {
      ghost var before, start := Snapshot(), bus.Snapshot();
      ToldNobody(start, allowed, how);
      SweepIsExact(before, []);
      hide Bus.WellFormed, Told, Hit, EntriesOf, Remove;
      HitNothing(before, cause, last);
      var i := 0;
      while i < |order|
        invariant 0 <= i <= |order| && bus.Valid() && t !in bus.connections
        invariant Snapshot() == RemoveAll(before, Hit(before, order[..i], cause, last)) && TableRefers(Snapshot())
        invariant bus.Snapshot() == Told(start, EntriesOf(before, Hit(before, order[..i], cause, last)), allowed, how)
      {
        var name := order[i];
        assert name in order;
        SweepOneMore(before, order, i, cause, last);
        var o := objects[pendingActivations[name]];
        if Some(name) != last && Concerns(cause, o) {
          ToldInTwoParts(start, EntriesOf(before, Hit(before, order[..i], cause, last)), o.entries, allowed, how);
          SweepIsExact(before, Hit(before, order[..i + 1], cause, last));
          ToldOpens(start, EntriesOf(before, Hit(before, order[..i + 1], cause, last)), allowed, how);
          PendingActivationFailed(bus, name, how, allowed, t, if name in failures then failures[name] else []);
        }
        i := i + 1;
      }
      assert order[..i] == order;
    }

    /** pending_activation_finished_cb for a failed child: first all others with
        the same command line, then the activation itself. */
    method ChildFailed(bus: BusContext, order: seq<string>, name: string, how: string,
                       allowed: set<Connection>, t: Transaction, failures: map<string, seq<nat>>)
      requires bus.Valid() && t !in bus.connections && TableRefers(Snapshot()) && name in pendingActivations
      requires NoDuplicates(order) && forall name :: name in order <==> name in pendingActivations
      modifies this, bus
      ensures var was := old(Snapshot());
        var hit := Hit(was, order, SameExec(was.objects[was.table[name]].exec), Some(name)) + [name];
        && Snapshot() == RemoveAll(was, hit)
        && bus.Valid() && bus.Snapshot() == Told(old(bus.Snapshot()), EntriesOf(was, hit), allowed, how)
    {
      ghost var was, start := Snapshot(), bus.Snapshot();
      var exec := objects[pendingActivations[name]].exec;
      var entries := objects[pendingActivations[name]].entries;
      ghost var others := Hit(was, order, SameExec(exec), Some(name));
      HitAreExactly(was, order, SameExec(exec), Some(name));
      SweepIsExact(was, others);
      assert (others + [name])[..|others|] == others;
      ToldInTwoParts(start, EntriesOf(was, others), entries, allowed, how);
      hide Bus.WellFormed, Told, Hit, Remove;
      FailAll(bus, order, SameExec(exec), Some(name), how, allowed, t, failures);
      PendingActivationFailed(bus, name, how, allowed, t, if name in failures then failures[name] else []);
    }

    /** dbus_activation_systemd_failure for a unit. */
    method SystemdFailure(bus: BusContext, order: seq<string>, unit: string, how: string,
                          allowed: set<Connection>, t: Transaction, failures: map<string, seq<nat>>)
      requires bus.Valid() && t !in bus.connections && TableRefers(Snapshot())
      requires NoDuplicates(order) && forall name :: name in order <==> name in pendingActivations
      modifies this, bus
      ensures var was := old(Snapshot());
        var hit := Hit(was, order, SameUnit(unit), None);
        && Snapshot() == RemoveAll(was, hit)
        && bus.Valid() && bus.Snapshot() == Told(old(bus.Snapshot()), EntriesOf(was, hit), allowed, how)
    {
      FailAll(bus, order, SameUnit(unit), None, how, allowed, t, failures);
    }
  }

  /** What the caller of bus_activation_activate_service can rely on having. */
  ghost predicate Ready(s: Ledger, t: Transaction, nested: Transaction, r: Request, env: Environment,
                        id: Address, nestedId: Address) {
    && Good(s, env.maxPending) && t in s.hooks && id !in s.objects
    && ((env.systemdActivation && r.name == SYSTEMD)
        || (nested !in s.hooks && nestedId !in s.objects && id != nestedId))
  }

  lemma ActivationKeeps(s: Ledger, t: Transaction, nested: Transaction, r: Request, env: Environment,
                        id: Address, nestedId: Address)
    requires Ready(s, t, nested, r, env, id, nestedId)
    ensures var s' := Activate(s, t, nested, r, env, id, nestedId).1;
      Good(s', env.maxPending) && s'.hooks.Keys == s.hooks.Keys
  {
    hide Good;
    if env.systemdActivation && r.name == SYSTEMD {
      ActivateSystemdIsGood(s, t, nested, r, env, id, nestedId);
    } else {
      ActivateIsGood(s, t, nested, r, env, id, nestedId);
    }
  }

  lemma BeginIsGood(s: Ledger, t: Transaction, max: int)
    requires Good(s, max) && t !in s.hooks
    ensures Good(Begin(s, t), max)
  {
    BeginStaysSound(s, t);
    hide Sound;
  }

  lemma SoundRefers(s: Ledger, held: multiset<Address>, waiting: seq<Hook>)
    requires Sound(s, held, waiting)
    ensures TableRefers(s) && forall p :: p in held ==> p in s.objects
  {
  }

  lemma GoodRefers(s: Ledger, max: int)
    requires Good(s, max)
    ensures TableRefers(s)
  {
    SoundRefers(s, multiset{}, []);
  }

  lemma RefAndUnref(s: Ledger, p: Address)
    requires p in s.objects && s.objects[p].refcount > 0
    ensures Unref(Ref(s, p), p) == s
  {
    assert Unref(Ref(s, p), p).objects == s.objects;
  }

  lemma TellNobody(s: Bus.State, entries: seq<Entry>, e: Entry, allowed: set<Connection>, how: string)
    requires Bus.WellFormed(s) && !(e.connection.Some? && e.connection.value in s.up)
    ensures Told(s, entries + [e], allowed, how) == Told(s, entries, allowed, how)
  {
    ToldOneMore(s, entries, e, allowed, how);
  }

  /** bus_transaction_send_from_driver */
  function Queue(s: Bus.State, t: Transaction, c: Connection, m: Message, allowed: set<Connection>): Bus.State {
    if c in allowed then Bus.Send(s, t, c, m) else s
  }

  /** One more error queued changes nothing for a cancellation, and adds one
      error for an execution. */
  lemma SendOneMore(now: Bus.State, start: Bus.State, t: Transaction, entries: seq<Entry>, e: Entry,
                    allowed: set<Connection>, how: string)
    requires Bus.WellFormed(now) && t in now.visits && now.up == start.up && e.connection.Some? &&
      e.connection.value in now.up
    requires Bus.Cancel(now, t) == start && Bus.Execute(now, t) == Told(start, entries, allowed, how)
    ensures var s := Queue(now, t, e.connection.value, ErrorReply(e.message, how), allowed);
      && Bus.Cancel(s, t) == start && Bus.Execute(s, t) == Told(start, entries + [e], allowed, how)
      && t in s.visits && s.up == start.up
  {
    Bus.SendThenCancel(now, t, e.connection.value, ErrorReply(e.message, how));
    Bus.SendThenExecute(now, t, e.connection.value, ErrorReply(e.message, how));
    ToldOneMore(start, entries, e, allowed, how);
  }

  lemma ToldOpens(s: Bus.State, entries: seq<Entry>, allowed: set<Connection>, how: string)
    ensures Told(s, entries, allowed, how).visits == s.visits && Told(s, entries, allowed, how).up == s.up
  {
  }

  lemma HitNothing(s: Ledger, cause: Cause, last: Option<string>)
    ensures Hit(s, [], cause, last) == [] && EntriesOf(s, []) == []
  {
  }

  lemma RunHooksStep(s: Ledger, hooks: seq<Hook>)
    requires hooks != []
    ensures RunHooks(s, hooks) == RunHooks(RunHook(s, hooks[0]), hooks[1..])
  {
  }

  lemma FreeHooksStep(s: Ledger, hooks: seq<Hook>)
    requires Sound(s, Addresses(hooks), []) && hooks != []
    ensures hooks[0].p in s.objects && Sound(Unref(s, hooks[0].p), Addresses(hooks[1..]), [])
    ensures FreeHooks(s, hooks) == FreeHooks(Unref(s, hooks[0].p), hooks[1..])
  {
    UnrefStaysSound(s, hooks[0].p, Addresses(hooks), []);
    assert Addresses(hooks) - multiset{hooks[0].p} == Addresses(hooks[1..]);
  }
}

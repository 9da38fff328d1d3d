/** What an activation request comes to (bus/activation.c): the answer, what is
    pending afterwards and what the transaction will undo, said in terms of the
    state before and of the daemon's surroundings. */
module ActivationOutcome {
  import opened BusTypes
  import opened Collections
  import opened ActivationTheory
  import opened ActivationRuns

  /** What is pending under a name: where, and everything but the reference count. */
  ghost function Seen(s: Ledger, name: string): Option<(Address, PendingActivation)> {
    if name in s.table && s.table[name] in s.objects
    then Some((s.table[name], s.objects[s.table[name]].(refcount := 0))) else None
  }

  /** The requests waiting under a name, oldest first. */
  ghost function Requests(s: Ledger, name: string): seq<Entry> {
    if Seen(s, name).Some? then Seen(s, name).value.1.entries else []
  }

  // ---- steps ------------------------------------------------------------------------------------

  lemma UnrefSeen(s: Ledger, p: Address, held: multiset<Address>, waiting: seq<Hook>, name: string)
    requires Sound(s, held, waiting) && p in held
    ensures p in s.objects && Seen(Unref(s, p), name) == Seen(s, name) && Unref(s, p).hooks == s.hooks
  {
    assert ObjectSound(s, p, held, waiting);
    if name in s.table && s.table[name] == p {
      assert InTable(s, p) == 1;
    }
    hide Holders, HookTally, Sum;
  }

  lemma {:induction false} FreeHooksSeen(s: Ledger, hooks: seq<Hook>, name: string)
    requires Sound(s, Addresses(hooks), [])
    ensures Seen(FreeHooks(s, hooks), name) == Seen(s, name) && FreeHooks(s, hooks).hooks == s.hooks
    decreases |hooks|
  {
    hide Sound, Seen;
    if hooks != [] {
      assert hooks[0].p in Addresses(hooks);
      UnrefSeen(s, hooks[0].p, Addresses(hooks), [], name);
      UnrefStaysSound(s, hooks[0].p, Addresses(hooks), []);
      assert Addresses(hooks) - multiset{hooks[0].p} == Addresses(hooks[1..]);
      FreeHooksSeen(Unref(s, hooks[0].p), hooks[1..], name);
    }
  }

  /** Executing a transaction forgets its hooks and nothing else. */
  lemma CommitOutcome(s: Ledger, t: Transaction, name: string)
    requires Sound(s, multiset{}, []) && t in s.hooks
    ensures Seen(Commit(s, t), name) == Seen(s, name) && Commit(s, t).hooks == s.hooks - {t}
  {
    TakeHooks(s, t, []);
    FreeHooksSeen(s.(hooks := s.hooks - {t}), s.hooks[t], name);
    hide Sound;
  }

  lemma RemoveSeen(s: Ledger, name: string, other: string)
    requires Sound(s, multiset{}, [])
    ensures Seen(Remove(s, name), other) == (if other == name then None else Seen(s, other))
    ensures Remove(s, name).hooks == s.hooks
  {
    hide ObjectSound, Sum;
  }

  lemma EnqueueSeen(s: Ledger, name: string, service: Service, entry: Entry, id: Address, other: string)
    requires Sound(s, multiset{}, []) && id !in s.objects
    ensures var s' := Enqueue(s, name, service, entry, id);
      && s'.hooks == s.hooks && s'.nPending == s.nPending + 1
      && Seen(s', name).Some? && Requests(s', name) == Requests(s, name) + [entry]
      && Seen(s', name).value.0 == (if Seen(s, name).Some? then Seen(s, name).value.0 else id)
      && (Seen(s, name) == None ==>
            Seen(s', name).value.1.exec == service.exec &&
              Seen(s', name).value.1.systemdService == service.systemdService)
      && (other != name ==> Seen(s', other) == Seen(s, other))
  {
    hide ObjectSound, Sum;
  }

  lemma RegisterSeen(s: Ledger, t: Transaction, p: Address, name: string)
    requires p in s.objects && t in s.hooks
    ensures var s' := Register(s, t, p);
      && Seen(s', name) == Seen(s, name) && s'.nPending == s.nPending
      && s'.hooks == s.hooks[t := [CancelPending(p)] + s.hooks[t]]
  {
  }

  // ---- queueing the request ---------------------------------------------------------------------

  /** The request is queued behind those already waiting, and cancelling the
      transaction will drop the activation. */
  ghost predicate Queued(s: Ledger, s': Ledger, t: Transaction, name: string, service: Service, entry: Entry,
                         id: Address)
    requires t in s.hooks
  {
    && Seen(s', name).Some? && Requests(s', name) == Requests(s, name) + [entry]
    && Seen(s', name).value.0 == (if Seen(s, name).Some? then Seen(s, name).value.0 else id)
    && (Seen(s, name) == None ==>
          Seen(s', name).value.1.exec == service.exec &&
            Seen(s', name).value.1.systemdService == service.systemdService)
    && t in s'.hooks && s'.hooks[t] == [CancelPending(Seen(s', name).value.0)] + s.hooks[t]
  }

  lemma AttachOutcome(s: Ledger, t: Transaction, r: Request, env: Environment, id: Address, other: string)
    requires Good(s, env.maxPending) && s.nPending < env.maxPending && id !in s.objects
    requires r.name in env.services && t in s.hooks
    ensures var (attached, s') := Attach(s, t, r, env, id);
      && (attached <==> t in env.hookAllocated)
      && (attached ==>
            Queued(s, s', t, r.name, env.services[r.name], Entry(r.message, r.connection, r.autoActivation), id)
            && s'.nPending == s.nPending + 1 && s'.hooks == s.hooks[t := s'.hooks[t]])
      && (!attached ==> Seen(s', r.name) == None && s'.hooks == s.hooks)
      && (other != r.name ==> Seen(s', other) == Seen(s, other))
  {
    var entry := Entry(r.message, r.connection, r.autoActivation);
    var s1 := Enqueue(s, r.name, env.services[r.name], entry, id);
    EnqueueSeen(s, r.name, env.services[r.name], entry, id, other);
    EnqueueIsGood(s, r.name, env.services[r.name], entry, id, env.maxPending);
    RegisterSeen(s1, t, s1.table[r.name], r.name);
    RegisterSeen(s1, t, s1.table[r.name], other);
    RemoveSeen(s1, r.name, r.name);
    RemoveSeen(s1, r.name, other);
    assert Seen(s1, r.name).value.0 == s1.table[r.name];
    hide Sound, Enqueue, Register, Remove, Seen;
  }

  // ---- the hand-over to systemd -----------------------------------------------------------------

  /** Whether systemd takes an activation over: it is asked if it is there, and
      itself activated, within the limit, if it is not. */
  predicate TakesOver(nPending: int, nested: Transaction, env: Environment) {
    if SYSTEMD in env.active then env.dispatchAllowed
    else nPending < env.maxPending && SYSTEMD in env.services && nested in env.hookAllocated
  }

  /** Whether a request for systemd itself is queued on the way, and whether that fails. */
  predicate AsksForSystemd(nPending: int, env: Environment) {
    SYSTEMD !in env.active && nPending < env.maxPending && SYSTEMD in env.services
  }

  lemma OthersHooks(hooks: map<Transaction, seq<Hook>>, t: Transaction, own: seq<Hook>)
    ensures hooks[t := own] - {t} == hooks - {t}
  {
  }

  lemma NestedOutcome(s: Ledger, nested: Transaction, env: Environment, id: Address, other: string)
    requires Good(s, env.maxPending) && nested in s.hooks && id !in s.objects && env.systemdActivation
    ensures var (outcome, s') := Activate(s, nested, nested, SystemdRequest(), env, id, id);
      var asks := s.nPending < env.maxPending && SYSTEMD in env.services;
      && (outcome == Pending <==> asks && nested in env.hookAllocated) && outcome != AlreadyRunning
      && (!asks ==> s' == s)
      && (asks && outcome == Pending ==>
            Queued(s, s', nested, SYSTEMD, env.services[SYSTEMD], Entry(SystemdRequest().message, None, true), id)
            && s'.hooks == s.hooks[nested := s'.hooks[nested]])
      && (asks && outcome != Pending ==> Seen(s', SYSTEMD) == None && s'.hooks == s.hooks)
      && nested in s'.hooks && s'.hooks - {nested} == s.hooks - {nested}
      && (other != SYSTEMD ==> Seen(s', other) == Seen(s, other))
  {
    if s.nPending < env.maxPending && SYSTEMD in env.services {
      AttachOutcome(s, nested, SystemdRequest(), env, id, other);
      OthersHooks(s.hooks, nested, Attach(s, nested, SystemdRequest(), env, id).1.hooks[nested]);
    }
    hide Good, Attach, Queued, Seen;
  }

  lemma BeginSeen(s: Ledger, t: Transaction, name: string)
    ensures Seen(Begin(s, t), name) == Seen(s, name) && Begin(s, t).nPending == s.nPending
    ensures Begin(s, t).objects == s.objects && Begin(s, t).hooks == s.hooks[t := []]
  {
  }

  /** Concluding the nested transaction: its hooks, at most one, are never run. */
  lemma ConcludeOutcome(s: Ledger, nested: Transaction, ok: bool, name: string, other: string, max: int)
    requires Good(s, max) && nested in s.hooks && (!ok ==> s.hooks[nested] == [])
    ensures var (outcome, s') := Conclude(s, nested, ok, name);
      && outcome == (if ok then Pending else Failed) && s'.hooks == s.hooks - {nested}
      && Seen(s', other) == if !ok && other == name then None else Seen(s, other)
  {
    if ok {
      CommitOutcome(s, nested, other);
    } else {
      var s1 := s.(hooks := s.hooks - {nested});
      AbortIsGood(s, nested, max);
      assert Abort(s, nested) == s1;
      RemoveSeen(s1, name, other);
      assert Seen(s1, other) == Seen(s, other);
    }
    hide Sound, Commit, Remove;
  }

  lemma ViaSystemdOutcome(s: Ledger, nested: Transaction, r: Request, env: Environment, nestedId: Address,
                          other: string)
    requires Good(s, env.maxPending) && nested !in s.hooks && nestedId !in s.objects && r.name != SYSTEMD
    requires env.systemdActivation
    ensures var (outcome, s') := ViaSystemd(s, nested, r, env, nestedId);
      && outcome == (if TakesOver(s.nPending, nested, env) then Pending else Failed) && s'.hooks == s.hooks
      && (other != SYSTEMD ==> Seen(s', other) == if outcome == Failed && other == r.name then None else Seen(s, other))
      && SystemdAfter(s, s', s.nPending, nested, env)
  {
    if SYSTEMD in env.active {
      ViaPresentSystemd(s, nested, r, env, nestedId, other);
      ViaPresentSystemd(s, nested, r, env, nestedId, SYSTEMD);
    } else {
      ViaAbsentSystemd(s, nested, r, env, nestedId, other);
    }
    hide Good, ViaSystemd, Seen;
  }

  lemma ViaPresentSystemd(s: Ledger, nested: Transaction, r: Request, env: Environment, nestedId: Address,
                          other: string)
    requires Good(s, env.maxPending) && nested !in s.hooks && r.name != SYSTEMD
    requires env.systemdActivation && SYSTEMD in env.active
    ensures var (outcome, s') := ViaSystemd(s, nested, r, env, nestedId);
      && outcome == (if env.dispatchAllowed then Pending else Failed) && s'.hooks == s.hooks
      && Seen(s', other) == if outcome == Failed && other == r.name then None else Seen(s, other)
  {
    var s1 := Begin(s, nested);
    BeginStaysSound(s, nested);
    BeginSeen(s, nested, other);
    assert Good(s1, env.maxPending) && s1.hooks - {nested} == s.hooks;
    hide Good, Begin, Conclude, Seen;
    ConcludeOutcome(s1, nested, env.dispatchAllowed, r.name, other, env.maxPending);
  }

  /** The nested transaction, opened and with the request for systemd made in it. */
  lemma NestedKeeps(s: Ledger, nested: Transaction, env: Environment, id: Address)
    requires Good(s, env.maxPending) && nested !in s.hooks && id !in s.objects
    requires env.systemdActivation && SYSTEMD !in env.active
    ensures var (outcome, s') := Activate(Begin(s, nested), nested, nested, SystemdRequest(), env, id, id);
      && Good(s', env.maxPending) && nested in s'.hooks && s'.hooks - {nested} == s.hooks
      && (outcome == Pending || outcome == AlreadyRunning <==> TakesOver(s.nPending, nested, env))
      && (outcome == Pending || outcome == AlreadyRunning || s'.hooks[nested] == [])
  {
    var s1 := Begin(s, nested);
    BeginStaysSound(s, nested);
    assert Good(s1, env.maxPending) && s1.hooks - {nested} == s.hooks;
    hide Good, Begin, Activate, Seen, Queued;
    NestedOutcome(s1, nested, env, id, SYSTEMD);
    ActivateSystemdIsGood(s1, nested, nested, SystemdRequest(), env, id, id);
  }

  lemma NestedSees(s: Ledger, nested: Transaction, env: Environment, id: Address, other: string)
    requires Good(s, env.maxPending) && nested !in s.hooks && id !in s.objects
    requires env.systemdActivation && SYSTEMD !in env.active
    ensures var s' := Activate(Begin(s, nested), nested, nested, SystemdRequest(), env, id, id).1;
      && SystemdAfter(s, s', s.nPending, nested, env)
      && (other != SYSTEMD ==> Seen(s', other) == Seen(s, other))
  {
    var s1 := Begin(s, nested);
    BeginStaysSound(s, nested);
    BeginSeen(s, nested, other);
    BeginSeen(s, nested, SYSTEMD);
    assert Good(s1, env.maxPending);
    hide Good, Begin, Activate, Seen, TakesOver;
    NestedOutcome(s1, nested, env, id, other);
    var s2 := Activate(s1, nested, nested, SystemdRequest(), env, id, id).1;
    assert SystemdAfter(s1, s2, s.nPending, nested, env);
    hide Queued, SystemdAfter;
    SameSystemd(s, s1, s2, s.nPending, nested, env);
  }

  lemma ViaAbsentSystemd(s: Ledger, nested: Transaction, r: Request, env: Environment, nestedId: Address,
                         other: string)
    requires Good(s, env.maxPending) && nested !in s.hooks && nestedId !in s.objects && r.name != SYSTEMD
    requires env.systemdActivation && SYSTEMD !in env.active
    ensures var (outcome, s') := ViaSystemd(s, nested, r, env, nestedId);
      && outcome == (if TakesOver(s.nPending, nested, env) then Pending else Failed) && s'.hooks == s.hooks
      && (other != SYSTEMD ==> Seen(s', other) == if outcome == Failed && other == r.name then None else Seen(s, other))
      && SystemdAfter(s, s', s.nPending, nested, env)
  {
    var (outcome, s2) := Activate(Begin(s, nested), nested, nested, SystemdRequest(), env, nestedId, nestedId);
    var ok := outcome == Pending || outcome == AlreadyRunning;
    NestedKeeps(s, nested, env, nestedId);
    NestedSees(s, nested, env, nestedId, other);
    ConcludeOutcome(s2, nested, ok, r.name, other, env.maxPending);
    ConcludeOutcome(s2, nested, ok, r.name, SYSTEMD, env.maxPending);
    SameSystemd(s, s2, Conclude(s2, nested, ok, r.name).1, s.nPending, nested, env);
    hide Good, Begin, Conclude, Activate, Seen, SystemdAfter, TakesOver;
  }

  lemma SameSystemd(s: Ledger, s1: Ledger, s2: Ledger, nPending: int, nested: Transaction, env: Environment)
    ensures Seen(s2, SYSTEMD) == Seen(s1, SYSTEMD) && SystemdAfter(s, s1, nPending, nested, env) ==>
      SystemdAfter(s, s2, nPending, nested, env)
    ensures Seen(s1, SYSTEMD) == Seen(s, SYSTEMD) && SystemdAfter(s1, s2, nPending, nested, env) ==>
      SystemdAfter(s, s2, nPending, nested, env)
  {
    hide Seen;
  }

  /** What becomes of systemd's own activation: one more request, or, when the hook
      for it cannot be had, nothing is left of it, not even requests of others. */
  ghost predicate SystemdAfter(s: Ledger, s': Ledger, nPending: int, nested: Transaction, env: Environment) {
    if !AsksForSystemd(nPending, env) then Seen(s', SYSTEMD) == Seen(s, SYSTEMD)
    else if nested in env.hookAllocated then
      Requests(s', SYSTEMD) == Requests(s, SYSTEMD) + [Entry(SystemdRequest().message, None, true)]
    else Seen(s', SYSTEMD) == None
  }

  // ---- the whole request ------------------------------------------------------------------------

  /** The request gets as far as being queued. */
  predicate IsTaken(s: Ledger, r: Request, env: Environment) {
    s.nPending < env.maxPending && r.name in env.services && (r.autoActivation || r.name !in env.active)
  }

  /** Whether something will make the service appear. */
  predicate IsLaunched(s: Ledger, nested: Transaction, r: Request, env: Environment)
    requires r.name in env.services
  {
    if env.systemdActivation && r.name == SYSTEMD then true
    else if env.systemdActivation &&
      env.services[r.name].systemdService.Some? then TakesOver(s.nPending + 1, nested, env)
    else env.spawned
  }

  lemma LaunchOutcome(s: Ledger, nested: Transaction, r: Request, env: Environment, nestedId: Address, other: string)
    requires Good(s, env.maxPending) && nested !in s.hooks && nestedId !in s.objects
    requires r.name in env.services && !(env.systemdActivation && r.name == SYSTEMD)
    ensures var (outcome, s') := Launch(s, nested, r, env, nestedId);
      var viaSystemd := env.systemdActivation && env.services[r.name].systemdService.Some?;
      var launched := if viaSystemd then TakesOver(s.nPending, nested, env) else env.spawned;
      && outcome == (if launched then Pending else Failed)
      && s'.hooks == s.hooks
      && (other != SYSTEMD || !viaSystemd ==>
            Seen(s', other) == if outcome == Failed && other == r.name then None else Seen(s, other))
      && (viaSystemd ==> SystemdAfter(s, s', s.nPending, nested, env))
  {
    if env.systemdActivation && env.services[r.name].systemdService.Some? {
      ViaSystemdOutcome(s, nested, r, env, nestedId, other);
    } else {
      RemoveSeen(s, r.name, other);
    }
    hide Sound, Remove, ViaSystemd, Seen, SystemdAfter;
  }

  /** The answer to an activation request. */
  lemma ActivationAnswer(s: Ledger, t: Transaction, nested: Transaction, r: Request, env: Environment,
                         id: Address, nestedId: Address)
    requires Good(s, env.maxPending) && t in s.hooks && nested !in s.hooks
    requires id !in s.objects && nestedId !in s.objects && id != nestedId
    ensures var outcome := Activate(s, t, nested, r, env, id, nestedId).0;
      && (outcome == LimitsExceeded <==> s.nPending >= env.maxPending)
      && (outcome == ServiceUnknown <==> s.nPending < env.maxPending && r.name !in env.services)
      && (outcome == AlreadyRunning <==>
            s.nPending < env.maxPending && r.name in env.services && !r.autoActivation && r.name in env.active)
      && (outcome == Pending <==>
            IsTaken(s, r, env) && t in env.hookAllocated && (r.name in s.table || IsLaunched(s, nested, r, env)))
  {
    if IsTaken(s, r, env) {
      AttachOutcome(s, t, r, env, id, r.name);
      AttachIsGood(s, t, r, env, id);
      var s1 := Attach(s, t, r, env, id).1;
      if !(env.systemdActivation && r.name == SYSTEMD) {
        LaunchOutcome(s1, nested, r, env, nestedId, r.name);
      }
    }
    hide Good, Attach, Launch, Queued, Seen, SystemdAfter;
  }

  /** The activation is handed to systemd. */
  predicate GoesToSystemd(s: Ledger, t: Transaction, r: Request, env: Environment) {
    && IsTaken(s, r, env) && t in env.hookAllocated && r.name !in s.table
    && env.systemdActivation && r.name != SYSTEMD && env.services[r.name].systemdService.Some?
  }

  /** What is pending under the name after it: on success the request, and the
      transaction holds the hook to cancel it; after a failure nothing. */
  lemma ActivationLeaves(s: Ledger, t: Transaction, nested: Transaction, r: Request, env: Environment,
                         id: Address, nestedId: Address)
    requires Good(s, env.maxPending) && t in s.hooks && nested !in s.hooks
    requires id !in s.objects && nestedId !in s.objects && id != nestedId
    ensures var (outcome, s') := Activate(s, t, nested, r, env, id, nestedId);
      && (outcome == Pending ==>
            && IsTaken(s, r, env)
            && Queued(s, s', t, r.name, env.services[r.name], Entry(r.message, r.connection, r.autoActivation), id)
            && s'.hooks == s.hooks[t := s'.hooks[t]])
      && (outcome == Failed ==> Seen(s', r.name) == None)
      && (outcome != Pending && outcome != Failed ==> s' == s)
  {
    hide Good, Attach, Launch, Seen, SystemdAfter;
    if IsTaken(s, r, env) {
      AttachOutcome(s, t, r, env, id, r.name);
      AttachIsGood(s, t, r, env, id);
      var s1 := Attach(s, t, r, env, id).1;
      if !(env.systemdActivation && r.name == SYSTEMD) {
        LaunchOutcome(s1, nested, r, env, nestedId, r.name);
      }
    }
  }

  /** How far a request gets: refused, attached without anything further, or launched. */
  lemma ActivateShape(s: Ledger, t: Transaction, nested: Transaction, r: Request, env: Environment,
                      id: Address, nestedId: Address)
    requires t in s.hooks
    ensures var s' := Activate(s, t, nested, r, env, id, nestedId).1;
      if !IsTaken(s, r, env) then s' == s
      else
        var (attached, s1) := Attach(s, t, r, env, id);
        if !attached || r.name in s.table || (env.systemdActivation && r.name == SYSTEMD) then s' == s1
        else s' == Launch(s1, nested, r, env, nestedId).1
  {
    hide Attach, Launch;
  }

  /** Other names keep what is pending under them, but for systemd, when it is
      asked to take over. */
  lemma ActivationSpares(s: Ledger, t: Transaction, nested: Transaction, r: Request, env: Environment,
                         id: Address, nestedId: Address, other: string)
    requires Good(s, env.maxPending) && t in s.hooks && nested !in s.hooks && other != r.name
    requires id !in s.objects && nestedId !in s.objects && id != nestedId
    ensures var s' := Activate(s, t, nested, r, env, id, nestedId).1;
      && (other != SYSTEMD || !GoesToSystemd(s, t, r, env) ==> Seen(s', other) == Seen(s, other))
      && (GoesToSystemd(s, t, r, env) ==> SystemdAfter(s, s', s.nPending + 1, nested, env))
  {
    ActivateShape(s, t, nested, r, env, id, nestedId);
    hide Good, Activate, Attach, Launch, Seen, SystemdAfter, Queued;
    if IsTaken(s, r, env) {
      AttachOutcome(s, t, r, env, id, other);
      AttachOutcome(s, t, r, env, id, SYSTEMD);
      AttachIsGood(s, t, r, env, id);
      var s1 := Attach(s, t, r, env, id).1;
      if t in env.hookAllocated && r.name !in s.table && !(env.systemdActivation && r.name == SYSTEMD) {
        LaunchOutcome(s1, nested, r, env, nestedId, other);
        SameSystemd(s, s1, Launch(s1, nested, r, env, nestedId).1, s.nPending + 1, nested, env);
      }
    }
  }

  // ---- the service appears ------------------------------------------------------------------------

  /** A started service is pending no longer, and cancelling would put it back. */
  lemma StartedOutcome(s: Ledger, t: Transaction, name: string, other: string)
    requires Sound(s, multiset{}, []) && t in s.hooks
    ensures var s' := Started(s, t, name);
      && Seen(s', other) == (if other == name then None else Seen(s, other))
      && (Seen(s, name).Some? ==> s'.hooks == s.hooks[t := [RestorePending(s.table[name])] + s.hooks[t]])
      && (Seen(s, name) == None ==> s' == s)
  {
    if name in s.table {
      var p := s.table[name];
      StartedStaysSound(s, t, name);
      RefStaysSound(s, p, multiset{}, []);
      assert multiset{} + multiset{p} == multiset{p};
      RemoveHeldSeen(AddHook(Ref(s, p), t, RestorePending(p)), name, other);
    }
    hide Sound, Remove;
  }

  lemma RemoveHeldSeen(s: Ledger, name: string, other: string)
    requires forall n :: n in s.table ==> s.table[n] in s.objects && s.objects[s.table[n]].serviceName == n
    ensures Seen(Remove(s, name), other) == (if other == name then None else Seen(s, other))
    ensures Remove(s, name).hooks == s.hooks
  {
  }

  // ---- cancelling ----------------------------------------------------------------------------------

  /** The hook concerns what is pending under the name. */
  predicate Concerns(s: Ledger, hook: Hook, name: string) {
    hook.p in s.objects && s.objects[hook.p].serviceName == name
  }

  /** An object but for its reference count. */
  function Uncounted(o: PendingActivation): PendingActivation {
    o.(refcount := 0)
  }

  ghost predicate HeldUnchanged(s: Ledger, s': Ledger, held: multiset<Address>) {
    forall q :: q in held ==> q in s.objects && q in s'.objects && Uncounted(s'.objects[q]) == Uncounted(s.objects[q])
  }

  /** What one hook makes of a name. */
  ghost function AfterHook(s: Ledger, hook: Hook, name: string): Option<(Address, PendingActivation)>
    requires hook.p in s.objects
  {
    if !Concerns(s, hook, name) then Seen(s, name)
    else if hook.CancelPending? then None
    else Some((hook.p, Uncounted(s.objects[hook.p])))
  }

  lemma RemoveKeepsHeld(s: Ledger, name: string, held: multiset<Address>, waiting: seq<Hook>)
    requires Sound(s, held, waiting)
    ensures HeldUnchanged(s, Remove(s, name), held)
  {
    if name in s.table {
      assert ObjectSound(s, s.table[name], held, waiting);
    }
    hide Holders, Sum, HookTally;
  }

  lemma RunHookSeen(s: Ledger, hook: Hook, rest: seq<Hook>, held: multiset<Address>, name: string)
    requires Sound(s, held, [hook] + rest) && hook.p in held
    ensures Seen(RunHook(s, hook), name) == AfterHook(s, hook, name)
    ensures HeldUnchanged(s, RunHook(s, hook), held)
  {
    if hook.CancelPending? {
      RemoveHeldSeen(s, s.objects[hook.p].serviceName, name);
      RemoveKeepsHeld(s, s.objects[hook.p].serviceName, held, [hook] + rest);
    } else {
      RestoreSeen(s, hook.p, rest, held, name);
    }
    hide Sound, Remove, Insert, HeldUnchanged;
  }

  /** Putting the object in place of what the table had under its name. */
  lemma PutSeen(s: Ledger, gone: Ledger, p: Address, held: multiset<Address>, name: string)
    requires p in held && HeldUnchanged(s, gone, held)
    requires Seen(gone, name) == if name == s.objects[p].serviceName then None else Seen(s, name)
    ensures var own := s.objects[p].serviceName;
      var s' := gone.(table := s.table[own := p]);
      gone.table == s.table - {own} ==>
        Seen(s', name) == AfterHook(s, RestorePending(p), name) && HeldUnchanged(s, s', held)
  {
  }

  lemma RefSeen(s: Ledger, p: Address, held: multiset<Address>, name: string)
    requires p in held && forall q :: q in held ==> q in s.objects
    ensures Seen(Ref(s, p), name) == Seen(s, name) && HeldUnchanged(s, Ref(s, p), held)
  {
  }

  lemma RestoreSeen(s: Ledger, p: Address, rest: seq<Hook>, held: multiset<Address>, name: string)
    requires Sound(s, held, [RestorePending(p)] + rest) && p in held
    ensures Seen(RunHook(s, RestorePending(p)), name) == AfterHook(s, RestorePending(p), name)
    ensures HeldUnchanged(s, RunHook(s, RestorePending(p)), held)
  {
    var own, s1 := s.objects[p].serviceName, Ref(s, p);
    var gone := Remove(s1, own);
    RefSeen(s, p, held, name);
    RestoreIsPut(s, p, held, rest);
    RemoveHeldSeen(s1, own, name);
    RemoveKeepsHeld(s1, own, held + multiset{p}, rest);
    hide Sound, Ref, Remove, RunHook, Seen, AfterHook;
    PutSeen(s, gone, p, held, name);
  }

  lemma RestoreIsPut(s: Ledger, p: Address, held: multiset<Address>, rest: seq<Hook>)
    requires Sound(s, held, [RestorePending(p)] + rest) && p in held
    ensures Sound(Ref(s, p), held + multiset{p}, rest)
    ensures forall n :: n in s.table ==>
      s.table[n] in Ref(s, p).objects && Ref(s, p).objects[s.table[n]].serviceName == n
    ensures var own := s.objects[p].serviceName;
      var gone := Remove(Ref(s, p), own);
      gone.table == s.table - {own} && RunHook(s, RestorePending(p)) == gone.(table := s.table[own := p])
  {
    var own := s.objects[p].serviceName;
    RunLess(s, held, RestorePending(p), rest);
    assert forall q :: q in s.objects ==> ObjectSound(s, q, held, rest);
    RestoreInAnyOrder(s, p);
    RefStaysSound(s, p, held, rest);
    RemoveAbsent(Ref(s, p), own);
    assert own in s.table ==> s.table[own] != p && s.table[own] in s.objects;
    assert own !in s.table ==> s.table - {own} == s.table;
    hide Holders, Sum, HookTally, Insert, RunHook;
  }

  ghost predicate NoneConcerns(s: Ledger, hooks: seq<Hook>, name: string) {
    forall hook :: hook in hooks ==> !Concerns(s, hook, name)
  }

  lemma FirstHook(s: Ledger, hooks: seq<Hook>, held: multiset<Address>, name: string)
    requires hooks != [] && Sound(s, held, hooks) && forall hook :: hook in hooks ==> hook.p in held
    ensures var s1 := RunHook(s, hooks[0]);
      && Sound(s1, held, hooks[1..]) && Seen(s1, name) == AfterHook(s, hooks[0], name) && HeldUnchanged(s, s1, held)
      && forall hook :: hook in hooks ==> Concerns(s1, hook, name) == Concerns(s, hook, name)
  {
    assert hooks == [hooks[0]] + hooks[1..];
    RunHookSeen(s, hooks[0], hooks[1..], held, name);
    RunHookStaysSound(s, hooks[0], hooks[1..], held);
    hide Sound, RunHook, Seen;
  }

  lemma {:induction false} UnconcernedHooks(s: Ledger, hooks: seq<Hook>, held: multiset<Address>, name: string)
    requires Sound(s, held, hooks) && forall hook :: hook in hooks ==> hook.p in held
    requires NoneConcerns(s, hooks, name)
    ensures Seen(RunHooks(s, hooks), name) == Seen(s, name)
    decreases |hooks|
  {
    hide Sound, RunHook, Seen, HeldUnchanged;
    if hooks != [] {
      FirstHook(s, hooks, held, name);
      UnconcernedHooks(RunHook(s, hooks[0]), hooks[1..], held, name);
    }
  }

  /** The last of the hooks that concerns a name decides about it. */
  lemma {:induction false} LastHookDecides(s: Ledger, hooks: seq<Hook>, held: multiset<Address>, name: string,
                                           last: nat)
    requires Sound(s, held, hooks) && forall hook :: hook in hooks ==> hook.p in held
    requires last < |hooks| && Concerns(s, hooks[last], name) && NoneConcerns(s, hooks[last + 1..], name)
    ensures Seen(RunHooks(s, hooks), name) == AfterHook(s, hooks[last], name)
    decreases |hooks|
  {
    hide Sound, RunHook, Seen;
    FirstHook(s, hooks, held, name);
    var s1 := RunHook(s, hooks[0]);
    if last == 0 {
      UnconcernedHooks(s1, hooks[1..], held, name);
    } else {
      assert hooks[1..][last - 1 + 1..] == hooks[last + 1..];
      LastHookDecides(s1, hooks[1..], held, name, last - 1);
      assert hooks[last].p in held;
    }
  }

  /** Cancelling a transaction: its hooks decide, the oldest of them last, and
      names none of them concerns are left alone. */
  lemma CancelOutcome(s: Ledger, t: Transaction, name: string)
    requires Sound(s, multiset{}, []) && t in s.hooks
    ensures var s' := Abort(s, t);
      && s'.hooks == s.hooks - {t}
      && (NoneConcerns(s, s.hooks[t], name) ==> Seen(s', name) == Seen(s, name))
      && forall last :: (0 <= last < |s.hooks[t]| && Concerns(s, s.hooks[t][last], name)
            && NoneConcerns(s, s.hooks[t][last + 1..], name)) ==>
           Seen(s', name) == AfterHook(s, s.hooks[t][last], name)
  {
    var s0, hooks := s.(hooks := s.hooks - {t}), s.hooks[t];
    var held := Addresses(hooks);
    TakeHooks(s, t, hooks);
    AllHeld(hooks);
    RunHooksStaySound(s0, hooks, held);
    FreeHooksSeen(RunHooks(s0, hooks), hooks, name);
    RunHooksLess(s0, hooks);
    hide Sound, RunHooks, FreeHooks;
    if NoneConcerns(s, hooks, name) {
      UnconcernedHooks(s0, hooks, held, name);
    }
    forall last | 0 <= last < |hooks| && Concerns(s, hooks[last], name) && NoneConcerns(s, hooks[last + 1..], name)
      ensures Seen(Abort(s, t), name) == AfterHook(s, hooks[last], name)
    {
      LastHookDecides(s0, hooks, held, name, last);
    }
  }
}

/** bus_activation_activate_service as a whole, with its nested activation of
    systemd, and runs of the activation code: over every one of them the ledger
    of `ActivationTheory` stays sound and within the limit. */
module ActivationRuns {
  import opened BusTypes
  import opened Collections
  import opened ActivationTheory

  const SYSTEMD := "org.freedesktop.systemd1"

  /** What the code asks of the rest of the daemon. */
  datatype Environment = Environment(
    services: map<string, Service>,      // the service files
    active: set<string>,                 // names on the bus
    systemdActivation: bool,
    dispatchAllowed: bool,               // systemd may be sent the activation request
    spawned: bool,                       // the child process was started
    hookAllocated: set<Transaction>,     // transactions that can take another hook
    maxPending: int)

  datatype Request = Request(name: string, connection: Option<Connection>, autoActivation: bool, message: Message)

  datatype Outcome = Pending | AlreadyRunning | LimitsExceeded | ServiceUnknown | Failed

  /** bus_activation_activate_service in transaction `t`.  `nested` is the
      transaction it opens for systemd; `id` and `nestedId` are the addresses of
      pending activations it may have to create. */
  function Activate(s: Ledger, t: Transaction, nested: Transaction, r: Request, env: Environment, id: Address,
                    nestedId: Address)
    : (result: (Outcome, Ledger))
    requires t in s.hooks
    decreases if env.systemdActivation && r.name == SYSTEMD then 0 else 3
  {
    if s.nPending >= env.maxPending then (LimitsExceeded, s)
    else if r.name !in env.services then (ServiceUnknown, s)
    else if !r.autoActivation && r.name in env.active then (AlreadyRunning, s)
    else
      var (attached, s') := Attach(s, t, r, env, id);
      if !attached then (Failed, s')
      else if r.name in s.table || (env.systemdActivation && r.name == SYSTEMD) then (Pending, s')
      else Launch(s', nested, r, env, nestedId)
  }

  /** Queues the request and registers its cancel hook; without a hook the
      pending activation is dropped altogether. */
  function Attach(s: Ledger, t: Transaction, r: Request, env: Environment, id: Address): (result: (bool, Ledger))
    requires r.name in env.services && t in s.hooks
  {
    var s' := Enqueue(s, r.name, env.services[r.name], Entry(r.message, r.connection, r.autoActivation), id);
    if r.name in s'.table && s'.table[r.name] in s'.objects && t in env.hookAllocated then
      (true, Register(s', t, s'.table[r.name]))
    else (false, Remove(s', r.name))
  }

  /** Starts the service, through systemd or as a child process. */
  function Launch(s: Ledger, nested: Transaction, r: Request, env: Environment, nestedId: Address)
    : (result: (Outcome, Ledger))
    requires r.name in env.services && !(env.systemdActivation && r.name == SYSTEMD)
    decreases 2
  {
    if env.systemdActivation && env.services[r.name].systemdService.Some? then ViaSystemd(s, nested, r, env, nestedId)
    else if env.spawned then (Pending, s)
    else (Failed, Remove(s, r.name))
  }

  /** Hands the activation over to systemd in a transaction of its own. */
  function ViaSystemd(s: Ledger, nested: Transaction, r: Request, env: Environment, nestedId: Address)
    : (result: (Outcome, Ledger))
    requires r.name != SYSTEMD && env.systemdActivation
    decreases 1
  {
    var s1 := Begin(s, nested);
    if SYSTEMD in env.active then Conclude(s1, nested, env.dispatchAllowed, r.name)
    else
      var (outcome, s2) := Activate(s1, nested, nested, SystemdRequest(), env, nestedId, nestedId);
      Conclude(s2, nested, outcome == Pending || outcome == AlreadyRunning, r.name)
  }

  function SystemdRequest(): Request {
    Request(SYSTEMD, None, true, Message(Signal, 0, 0, true, ""))
  }

  /** Executes the nested transaction, or cancels it and gives up the service. */
  function Conclude(s: Ledger, nested: Transaction, ok: bool, name: string): (result: (Outcome, Ledger)) {
    if nested !in s.hooks then (Failed, s)
    else if ok then (Pending, Commit(s, nested))
    else (Failed, Remove(Abort(s, nested), name))
  }

  // ---- what every operation keeps -------------------------------------------------------

  ghost predicate Good(s: Ledger, max: int) {
    Sound(s, multiset{}, []) && 0 <= s.nPending <= max
  }

  lemma {:induction false} RunHooksLess(s: Ledger, hooks: seq<Hook>)
    ensures RunHooks(s, hooks).nPending <= s.nPending && RunHooks(s, hooks).hooks == s.hooks
    decreases |hooks|
  {
    if hooks != [] {
      RunHooksLess(RunHook(s, hooks[0]), hooks[1..]);
    }
  }

  lemma {:induction false} FreeHooksLess(s: Ledger, hooks: seq<Hook>)
    ensures FreeHooks(s, hooks).nPending <= s.nPending && FreeHooks(s, hooks).hooks == s.hooks
    decreases |hooks|
  {
    if hooks != [] {
      FreeHooksLess(if hooks[0].p in s.objects then Unref(s, hooks[0].p) else s, hooks[1..]);
    }
  }

  lemma CommitIsGood(s: Ledger, t: Transaction, max: int)
    requires Good(s, max) && t in s.hooks
    ensures Good(Commit(s, t), max) && Commit(s, t).hooks == s.hooks - {t}
  {
    CommitStaysSound(s, t);
    FreeHooksLess(s.(hooks := s.hooks - {t}), s.hooks[t]);
    hide ObjectSound;
  }

  lemma AbortIsGood(s: Ledger, t: Transaction, max: int)
    requires Good(s, max) && t in s.hooks
    ensures Good(Abort(s, t), max) && Abort(s, t).hooks == s.hooks - {t}
  {
    AbortStaysSound(s, t);
    RunHooksLess(s.(hooks := s.hooks - {t}), s.hooks[t]);
    FreeHooksLess(RunHooks(s.(hooks := s.hooks - {t}), s.hooks[t]), s.hooks[t]);
    hide ObjectSound;
  }

  lemma RemoveIsGood(s: Ledger, name: string, max: int)
    requires Good(s, max)
    ensures Good(Remove(s, name), max) && Remove(s, name).hooks == s.hooks && name !in Remove(s, name).table
  {
    RemoveStaysSound(s, name, multiset{}, []);
    hide ObjectSound;
  }

  lemma EnqueueIsGood(s: Ledger, name: string, service: Service, entry: Entry, id: Address, max: int)
    requires Good(s, max) && s.nPending < max && id !in s.objects
    ensures var s' := Enqueue(s, name, service, entry, id);
      Good(s', max) && s'.hooks == s.hooks && name in s'.table && s'.table[name] in s'.objects
    ensures forall p :: p in Enqueue(s, name, service, entry, id).objects <==>
      p in s.objects || (name !in s.table && p == id)
  {
    if name in s.table {
      EnqueueMoreStaysSound(s, name, service, entry, id);
    } else {
      EnqueueFirstStaysSound(s, name, service, entry, id);
    }
    hide ObjectSound;
  }

  lemma RegisterIsGood(s: Ledger, t: Transaction, p: Address, max: int)
    requires Good(s, max) && p in s.objects && t in s.hooks
    ensures var s' := Register(s, t, p);
      Good(s', max) && s'.hooks.Keys == s.hooks.Keys && s'.objects.Keys == s.objects.Keys && s'.table == s.table
    ensures forall u :: u in s.hooks && u != t ==> Register(s, t, p).hooks[u] == s.hooks[u]
  {
    RegisterStaysSound(s, t, p);
    hide ObjectSound;
  }

  lemma AttachIsGood(s: Ledger, t: Transaction, r: Request, env: Environment, id: Address)
    requires Good(s, env.maxPending) && s.nPending < env.maxPending && id !in s.objects
    requires r.name in env.services && t in s.hooks
    ensures var (attached, s') := Attach(s, t, r, env, id);
      && Good(s', env.maxPending) && s'.hooks.Keys == s.hooks.Keys
      && (forall p :: p in s'.objects && p != id ==> p in s.objects)
  {
    var entry := Entry(r.message, r.connection, r.autoActivation);
    var s' := Enqueue(s, r.name, env.services[r.name], entry, id);
    EnqueueIsGood(s, r.name, env.services[r.name], entry, id, env.maxPending);
    RegisterIsGood(s', t, s'.table[r.name], env.maxPending);
    RemoveIsGood(s', r.name, env.maxPending);
    RemoveAddsNothing(s', r.name);
    hide Good, Enqueue, Register, Remove;
  }

  lemma RemoveAddsNothing(s: Ledger, name: string)
    ensures forall p :: p in Remove(s, name).objects ==> p in s.objects
  {
  }

  lemma ActivateSystemdIsGood(s: Ledger, t: Transaction, nested: Transaction, r: Request, env: Environment,
                              id: Address, nestedId: Address)
    requires Good(s, env.maxPending) && t in s.hooks && id !in s.objects && r.name == SYSTEMD && env.systemdActivation
    ensures var (outcome, s') := Activate(s, t, nested, r, env, id, nestedId);
      Good(s', env.maxPending) && s'.hooks.Keys == s.hooks.Keys
  {
    if s.nPending < env.maxPending && r.name in env.services {
      AttachIsGood(s, t, r, env, id);
    }
    hide Good, Attach;
  }

  lemma ConcludeIsGood(s: Ledger, nested: Transaction, ok: bool, name: string, max: int)
    requires Good(s, max) && nested in s.hooks
    ensures var s' := Conclude(s, nested, ok, name).1; Good(s', max) && s'.hooks.Keys == s.hooks.Keys - {nested}
  {
    CommitIsGood(s, nested, max);
    AbortIsGood(s, nested, max);
    RemoveIsGood(Abort(s, nested), name, max);
    hide Good, Commit, Abort, Remove;
  }

  lemma ViaSystemdIsGood(s: Ledger, nested: Transaction, r: Request, env: Environment, nestedId: Address)
    requires Good(s, env.maxPending) && nested !in s.hooks && nestedId !in s.objects && r.name != SYSTEMD
    requires env.systemdActivation
    ensures var (outcome, s') := ViaSystemd(s, nested, r, env, nestedId);
      Good(s', env.maxPending) && s'.hooks.Keys == s.hooks.Keys
  {
    var s1 := Begin(s, nested);
    BeginStaysSound(s, nested);
    assert Good(s1, env.maxPending) && s1.hooks.Keys - {nested} == s.hooks.Keys && s1.objects == s.objects;
    hide Good, Begin, Conclude;
    if SYSTEMD in env.active {
      ConcludeIsGood(s1, nested, env.dispatchAllowed, r.name, env.maxPending);
    } else {
      var (outcome, s2) := Activate(s1, nested, nested, SystemdRequest(), env, nestedId, nestedId);
      ActivateSystemdIsGood(s1, nested, nested, SystemdRequest(), env, nestedId, nestedId);
      ConcludeIsGood(s2, nested, outcome == Pending || outcome == AlreadyRunning, r.name, env.maxPending);
    }
  }

  lemma LaunchIsGood(s: Ledger, nested: Transaction, r: Request, env: Environment, nestedId: Address)
    requires Good(s, env.maxPending) && nested !in s.hooks && nestedId !in s.objects
    requires r.name in env.services && !(env.systemdActivation && r.name == SYSTEMD)
    ensures var (outcome, s') := Launch(s, nested, r, env, nestedId);
      Good(s', env.maxPending) && s'.hooks.Keys == s.hooks.Keys
  {
    RemoveIsGood(s, r.name, env.maxPending);
    if env.systemdActivation {
      ViaSystemdIsGood(s, nested, r, env, nestedId);
    }
    hide Good, Remove, ViaSystemd;
  }

  /** One activation, nested or not, successful or not, keeps the ledger. */
  lemma ActivateIsGood(s: Ledger, t: Transaction, nested: Transaction, r: Request, env: Environment,
                       id: Address, nestedId: Address)
    requires Good(s, env.maxPending) && t in s.hooks && nested !in s.hooks
    requires id !in s.objects && nestedId !in s.objects && id != nestedId
    ensures var (outcome, s') := Activate(s, t, nested, r, env, id, nestedId);
      Good(s', env.maxPending) && s'.hooks.Keys == s.hooks.Keys
  {
    if s.nPending < env.maxPending && r.name in env.services {
      AttachIsGood(s, t, r, env, id);
      var s' := Attach(s, t, r, env, id).1;
      if !(env.systemdActivation && r.name == SYSTEMD) {
        LaunchIsGood(s', nested, r, env, nestedId);
      }
    }
    hide Good, Attach, Launch;
  }

  // ---- runs -------------------------------------------------------------------------------

  datatype Event =
    | Opened(txn: Transaction)
    | Activated(txn: Transaction, nested: Transaction, request: Request, env: Environment, id: Address,
      nestedId: Address)
    | Appeared(txn: Transaction, name: string)    // the service has taken its name
    | GivenUp(name: string)                       // timed out, exited or failed in systemd
    | Executed(txn: Transaction)
    | Cancelled(txn: Transaction)

  ghost predicate Enabled(s: Ledger, e: Event, max: int) {
    match e
    case Opened(t) => t !in s.hooks
    case Activated(t, nested, _, env, id, nestedId) =>
      t in s.hooks && nested !in s.hooks && id !in s.objects && nestedId !in s.objects && id != nestedId &&
        env.maxPending == max
    case Appeared(t, _) => t in s.hooks
    case GivenUp(_) => true
    case Executed(t) => t in s.hooks
    case Cancelled(t) => t in s.hooks
  }

  function Step(s: Ledger, e: Event): Ledger {
    match e
    case Opened(t) => Begin(s, t)
    case Activated(t, nested, r, env, id, nestedId) =>
      if t in s.hooks then Activate(s, t, nested, r, env, id, nestedId).1 else s
    case Appeared(t, name) => if t in s.hooks then Started(s, t, name) else s
    case GivenUp(name) => Remove(s, name)
    case Executed(t) => if t in s.hooks then Commit(s, t) else s
    case Cancelled(t) => if t in s.hooks then Abort(s, t) else s
  }

  lemma StepIsGood(s: Ledger, e: Event, max: int)
    requires Good(s, max) && Enabled(s, e, max)
    ensures Good(Step(s, e), max)
  {
    match e
    case Opened(t) => BeginStaysSound(s, t);
    case Activated(t, nested, r, env, id, nestedId) => ActivateIsGood(s, t, nested, r, env, id, nestedId);
    case Appeared(t, name) =>
      StartedStaysSound(s, t, name);
      hide ObjectSound;
    case GivenUp(name) => RemoveIsGood(s, name, max);
    case Executed(t) => CommitIsGood(s, t, max);
    case Cancelled(t) => AbortIsGood(s, t, max);
  }

  const START := Ledger(map[], map[], 0, map[])

  function After(log: seq<Event>): Ledger {
    if log == [] then START else Step(After(log[..|log| - 1]), log[|log| - 1])
  }

  ghost predicate IsRun(log: seq<Event>, max: int) {
    log == [] || (IsRun(log[..|log| - 1], max) && Enabled(After(log[..|log| - 1]), log[|log| - 1], max))
  }

  lemma {:induction false} RunIsGood(log: seq<Event>, max: nat)
    requires IsRun(log, max)
    ensures Good(After(log), max)
  {
    if log != [] {
      RunIsGood(log[..|log| - 1], max);
      StepIsGood(After(log[..|log| - 1]), log[|log| - 1], max);
    }
  }

  /** Over every run, with any number of open transactions: the daemon-wide
      number is the sum over the live pending activations, never negative and
      never above the limit; every reference is accounted for; and with no
      transaction open exactly the objects in the table are alive. */
  lemma LedgerHolds(log: seq<Event>, max: nat)
    requires IsRun(log, max)
    ensures var s := After(log);
      && s.nPending == Sum(EntryCounts(s.objects)) && 0 <= s.nPending <= max
      && (forall p :: p in s.objects ==>
            s.objects[p].nEntries == |s.objects[p].entries| &&
            s.objects[p].refcount == InTable(s, p) + Holders(s.hooks, p, false))
      && (s.hooks == map[] ==> forall p :: p in s.objects ==> InTable(s, p) == 1)
  {
    RunIsGood(log, max);
    var s := After(log);
    forall p | p in s.objects
      ensures s.objects[p].nEntries == |s.objects[p].entries|
      ensures s.objects[p].refcount == InTable(s, p) + Holders(s.hooks, p, false)
      ensures s.hooks == map[] ==> InTable(s, p) == 1
    {
      assert ObjectSound(s, p, multiset{}, []);
      if s.hooks == map[] {
        assert HookTallies(s.hooks, p, false) == map[];
      }
    }
  }
}

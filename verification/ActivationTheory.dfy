/** The ledger of pending activations (bus/activation.c), on values.

    A pending activation is a reference-counted object.  The hash table holds
    one reference to it, every cancel hook of an open transaction holds another;
    the daemon-wide number of requests is the sum over all live objects. */
module ActivationTheory {
  import opened BusTypes
  import opened Collections

  /** BusPendingActivationEntry; no connection means the daemon itself asked. */
  datatype Entry = Entry(message: Message, connection: Option<Connection>, autoActivation: bool)

  datatype PendingActivation = PendingActivation(
    refcount: int,
    serviceName: string,
    exec: string,
    systemdService: Option<string>,
    entries: seq<Entry>,
    nEntries: nat)

  datatype Hook = CancelPending(p: Address) | RestorePending(p: Address)

  datatype Ledger = Ledger(
    table: map<string, Address>,
    objects: map<Address, PendingActivation>,
    nPending: int,
    hooks: map<Transaction, seq<Hook>>)

  // ---- who holds what ------------------------------------------------------------------

  predicate Counts(hook: Hook, p: Address, restoreOnly: bool) {
    hook.p == p && (restoreOnly ==> hook.RestorePending?)
  }

  /** Hooks for `p`: all of them, or only those that would put it back. */
  function HookTally(hooks: seq<Hook>, p: Address, restoreOnly: bool): nat {
    if hooks == [] then 0
    else HookTally(hooks[1..], p, restoreOnly) + (if Counts(hooks[0], p, restoreOnly) then 1 else 0)
  }

  lemma {:induction false} HookTallyZero(hooks: seq<Hook>, p: Address)
    requires HookTally(hooks, p, false) == 0
    ensures forall i :: 0 <= i < |hooks| ==> hooks[i].p != p
  {
    if hooks != [] {
      HookTallyZero(hooks[1..], p);
      assert forall i :: 1 <= i < |hooks| ==> hooks[i] == hooks[1..][i - 1];
    }
  }

  ghost function HookTallies(hooks: map<Transaction, seq<Hook>>, p: Address, restoreOnly: bool): map<Transaction, nat> {
    map t | t in hooks :: HookTally(hooks[t], p, restoreOnly)
  }

  ghost function Holders(hooks: map<Transaction, seq<Hook>>, p: Address, restoreOnly: bool): nat {
    Sum(HookTallies(hooks, p, restoreOnly))
  }

  function InTable(s: Ledger, p: Address): nat {
    if p in s.objects && s.objects[p].serviceName in s.table && s.table[s.objects[p].serviceName] == p then 1 else 0
  }

  ghost function EntryCounts(objects: map<Address, PendingActivation>): map<Address, nat> {
    map p | p in objects :: objects[p].nEntries
  }

  /** `held` are references in the hands of running code, `waiting` the hooks of
      a transaction being cancelled that have not been run yet. */
  ghost predicate Sound(s: Ledger, held: multiset<Address>, waiting: seq<Hook>) {
    && s.nPending == Sum(EntryCounts(s.objects))
    && (forall p :: p in s.objects ==> ObjectSound(s, p, held, waiting))
    && (forall name :: name in s.table ==>
          s.table[name] in s.objects && s.objects[s.table[name]].serviceName == name)
    && (forall p :: p in held ==> p in s.objects)
    && (forall t, i :: t in s.hooks && 0 <= i < |s.hooks[t]| ==> s.hooks[t][i].p in s.objects)
  }

  /** One reference per holder; and either in the table or waiting to be put
      back, never both, never twice. */
  ghost predicate ObjectSound(s: Ledger, p: Address, held: multiset<Address>, waiting: seq<Hook>)
    requires p in s.objects
  {
    var o := s.objects[p];
    && o.nEntries == |o.entries|
    && o.refcount > 0
    && o.refcount == InTable(s, p) + Holders(s.hooks, p, false) + held[p]
    && Holders(s.hooks, p, true) + HookTally(waiting, p, true) + InTable(s, p) <= 1
  }

  // ---- reference counting ---------------------------------------------------------------

  /** bus_pending_activation_ref */
  function Ref(s: Ledger, p: Address): Ledger
    requires p in s.objects
  {
    s.(objects := s.objects[p := s.objects[p].(refcount := s.objects[p].refcount + 1)])
  }

  /** bus_pending_activation_unref: the last reference takes the object's
      requests off the daemon-wide number. */
  function Unref(s: Ledger, p: Address): Ledger
    requires p in s.objects
  {
    var o := s.objects[p].(refcount := s.objects[p].refcount - 1);
    if o.refcount > 0 then s.(objects := s.objects[p := o])
    else s.(objects := s.objects - {p}, nPending := s.nPending - o.nEntries)
  }

  lemma RefStaysSound(s: Ledger, p: Address, held: multiset<Address>, waiting: seq<Hook>)
    requires Sound(s, held, waiting) && p in s.objects
    ensures Sound(Ref(s, p), held + multiset{p}, waiting)
  {
    var s' := Ref(s, p);
    assert EntryCounts(s'.objects) == EntryCounts(s.objects);
    forall q | q in s'.objects
      ensures ObjectSound(s', q, held + multiset{p}, waiting)
    {
      assert ObjectSound(s, q, held, waiting);
    }
  }

  lemma {:induction false} SumPositive<K>(m: map<K, nat>, k: K)
    requires k in m && m[k] > 0
    ensures Sum(m) > 0
  {
    SumWithout(m, k);
  }

  lemma UnrefShared(s: Ledger, p: Address, held: multiset<Address>, waiting: seq<Hook>)
    requires Sound(s, held, waiting) && p in held && p in s.objects && s.objects[p].refcount > 1
    ensures Sound(Unref(s, p), held - multiset{p}, waiting)
  {
    var s' := Unref(s, p);
    assert EntryCounts(s'.objects) == EntryCounts(s.objects);
    forall q | q in s'.objects
      ensures ObjectSound(s', q, held - multiset{p}, waiting)
    {
      assert ObjectSound(s, q, held, waiting);
    }
  }

  lemma UnrefLast(s: Ledger, p: Address, held: multiset<Address>, waiting: seq<Hook>)
    requires Sound(s, held, waiting) && p in held && p in s.objects && s.objects[p].refcount <= 1
    ensures Sound(Unref(s, p), held - multiset{p}, waiting)
  {
    assert ObjectSound(s, p, held, waiting);
    var s' := Unref(s, p);
    SumWithout(EntryCounts(s.objects), p);
    assert EntryCounts(s'.objects) == EntryCounts(s.objects) - {p};
    NobodyHolds(s, p);
    forall q | q in s'.objects
      ensures ObjectSound(s', q, held - multiset{p}, waiting)
    {
      assert ObjectSound(s, q, held, waiting);
    }
  }

  lemma UnrefStaysSound(s: Ledger, p: Address, held: multiset<Address>, waiting: seq<Hook>)
    requires Sound(s, held, waiting) && p in held
    ensures p in s.objects && Sound(Unref(s, p), held - multiset{p}, waiting)
  {
    if s.objects[p].refcount > 1 {
      UnrefShared(s, p, held, waiting);
    } else {
      UnrefLast(s, p, held, waiting);
    }
  }

  lemma NobodyHolds(s: Ledger, p: Address)
    requires Holders(s.hooks, p, false) == 0
    ensures forall t, i :: t in s.hooks && 0 <= i < |s.hooks[t]| ==> s.hooks[t][i].p != p
  {
    forall t | t in s.hooks
      ensures forall i :: 0 <= i < |s.hooks[t]| ==> s.hooks[t][i].p != p
    {
      var m := HookTallies(s.hooks, p, false);
      if m[t] > 0 {
        SumPositive(m, t);
      }
      HookTallyZero(s.hooks[t], p);
    }
  }

  // ---- the hash table --------------------------------------------------------------------

  /** _dbus_hash_table_remove_string drops the table's reference. */
  function Remove(s: Ledger, name: string): Ledger {
    if name in s.table && s.table[name] in s.objects then
      Unref(s.(table := s.table - {name}), s.table[name])
    else s
  }

  /** _dbus_hash_table_insert_string_preallocated: a different old value loses
      the table's reference; the caller hands over one to the new value. */
  function Insert(s: Ledger, name: string, p: Address): Ledger {
    if name in s.table && s.table[name] != p && s.table[name] in s.objects then
      Unref(s.(table := s.table[name := p]), s.table[name])
    else s.(table := s.table[name := p])
  }

  lemma TakeOutOfTable(s: Ledger, name: string, held: multiset<Address>, waiting: seq<Hook>)
    requires Sound(s, held, waiting) && name in s.table
    ensures Sound(s.(table := s.table - {name}), held + multiset{s.table[name]}, waiting)
  {
    var s' := s.(table := s.table - {name});
    forall q | q in s'.objects
      ensures ObjectSound(s', q, held + multiset{s.table[name]}, waiting)
    {
      assert ObjectSound(s, q, held, waiting);
    }
  }

  lemma RemoveStaysSound(s: Ledger, name: string, held: multiset<Address>, waiting: seq<Hook>)
    requires Sound(s, held, waiting)
    ensures Sound(Remove(s, name), held, waiting)
  {
    if name in s.table {
      var p := s.table[name];
      TakeOutOfTable(s, name, held, waiting);
      UnrefStaysSound(s.(table := s.table - {name}), p, held + multiset{p}, waiting);
      assert held + multiset{p} - multiset{p} == held;
    }
  }

  /** Putting an absent object into a free place of the table. */
  lemma PutIntoTable(s: Ledger, p: Address, held: multiset<Address>, waiting: seq<Hook>)
    requires Sound(s, held, waiting) && p in held && p in s.objects && s.objects[p].serviceName !in s.table
    requires Holders(s.hooks, p, true) + HookTally(waiting, p, true) == 0
    ensures Sound(s.(table := s.table[s.objects[p].serviceName := p]), held - multiset{p}, waiting)
  {
    hide ObjectSound, Holders, Sum, InTable;
    forall q | q in s.objects
      ensures ObjectSound(s.(table := s.table[s.objects[p].serviceName := p]), q, held - multiset{p}, waiting)
    {
      TabledObjectIsSound(s, p, held, waiting, q);
    }
  }

  lemma TabledObjectIsSound(s: Ledger, p: Address, held: multiset<Address>, waiting: seq<Hook>, q: Address)
    requires Sound(s, held, waiting) && p in held && p in s.objects && s.objects[p].serviceName !in s.table
    requires Holders(s.hooks, p, true) + HookTally(waiting, p, true) == 0 && q in s.objects
    ensures ObjectSound(s.(table := s.table[s.objects[p].serviceName := p]), q, held - multiset{p}, waiting)
  {
    assert ObjectSound(s, q, held, waiting);
    hide Holders, Sum, HookTally;
  }

  lemma FreshIsUnheld(s: Ledger, p: Address, restoreOnly: bool)
    requires p !in s.objects
    requires forall t, i :: t in s.hooks && 0 <= i < |s.hooks[t]| ==> s.hooks[t][i].p in s.objects
    ensures Holders(s.hooks, p, restoreOnly) == 0
  {
    forall t | t in s.hooks
      ensures HookTally(s.hooks[t], p, restoreOnly) == 0
    {
      NoHookNoTally(s.hooks[t], p, restoreOnly);
    }
    SumOfZeros(HookTallies(s.hooks, p, restoreOnly));
  }

  lemma {:induction false} NoHookNoTally(hooks: seq<Hook>, p: Address, restoreOnly: bool)
    requires forall i :: 0 <= i < |hooks| ==> hooks[i].p != p
    ensures HookTally(hooks, p, restoreOnly) == 0
  {
    if hooks != [] {
      NoHookNoTally(hooks[1..], p, restoreOnly);
    }
  }

  // ---- hooks of a transaction ---------------------------------------------------------------

  /** The caller hands its reference over to the hook. */
  function AddHook(s: Ledger, t: Transaction, hook: Hook): Ledger
    requires t in s.hooks
  {
    s.(hooks := s.hooks[t := [hook] + s.hooks[t]])
  }

  lemma HoldersAfterAdd(s: Ledger, t: Transaction, hook: Hook, p: Address, restoreOnly: bool)
    requires t in s.hooks
    ensures Holders(AddHook(s, t, hook).hooks, p, restoreOnly) ==
      Holders(s.hooks, p, restoreOnly) + if Counts(hook, p, restoreOnly) then 1 else 0
  {
    var m := HookTallies(s.hooks, p, restoreOnly);
    assert ([hook] + s.hooks[t])[1..] == s.hooks[t];
    SumUpdate(m, t, HookTally([hook] + s.hooks[t], p, restoreOnly));
    assert HookTallies(AddHook(s, t, hook).hooks, p, restoreOnly) ==
      m[t := HookTally([hook] + s.hooks[t], p, restoreOnly)];
  }

  lemma AddHookStaysSound(s: Ledger, t: Transaction, hook: Hook, held: multiset<Address>)
    requires Sound(s, held, []) && t in s.hooks && hook.p in held && hook.p in s.objects
    requires hook.RestorePending? ==> Holders(s.hooks, hook.p, true) + InTable(s, hook.p) == 0
    ensures Sound(AddHook(s, t, hook), held - multiset{hook.p}, [])
  {
    hide ObjectSound, Holders, Sum, InTable;
    var s' := AddHook(s, t, hook);
    forall q | q in s'.objects
      ensures ObjectSound(s', q, held - multiset{hook.p}, [])
    {
      HookedObjectIsSound(s, t, hook, held, q);
    }
    forall u, i | u in s'.hooks && 0 <= i < |s'.hooks[u]|
      ensures s'.hooks[u][i].p in s'.objects
    {
      assert s'.hooks[u][i] == hook || s'.hooks[u][i] in s.hooks[u];
    }
  }

  lemma HookedObjectIsSound(s: Ledger, t: Transaction, hook: Hook, held: multiset<Address>, q: Address)
    requires t in s.hooks && q in s.objects && ObjectSound(s, q, held, []) && hook.p in held
    requires q == hook.p && hook.RestorePending? ==> Holders(s.hooks, q, true) + InTable(s, q) == 0
    ensures ObjectSound(AddHook(s, t, hook), q, held - multiset{hook.p}, [])
  {
    HoldersAfterAdd(s, t, hook, q, true);
    HoldersAfterAdd(s, t, hook, q, false);
    hide Holders;
  }

  function Addresses(hooks: seq<Hook>): multiset<Address> {
    if hooks == [] then multiset{} else multiset{hooks[0].p} + Addresses(hooks[1..])
  }

  lemma {:induction false} AddressesAreTallies(hooks: seq<Hook>, p: Address)
    ensures Addresses(hooks)[p] == HookTally(hooks, p, false)
    ensures p in Addresses(hooks) ==> exists i :: 0 <= i < |hooks| && hooks[i].p == p
  {
    if hooks != [] {
      AddressesAreTallies(hooks[1..], p);
      if p in Addresses(hooks[1..]) {
        var i :| 0 <= i < |hooks[1..]| && hooks[1..][i].p == p;
        assert hooks[i + 1].p == p;
      }
    }
  }

  /** Closing a transaction: its hooks, and their references, pass to the running code. */
  lemma TakeHooks(s: Ledger, t: Transaction, waiting: seq<Hook>)
    requires Sound(s, multiset{}, []) && t in s.hooks && (waiting == s.hooks[t] || waiting == [])
    ensures Sound(s.(hooks := s.hooks - {t}), Addresses(s.hooks[t]), waiting)
  {
    var s', held := s.(hooks := s.hooks - {t}), Addresses(s.hooks[t]);
    forall q | q in s'.objects
      ensures ObjectSound(s', q, held, waiting)
    {
      assert ObjectSound(s, q, multiset{}, []);
      HoldersWithout(s.hooks, t, q, true);
      HoldersWithout(s.hooks, t, q, false);
      AddressesAreTallies(s.hooks[t], q);
    }
    forall q | q in held
      ensures q in s.objects
    {
      AddressesAreTallies(s.hooks[t], q);
    }
  }

  lemma HoldersWithout(hooks: map<Transaction, seq<Hook>>, t: Transaction, p: Address, restoreOnly: bool)
    requires t in hooks
    ensures Holders(hooks, p, restoreOnly) == Holders(hooks - {t}, p, restoreOnly) + HookTally(hooks[t], p, restoreOnly)
  {
    SumWithout(HookTallies(hooks, p, restoreOnly), t);
    assert HookTallies(hooks - {t}, p, restoreOnly) == HookTallies(hooks, p, restoreOnly) - {t};
  }

  /** cancel_pending and restore_pending */
  function RunHook(s: Ledger, hook: Hook): Ledger {
    if hook.p !in s.objects then s
    else
      match hook
      case CancelPending(p) => Remove(s, s.objects[p].serviceName)
      case RestorePending(p) =>
        var s' := Insert(s, s.objects[p].serviceName, p);
        if p in s'.objects then Ref(s', p) else s'
  }

  function RunHooks(s: Ledger, hooks: seq<Hook>): Ledger
    decreases |hooks|
  {
    if hooks == [] then s else RunHooks(RunHook(s, hooks[0]), hooks[1..])
  }

  /** free_cancel_hooks */
  function FreeHooks(s: Ledger, hooks: seq<Hook>): Ledger
    decreases |hooks|
  {
    if hooks == [] then s
    else FreeHooks(if hooks[0].p in s.objects then Unref(s, hooks[0].p) else s, hooks[1..])
  }

  lemma RestoreInAnyOrder(s: Ledger, p: Address)
    requires p in s.objects && (forall q :: q in s.objects ==> s.objects[q].refcount > 0)
    ensures var name := s.objects[p].serviceName;
      var s' := Remove(Ref(s, p), name);
      name in s.table && s.table[name] != p ==> RunHook(s, RestorePending(p)) == s'.(table := s'.table[name := p])
    ensures var name := s.objects[p].serviceName;
      name !in s.table ==> RunHook(s, RestorePending(p)) == Ref(s, p).(table := s.table[name := p])
  {
    var name := s.objects[p].serviceName;
    if name in s.table && s.table[name] != p {
      assert (s.table - {name})[name := p] == s.table[name := p];
      var q := s.table[name];
      if q in s.objects {
        var o, r := s.objects[q].(refcount := s.objects[q].refcount - 1),
          s.objects[p].(refcount := s.objects[p].refcount + 1);
        if o.refcount > 0 {
          assert s.objects[q := o][p := r] == s.objects[p := r][q := o];
        } else {
          assert (s.objects - {q})[p := r] == s.objects[p := r] - {q};
        }
      }
    }
  }

  /** Fewer hooks waiting to be run. */
  lemma RunLess(s: Ledger, held: multiset<Address>, hook: Hook, rest: seq<Hook>)
    requires Sound(s, held, [hook] + rest)
    ensures Sound(s, held, rest)
    ensures hook.RestorePending? && hook.p in s.objects ==>
      InTable(s, hook.p) + Holders(s.hooks, hook.p, true) + HookTally(rest, hook.p, true) == 0
  {
    assert ([hook] + rest)[1..] == rest;
    forall q | q in s.objects
      ensures ObjectSound(s, q, held, rest)
    {
      assert ObjectSound(s, q, held, [hook] + rest);
    }
    if hook.RestorePending? && hook.p in s.objects {
      assert ObjectSound(s, hook.p, held, [hook] + rest);
    }
  }

  lemma RemoveOther(s: Ledger, name: string, p: Address)
    requires p in s.objects && (name in s.table ==> s.table[name] != p)
    ensures var s' := Remove(s, name); p in s'.objects && s'.objects[p] == s.objects[p] && s'.hooks == s.hooks
    ensures name in s.table && s.table[name] in s.objects ==> name !in Remove(s, name).table
  {
  }

  lemma RestoreStaysSound(s: Ledger, p: Address, held: multiset<Address>, rest: seq<Hook>)
    requires Sound(s, held, rest) && p in held && p in s.objects
    requires InTable(s, p) + Holders(s.hooks, p, true) + HookTally(rest, p, true) == 0
    ensures Sound(RunHook(s, RestorePending(p)), held, rest)
  {
    var name := s.objects[p].serviceName;
    assert forall q :: q in s.objects ==> ObjectSound(s, q, held, rest);
    assert name in s.table ==> s.table[name] in s.objects && s.table[name] != p;
    RestoreInAnyOrder(s, p);
    RefStaysSound(s, p, held, rest);
    var s1 := Ref(s, p);
    RemoveStaysSound(s1, name, held + multiset{p}, rest);
    RemoveOther(s1, name, p);
    var s2 := Remove(s1, name);
    hide Sound, ObjectSound, Remove, Insert;
    assert name !in s2.table && s1.hooks == s.hooks;
    PutIntoTable(s2, p, held + multiset{p}, rest);
    assert held + multiset{p} - multiset{p} == held;
    assert name !in s.table ==> s2 == s1 by {
      RemoveAbsent(s1, name);
    }
  }

  lemma RemoveAbsent(s: Ledger, name: string)
    ensures name !in s.table ==> Remove(s, name) == s
  {
  }

  lemma RunHookStaysSound(s: Ledger, hook: Hook, rest: seq<Hook>, held: multiset<Address>)
    requires Sound(s, held, [hook] + rest) && hook.p in held
    ensures Sound(RunHook(s, hook), held, rest)
  {
    RunLess(s, held, hook, rest);
    match hook
    case CancelPending(p) => RemoveStaysSound(s, s.objects[p].serviceName, held, rest);
    case RestorePending(p) => RestoreStaysSound(s, p, held, rest);
  }

  lemma {:induction false} RunHooksStaySound(s: Ledger, hooks: seq<Hook>, held: multiset<Address>)
    requires Sound(s, held, hooks) && forall i :: 0 <= i < |hooks| ==> hooks[i].p in held
    ensures Sound(RunHooks(s, hooks), held, [])
    decreases |hooks|
  {
    if hooks != [] {
      assert hooks == [hooks[0]] + hooks[1..];
      RunHookStaysSound(s, hooks[0], hooks[1..], held);
      RunHooksStaySound(RunHook(s, hooks[0]), hooks[1..], held);
    }
  }

  lemma {:induction false} FreeHooksStaySound(s: Ledger, hooks: seq<Hook>)
    requires Sound(s, Addresses(hooks), [])
    ensures Sound(FreeHooks(s, hooks), multiset{}, [])
    decreases |hooks|
  {
    if hooks != [] {
      UnrefStaysSound(s, hooks[0].p, Addresses(hooks), []);
      assert Addresses(hooks) - multiset{hooks[0].p} == Addresses(hooks[1..]);
      FreeHooksStaySound(Unref(s, hooks[0].p), hooks[1..]);
    }
  }

  // ---- operations ----------------------------------------------------------------------------

  function Begin(s: Ledger, t: Transaction): Ledger {
    s.(hooks := s.hooks[t := []])
  }

  /** bus_transaction_execute_and_free: the hooks are freed without being run. */
  function Commit(s: Ledger, t: Transaction): Ledger
    requires t in s.hooks
  {
    FreeHooks(s.(hooks := s.hooks - {t}), s.hooks[t])
  }

  /** bus_transaction_cancel_and_free: all hooks are run, then all are freed. */
  function Abort(s: Ledger, t: Transaction): Ledger
    requires t in s.hooks
  {
    FreeHooks(RunHooks(s.(hooks := s.hooks - {t}), s.hooks[t]), s.hooks[t])
  }

  lemma CommitStaysSound(s: Ledger, t: Transaction)
    requires Sound(s, multiset{}, []) && t in s.hooks
    ensures Sound(Commit(s, t), multiset{}, [])
  {
    TakeHooks(s, t, []);
    FreeHooksStaySound(s.(hooks := s.hooks - {t}), s.hooks[t]);
  }

  lemma AbortStaysSound(s: Ledger, t: Transaction)
    requires Sound(s, multiset{}, []) && t in s.hooks
    ensures Sound(Abort(s, t), multiset{}, [])
  {
    TakeHooks(s, t, s.hooks[t]);
    AllHeld(s.hooks[t]);
    RunHooksStaySound(s.(hooks := s.hooks - {t}), s.hooks[t], Addresses(s.hooks[t]));
    FreeHooksStaySound(RunHooks(s.(hooks := s.hooks - {t}), s.hooks[t]), s.hooks[t]);
  }

  lemma AllHeld(hooks: seq<Hook>)
    ensures forall i :: 0 <= i < |hooks| ==> hooks[i].p in Addresses(hooks)
  {
    forall i | 0 <= i < |hooks|
      ensures hooks[i].p in Addresses(hooks)
    {
      TallyOfMember(hooks, i);
      AddressesAreTallies(hooks, hooks[i].p);
    }
  }

  lemma {:induction false} TallyOfMember(hooks: seq<Hook>, i: nat)
    requires i < |hooks|
    ensures HookTally(hooks, hooks[i].p, false) > 0
  {
    if i > 0 {
      TallyOfMember(hooks[1..], i - 1);
    }
  }

  lemma BeginStaysSound(s: Ledger, t: Transaction)
    requires Sound(s, multiset{}, []) && t !in s.hooks
    ensures Sound(Begin(s, t), multiset{}, [])
  {
    var s' := Begin(s, t);
    forall q | q in s'.objects
      ensures ObjectSound(s', q, multiset{}, [])
    {
      assert ObjectSound(s, q, multiset{}, []);
      HoldersWithout(s'.hooks, t, q, true);
      HoldersWithout(s'.hooks, t, q, false);
      assert s'.hooks - {t} == s.hooks;
    }
  }

  datatype Service = Service(exec: string, systemdService: Option<string>)

  /** One more request for a service: on the activation that is already pending,
      or on a new one, `id` being its address. */
  function Enqueue(s: Ledger, name: string, service: Service, entry: Entry, id: Address): Ledger {
    if name in s.table && s.table[name] in s.objects then
      var p := s.table[name];
      var o := s.objects[p];
      s.(objects := s.objects[p := o.(entries := o.entries + [entry], nEntries := o.nEntries + 1)],
         nPending := s.nPending + 1)
    else
      s.(objects := s.objects[id := PendingActivation(1, name, service.exec, service.systemdService, [entry], 1)],
         nPending := s.nPending + 1,
         table := s.table[name := id])
  }

  lemma EnqueueMoreStaysSound(s: Ledger, name: string, service: Service, entry: Entry, id: Address)
    requires Sound(s, multiset{}, []) && name in s.table
    ensures Sound(Enqueue(s, name, service, entry, id), multiset{}, [])
  {
    var s', p := Enqueue(s, name, service, entry, id), s.table[name];
    SumUpdate(EntryCounts(s.objects), p, s.objects[p].nEntries + 1);
    assert EntryCounts(s'.objects) == EntryCounts(s.objects)[p := s.objects[p].nEntries + 1];
    forall q | q in s'.objects
      ensures ObjectSound(s', q, multiset{}, [])
    {
      assert ObjectSound(s, q, multiset{}, []);
    }
  }

  lemma EnqueueFirstStaysSound(s: Ledger, name: string, service: Service, entry: Entry, id: Address)
    requires Sound(s, multiset{}, []) && name !in s.table && id !in s.objects
    ensures Sound(Enqueue(s, name, service, entry, id), multiset{}, [])
  {
    var o := PendingActivation(1, name, service.exec, service.systemdService, [entry], 1);
    var s1 := s.(objects := s.objects[id := o], nPending := s.nPending + 1);
    NotInTable(s, name, service, entry, id);
    NewObjectIsSound(s, id, o);
    hide Sound, Holders, Enqueue;
    FreshIsUnheld(s, id, true);
    PutIntoTable(s1, id, multiset{id}, []);
    assert multiset{id} - multiset{id} == multiset{};
  }

  lemma NotInTable(s: Ledger, name: string, service: Service, entry: Entry, id: Address)
    requires name !in s.table
    ensures var o := PendingActivation(1, name, service.exec, service.systemdService, [entry], 1);
      var s1 := s.(objects := s.objects[id := o], nPending := s.nPending + 1);
      Enqueue(s, name, service, entry, id) == s1.(table := s1.table[o.serviceName := id])
  {
  }

  /** A new object with one entry, held by the running code only. */
  lemma NewObjectIsSound(s: Ledger, id: Address, o: PendingActivation)
    requires Sound(s, multiset{}, []) && id !in s.objects
    requires o.refcount == o.nEntries == |o.entries| == 1 && o.serviceName !in s.table
    ensures Sound(s.(objects := s.objects[id := o], nPending := s.nPending + 1), multiset{id}, [])
    ensures forall t, i :: t in s.hooks && 0 <= i < |s.hooks[t]| ==> s.hooks[t][i].p in s.objects
  {
    var s1 := s.(objects := s.objects[id := o], nPending := s.nPending + 1);
    hide ObjectSound, Sum, EntryCounts, Holders, InTable;
    OneMoreCounted(s, id, o);
    NewOneIsSound(s, id, o);
    forall q | q in s.objects
      ensures ObjectSound(s1, q, multiset{id}, [])
    {
      OtherStaysSound(s, id, o, q);
    }
  }

  lemma NewOneIsSound(s: Ledger, id: Address, o: PendingActivation)
    requires Sound(s, multiset{}, []) && id !in s.objects
    requires o.refcount == o.nEntries == |o.entries| == 1 && o.serviceName !in s.table
    ensures ObjectSound(s.(objects := s.objects[id := o], nPending := s.nPending + 1), id, multiset{id}, [])
  {
    FreshIsUnheld(s, id, true);
    FreshIsUnheld(s, id, false);
    hide Holders, Sum;
  }

  lemma OtherStaysSound(s: Ledger, id: Address, o: PendingActivation, q: Address)
    requires Sound(s, multiset{}, []) && id !in s.objects && q in s.objects
    ensures ObjectSound(s.(objects := s.objects[id := o], nPending := s.nPending + 1), q, multiset{id}, [])
  {
    assert ObjectSound(s, q, multiset{}, []);
    hide Holders, Sum;
  }

  lemma OneMoreCounted(s: Ledger, id: Address, o: PendingActivation)
    requires id !in s.objects && o.nEntries == 1
    ensures Sum(EntryCounts(s.objects[id := o])) == Sum(EntryCounts(s.objects)) + 1
  {
    SumUpdate(EntryCounts(s.objects), id, 1);
    assert EntryCounts(s.objects[id := o]) == EntryCounts(s.objects)[id := 1];
  }

  /** add_cancel_pending_to_transaction */
  function Register(s: Ledger, t: Transaction, p: Address): Ledger
    requires p in s.objects && t in s.hooks
  {
    AddHook(Ref(s, p), t, CancelPending(p))
  }

  lemma RegisterStaysSound(s: Ledger, t: Transaction, p: Address)
    requires Sound(s, multiset{}, []) && p in s.objects && t in s.hooks
    ensures Sound(Register(s, t, p), multiset{}, [])
  {
    RefStaysSound(s, p, multiset{}, []);
    assert multiset{} + multiset{p} == multiset{p} && multiset{p} - multiset{p} == multiset{};
    AddHookStaysSound(Ref(s, p), t, CancelPending(p), multiset{p});
  }

  /** The service has appeared: bus_activation_send_pending_auto_activation_messages
      saves the pending activation for a cancellation and takes it off the table. */
  function Started(s: Ledger, t: Transaction, name: string): Ledger
    requires t in s.hooks
  {
    if name in s.table && s.table[name] in s.objects then
      Remove(AddHook(Ref(s, s.table[name]), t, RestorePending(s.table[name])), name)
    else s
  }

  lemma StartedStaysSound(s: Ledger, t: Transaction, name: string)
    requires Sound(s, multiset{}, []) && t in s.hooks
    ensures Sound(Started(s, t, name), multiset{}, [])
  {
    if name in s.table {
      var p := s.table[name];
      assert ObjectSound(s, p, multiset{}, []);
      RefStaysSound(s, p, multiset{}, []);
      assert multiset{} + multiset{p} == multiset{p} && multiset{p} - multiset{p} == multiset{};
      RemoveStaysSound(Ref(s, p), name, multiset{p}, []);
      var s1 := Remove(Ref(s, p), name);
      AddHookStaysSound(s1, t, RestorePending(p), multiset{p});
      assert Started(s, t, name) == AddHook(s1, t, RestorePending(p));
    }
  }
}

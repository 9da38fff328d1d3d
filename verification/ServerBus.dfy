/** ServerBus.cs over its dictionaries, lists and counters. */
module ServerBus {
  import opened Collections
  import opened ServerBusTheory

  datatype ReleaseReply = WasReleased | NonExistent | NotOwner | ReleaseRefused

  class Bus {
    var conns: seq<Connection>
    /** ServerConnection.UniqueName of the connections that have one */
    var uniqueNames: map<Connection, string>
    var names: map<string, Connection>
    var rules: map<Rule, seq<Connection>>
    var uniqueMajor: int
    var uniqueMinor: int

    function Snapshot(): ServerBusTheory.Bus
      reads this
    {
      ServerBusTheory.Bus(conns, uniqueNames, names, rules, uniqueMajor, uniqueMinor)
    }

    constructor ()
      ensures Snapshot() == START && Consistent(Snapshot())
    {
      conns, uniqueNames, names, rules, uniqueMajor, uniqueMinor := [], map[], map[], map[], 1, -1;
    }

    /** AddConnection; false stands for the exception. */
    method Add(c: Connection) returns (ok: bool)
      modifies `conns
      ensures ok <==> c !in old(conns)
      ensures Snapshot() == AddConnection(old(Snapshot()), c)
    {
      if c in conns {
        return false;
      }
      conns := conns + [c];
      return true;
    }

    /** `while (list.Remove (conn)) { }` */
    static method RemoveEach(list: seq<Connection>, c: Connection) returns (rest: seq<Connection>)
      ensures rest == WithoutConnection(list, c)
    {
      rest := list;
      while c in rest
        invariant WithoutConnection(rest, c) == WithoutConnection(list, c)
        decreases |rest|
      {
        RemoveFirstMembers(rest, c);
        WithoutAfterRemove(rest, c);
        rest := RemoveFirst(rest, c);
      }
      WithoutMembers(rest, c);
    }

    /** The names to disown, in the order of the dictionary. */
    static method NamesOf(names: map<string, Connection>, c: Connection,
                          order: seq<string>) returns (owned: seq<string>)
      requires forall name :: name in order <==> name in names
      ensures forall name :: name in owned <==> name in names && names[name] == c
    {
      owned := [];
      var i := 0;
      while i < |order|
        invariant 0 <= i <= |order|
        invariant forall name :: name in owned <==> name in order[..i] && name in names && names[name] == c
      {
        var name := order[i];
        assert name in order && order[..i + 1] == order[..i] + [name];
        if names[name] == c {
          owned := owned + [name];
        }
        i := i + 1;
      }
      assert order[..i] == order;
    }

    /** Takes the connection out of every rule list, then drops the empty lists. */
    static method ForgetRules(rules: map<Rule, seq<Connection>>, c: Connection,
                              order: seq<Rule>) returns (left: map<Rule, seq<Connection>>)
      requires NoDuplicates(order) && forall r :: r in order <==> r in rules
      ensures left == KeptRules(rules, c)
    {
      hide Cleared, Empties;
      ClearedNothing(rules, c);
      left := rules;
      var toRemove: seq<Rule> := [];
      var i := 0;
      while i < |order|
        invariant 0 <= i <= |order| && Cleared(left, rules, order[..i], c) && Empties(toRemove, rules, order[..i], c)
      {
        var r := order[i];
        ClearOneMore(left, toRemove, rules, order, i, c);
        var rest := RemoveEach(left[r], c);
        left := left[r := rest];
        if |rest| == 0 {
          toRemove := toRemove + [r];
        }
        i := i + 1;
      }
      assert order[..i] == order;
      EmptyListsDropped(rules, left, toRemove, order, c);
      left := DropKeys(left, toRemove);
    }

    static method DropKeys(rules: map<Rule, seq<Connection>>,
                           toRemove: seq<Rule>) returns (left: map<Rule, seq<Connection>>)
      ensures left == map r | r in rules && r !in toRemove :: rules[r]
    {
      left := rules;
      var i := 0;
      while i < |toRemove|
        invariant 0 <= i <= |toRemove|
        invariant left == map r | r in rules && r !in toRemove[..i] :: rules[r]
      {
        assert toRemove[..i + 1] == toRemove[..i] + [toRemove[i]];
        left := left - {toRemove[i]};
        i := i + 1;
      }
      assert toRemove[..i] == toRemove;
    }

    /** RemoveConnection; false stands for the exception. */
    method Remove(c: Connection, nameOrder: seq<string>, ruleOrder: seq<Rule>) returns (ok: bool)
      requires forall name :: name in nameOrder <==> name in names
      requires NoDuplicates(ruleOrder) && forall r :: r in ruleOrder <==> r in rules
      modifies `conns, `names, `rules
      ensures ok <==> c in old(conns)
      ensures Snapshot() == RemoveConnection(old(Snapshot()), c)
    {
      if c !in conns {
        return false;
      }
      conns := RemoveFirst(conns, c);
      var namesToDisown := NamesOf(names, c, nameOrder);
      rules := ForgetRules(rules, c, ruleOrder);
      var i := 0;
      while i < |namesToDisown|
        invariant 0 <= i <= |namesToDisown|
        invariant conns == RemoveFirst(old(conns), c) && rules == KeptRules(old(rules), c)
        invariant names == map name | name in old(names) && name !in namesToDisown[..i] :: old(names)[name]
      {
        assert namesToDisown[..i + 1] == namesToDisown[..i] + [namesToDisown[i]];
        names := names - {namesToDisown[i]};
        i := i + 1;
      }
      assert namesToDisown[..i] == namesToDisown;
      assert names == KeptNames(old(names), c);
      return true;
    }

    /** RequestName */
    method Request(caller: Connection, name: string) returns (reply: Reply)
      modifies `names
      ensures (reply, Snapshot()) == RequestName(old(Snapshot()), caller, name)
    {
      if name == "" || name[0] == ':' || name == DBUS_BUS_NAME {
        return Refused;
      }
      if name !in names {
        names := names[name := caller];
        return PrimaryOwner;
      }
      return if names[name] == caller then AlreadyOwner else Exists;
    }

    /** ReleaseName */
    method Release(caller: Connection, name: string) returns (reply: ReleaseReply)
      modifies `names
      ensures Snapshot() == ReleaseName(old(Snapshot()), caller, name)
      ensures reply == if !MayBeOwned(name) then ReleaseRefused
                       else if name !in old(names) then NonExistent
                       else if old(names)[name] != caller then NotOwner
                       else WasReleased
      ensures reply.WasReleased? ==> name !in names
    {
      if name == "" || name[0] == ':' || name == DBUS_BUS_NAME {
        return ReleaseRefused;
      }
      if name !in names {
        return NonExistent;
      }
      if names[name] != caller {
        return NotOwner;
      }
      names := names - {name};
      return WasReleased;
    }

    /** CreateUniqueName, with the counters as 32-bit integers; `k` is the
        number of calls before this one. */
    method NewUniqueName(ghost k: nat) returns (name: string)
      requires CountersBefore(Snapshot(), k)
      modifies `uniqueMajor, `uniqueMinor
      ensures (name, Snapshot()) == CreateUniqueName(old(Snapshot()))
      ensures name == NameOfCall(k) && CountersBefore(Snapshot(), k + 1)
    {
      CallGivesName(Snapshot(), k);
      var newMajor := uniqueMajor;
      uniqueMinor := uniqueMinor + 1;
      var newMinor := uniqueMinor;
      if newMinor == MAX_INT {
        if uniqueMajor == MAX_INT {
          uniqueMajor := 1;
        } else {
          uniqueMajor := uniqueMajor + 1;
        }
        uniqueMinor := -1;
      }
      name := UniqueName(newMajor, newMinor);
    }

    /** Hello; None stands for the exception on a second call. */
    method Greet(caller: Connection, ghost k: nat) returns (name: Option<string>)
      requires Consistent(Snapshot()) && caller in conns && CountersBefore(Snapshot(), k)
      modifies `uniqueMajor, `uniqueMinor, `uniqueNames, `names
      ensures (name, Snapshot()) == Hello(old(Snapshot()), caller) && Consistent(Snapshot())
    {
      HelloKeeps(Snapshot(), caller, k);
      if caller in uniqueNames {
        return None;
      }
      hide Consistent;
      var uniqueName := NewUniqueName(k);
      uniqueNames := uniqueNames[caller := uniqueName];
      names := names[uniqueName := caller];
      return Some(uniqueName);
    }

    /** AddMatch with the parsed rule; None stands for the exceptions of the parser. */
    method Subscribe(caller: Connection, rule: Option<Rule>) returns (ok: bool)
      modifies `rules
      ensures ok == rule.Some?
      ensures Snapshot() == if ok then AddMatch(old(Snapshot()), caller, rule.value) else old(Snapshot())
    {
      if rule == None {
        return false;
      }
      var r := rule.value;
      if r !in rules {
        rules := rules[r := []];
      }
      rules := rules[r := rules[r] + [caller]];
      return true;
    }

    /** RemoveMatch */
    method Unsubscribe(caller: Connection, rule: Option<Rule>) returns (ok: bool)
      modifies `rules
      ensures ok <==> rule.Some? && rule.value in old(rules)
      ensures Snapshot() == if ok then RemoveMatch(old(Snapshot()), caller, rule.value) else old(Snapshot())
    {
      if rule == None || rule.value !in rules {
        return false;
      }
      var r := rule.value;
      rules := rules[r := RemoveFirst(rules[r], caller)];
      if |rules[r]| == 0 {
        rules := rules - {r};
      }
      assert old(rules)[r := []] - {r} == old(rules) - {r};
      return true;
    }
  }

  /** The lists of the rules walked so far have lost the connection. */
  ghost predicate Cleared(left: map<Rule, seq<Connection>>, rules: map<Rule, seq<Connection>>,
                          done: seq<Rule>, c: Connection) {
    && left.Keys == rules.Keys
    && forall r :: r in rules ==> left[r] == if r in done then WithoutConnection(rules[r], c) else rules[r]
  }

  /** The rules among them that nobody holds any more. */
  ghost predicate Empties(toRemove: seq<Rule>, rules: map<Rule, seq<Connection>>, done: seq<Rule>, c: Connection) {
    forall r :: r in toRemove <==> r in done && r in rules && WithoutConnection(rules[r], c) == []
  }

  lemma ClearedNothing(rules: map<Rule, seq<Connection>>, c: Connection)
    ensures Cleared(rules, rules, [], c) && Empties([], rules, [], c)
  {
  }

  lemma ClearOneMore(left: map<Rule, seq<Connection>>, toRemove: seq<Rule>, rules: map<Rule, seq<Connection>>,
                     order: seq<Rule>, i: nat, c: Connection)
    requires NoDuplicates(order) && i < |order| && forall r :: r in order <==> r in rules
    requires Cleared(left, rules, order[..i], c) && Empties(toRemove, rules, order[..i], c)
    ensures order[i] in left
    ensures var rest := WithoutConnection(left[order[i]], c);
      && Cleared(left[order[i] := rest], rules, order[..i + 1], c)
      && Empties(if |rest| == 0 then toRemove + [order[i]] else toRemove, rules, order[..i + 1], c)
  {
    hide WithoutConnection;
    var r := order[i];
    assert r in order;
    assert r in rules;
    assert r in left;
    assert order[..i + 1] == order[..i] + [order[i]] && order[i] !in order[..i];
  }

  lemma EmptyListsDropped(rules: map<Rule, seq<Connection>>, left: map<Rule, seq<Connection>>,
                          toRemove: seq<Rule>, order: seq<Rule>, c: Connection)
    requires forall r :: r in order <==> r in rules
    requires Cleared(left, rules, order, c) && Empties(toRemove, rules, order, c)
    ensures (map r | r in left && r !in toRemove :: left[r]) == KeptRules(rules, c)
  {
    hide WithoutConnection;
    var dropped, kept := map r | r in left && r !in toRemove :: left[r], KeptRules(rules, c);
    forall r
      ensures r in dropped <==> r in kept
      ensures r in dropped ==> dropped[r] == kept[r]
    {
    }
  }

  lemma {:induction false} WithoutAfterRemove(list: seq<Connection>, c: Connection)
    ensures WithoutConnection(RemoveFirst(list, c), c) == WithoutConnection(list, c)
  {
    if list != [] && list[0] != c {
      WithoutAfterRemove(list[1..], c);
    }
  }

  /** An AddMatch for a new rule is undone by a RemoveMatch of the same caller. */
  lemma SubscribeThenUnsubscribe(s: ServerBusTheory.Bus, c: Connection, r: Rule)
    requires r !in s.rules
    ensures RemoveMatch(AddMatch(s, c, r), c, r) == s
  {
    assert [] + [c] == [c] && RemoveFirst([c], c) == [];
    assert s.rules[r := [c]] - {r} == s.rules;
  }

  /** With other holders, up to the order of the holders. */
  lemma SubscribeThenUnsubscribeAmongOthers(s: ServerBusTheory.Bus, c: Connection, r: Rule)
    requires r in s.rules && s.rules[r] != []
    ensures var s' := RemoveMatch(AddMatch(s, c, r), c, r);
      r in s'.rules && multiset(s'.rules[r]) == multiset(s.rules[r]) && s' == s.(rules := s.rules[r := s'.rules[r]])
  {
    var list := s.rules[r];
    RemoveFirstMultiset(list + [c], c);
    var rest := RemoveFirst(list + [c], c);
    hide RemoveFirst;
    assert multiset(rest) == multiset(list);
    assert |multiset(rest)| == |multiset(list)| > 0;
    assert s.rules[r := list + [c]][r := rest] == s.rules[r := rest];
  }
}

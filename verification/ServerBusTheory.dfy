/** The managed bus of dbus-sharp (ServerBus.cs), on values: who owns which name,
    who holds which match rule, and the unique names it hands out. */
module ServerBusTheory {
  import opened Collections

  /** The identity of a ServerConnection, and of a parsed MatchRule. */
  type Connection = int
  type Rule = int

  const MINORS := 0x8000_0000

  datatype Bus = Bus(
    conns: seq<Connection>,
    uniqueNames: map<Connection, string>,    // ServerConnection.UniqueName, where set
    names: map<string, Connection>,
    rules: map<Rule, seq<Connection>>,
    uniqueMajor: int,
    uniqueMinor: int)

  const DBUS_BUS_NAME := "org.freedesktop.DBus"

  // ---- unique names -----------------------------------------------------------------------

  function Digit(n: int): char
    requires 0 <= n < 10
  {
    (n + '0' as int) as char
  }

  /** The decimal form of a number. */
  function Decimal(n: nat): (text: string)
    ensures text != "" && forall i :: 0 <= i < |text| ==> '0' <= text[i] <= '9'
  {
    if n < 10 then [Digit(n)] else Decimal(n / 10) + [Digit(n % 10)]
  }

  function Value(text: string): int {
    if text == "" then 0 else 10 * Value(text[..|text| - 1]) + text[|text| - 1] as int - '0' as int
  }

  lemma {:induction false} ValueOfDecimal(n: nat)
    ensures Value(Decimal(n)) == n
  {
    if n >= 10 {
      ValueOfDecimal(n / 10);
      assert Decimal(n)[..|Decimal(n)| - 1] == Decimal(n / 10);
    }
  }

  function UniqueName(major: nat, minor: nat): string {
    ":" + Decimal(major) + "." + Decimal(minor)
  }

  lemma UniqueNameInjective(major: nat, minor: nat, major': nat, minor': nat)
    requires UniqueName(major, minor) == UniqueName(major', minor')
    ensures major == major' && minor == minor'
  {
    ValueOfDecimal(major);
    ValueOfDecimal(major');
    ValueOfDecimal(minor);
    ValueOfDecimal(minor');
    PartsOfName(Decimal(major), Decimal(minor), Decimal(major'), Decimal(minor'));
    hide Decimal;
  }

  predicate AllDigits(s: string) {
    forall i :: 0 <= i < |s| ==> '0' <= s[i] <= '9'
  }

  lemma PartsOfName(a: string, b: string, a': string, b': string)
    requires AllDigits(a) && AllDigits(a') && ":" + a + "." + b == ":" + a' + "." + b'
    ensures a == a' && b == b'
  {
    var s := ":" + a + "." + b;
    DotPosition(a, b);
    DotPosition(a', b');
    assert |a| == |a'|;
    hide AllDigits;
    assert s[1..|a| + 1] == a && s[1..|a| + 1] == a';
    assert s[|a| + 2..] == b && s[|a| + 2..] == b';
  }

  lemma DotPosition(a: string, b: string)
    requires AllDigits(a)
    ensures var s := ":" + a + "." + b; s[|a| + 1] == '.' && forall i :: 0 < i <= |a| ==> s[i] != '.'
  {
    var s := ":" + a + "." + b;
    assert forall i :: 0 < i <= |a| ==> s[i] == a[i - 1];
  }

  /** The numbers in the name handed out by call `k`, counting from 0. */
  function MajorOf(k: nat): nat { 1 + k / MINORS % MAX_INT }
  function MinorOf(k: nat): nat { k % MINORS }

  function NameOfCall(k: nat): string { UniqueName(MajorOf(k), MinorOf(k)) }

  /** The counters before call `k`. */
  predicate CountersBefore(s: Bus, k: nat) {
    s.uniqueMajor == MajorOf(k) && s.uniqueMinor == MinorOf(k) - 1
  }

  /** CreateUniqueName */
  function CreateUniqueName(s: Bus): (result: (string, Bus)) {
    var newMinor := s.uniqueMinor + 1;
    var name := if s.uniqueMajor >= 0 && newMinor >= 0 then UniqueName(s.uniqueMajor, newMinor) else "";
    (name,
     if newMinor == MAX_INT then
       s.(uniqueMajor := if s.uniqueMajor == MAX_INT then 1 else s.uniqueMajor + 1, uniqueMinor := -1)
     else s.(uniqueMinor := newMinor))
  }

  const PERIOD := MINORS * MAX_INT

  lemma CallGivesName(s: Bus, k: nat)
    requires CountersBefore(s, k)
    ensures CreateUniqueName(s).0 == NameOfCall(k) && CountersBefore(CreateUniqueName(s).1, k + 1)
  {
    NextQuotient(k, MINORS);
    NextResidue(k / MINORS, MAX_INT);
    hide UniqueName;
  }

  lemma NextQuotient(k: nat, n: nat)
    requires n > 0
    ensures if k % n == n - 1 then (k + 1) / n == k / n + 1 && (k + 1) % n == 0
            else (k + 1) / n == k / n && (k + 1) % n == k % n + 1
  {
    var q, r := k / n, k % n;
    assert k == n * q + r;
    if r == n - 1 {
      QuotientIs(k + 1, n, q + 1, 0);
    } else {
      QuotientIs(k + 1, n, q, r + 1);
    }
  }

  lemma QuotientIs(k: nat, n: nat, q: nat, r: nat)
    requires n > 0 && k == n * q + r && r < n
    ensures k / n == q && k % n == r
  {
    var d := k / n - q;
    assert n * d == r - k % n;
    MultipleIsFar(n, d);
  }

  lemma MultipleIsFar(n: nat, d: int)
    ensures d > 0 ==> n * d >= n
    ensures d < 0 ==> n * d + n <= 0
  {
  }

  lemma NextResidue(q: nat, n: nat)
    requires n > 1
    ensures (q + 1) % n == if q % n == n - 1 then 0 else q % n + 1
  {
    NextQuotient(q, n);
  }

  /** Two calls give the same name exactly when they are a whole number of
      periods apart: the first 2^31 * (2^31 - 1) names are all different. */
  lemma NamesRepeatExactly(j: nat, k: nat)
    ensures NameOfCall(j) == NameOfCall(k) <==> j % PERIOD == k % PERIOD
  {
    ResidueOfCall(j);
    ResidueOfCall(k);
    if NameOfCall(j) == NameOfCall(k) {
      UniqueNameInjective(MajorOf(j), MinorOf(j), MajorOf(k), MinorOf(k));
    }
  }

  lemma EarlyNamesDiffer(j: nat, k: nat)
    requires j < k < PERIOD
    ensures NameOfCall(j) != NameOfCall(k)
  {
    NamesRepeatExactly(j, k);
    SmallResidue(j, PERIOD);
    SmallResidue(k, PERIOD);
    hide NameOfCall;
  }

  lemma SmallResidue(n: nat, m: nat)
    requires n < m
    ensures n % m == n
  {
  }

  lemma ResidueOfCall(k: nat)
    ensures k % PERIOD == MinorOf(k) + MINORS * (MajorOf(k) - 1)
  {
    var q, r := k / MINORS, k % MINORS;
    var p, m := q / MAX_INT, q % MAX_INT;
    assert k == MINORS * q + r && q == MAX_INT * p + m;
    assert k == PERIOD * p + (MINORS * m + r);
    assert 0 <= MINORS * m + r < PERIOD;
  }

  // ---- the bus ----------------------------------------------------------------------------------

  /** BusNameIsValid, and the two further checks of RequestName and ReleaseName. */
  predicate MayBeOwned(name: string) {
    name != "" && name[0] != ':' && name != DBUS_BUS_NAME
  }

  function WithoutConnection(list: seq<Connection>, c: Connection): seq<Connection> {
    if list == [] then []
    else if list[0] == c then WithoutConnection(list[1..], c)
    else [list[0]] + WithoutConnection(list[1..], c)
  }

  lemma {:induction false} WithoutMembers(list: seq<Connection>, c: Connection)
    ensures forall d :: d in WithoutConnection(list, c) <==> d in list && d != c
    ensures c !in list ==> WithoutConnection(list, c) == list
  {
    if list != [] {
      WithoutMembers(list[1..], c);
      assert list == [list[0]] + list[1..];
    }
  }

  function AddConnection(s: Bus, c: Connection): Bus {
    if c in s.conns then s else s.(conns := s.conns + [c])
  }

  function RemoveConnection(s: Bus, c: Connection): Bus {
    if c !in s.conns then s
    else
      s.(conns := RemoveFirst(s.conns, c),
         names := KeptNames(s.names, c),
         rules := KeptRules(s.rules, c))
  }

  function KeptNames(names: map<string, Connection>, c: Connection): map<string, Connection> {
    map name | name in names && names[name] != c :: names[name]
  }

  function KeptRules(rules: map<Rule, seq<Connection>>, c: Connection): map<Rule, seq<Connection>> {
    map r | r in rules && WithoutConnection(rules[r], c) != [] :: WithoutConnection(rules[r], c)
  }

  datatype Reply = PrimaryOwner | AlreadyOwner | Exists | Refused

  function RequestName(s: Bus, c: Connection, name: string): (result: (Reply, Bus)) {
    if !MayBeOwned(name) then (Refused, s)
    else if name !in s.names then (PrimaryOwner, s.(names := s.names[name := c]))
    else if s.names[name] == c then (AlreadyOwner, s)
    else (Exists, s)
  }

  function ReleaseName(s: Bus, c: Connection, name: string): Bus {
    if MayBeOwned(name) && name in s.names && s.names[name] == c then s.(names := s.names - {name}) else s
  }

  /** Hello: None stands for the exception on a second call. */
  function Hello(s: Bus, c: Connection): (result: (Option<string>, Bus)) {
    if c in s.uniqueNames then (None, s)
    else
      var (name, s') := CreateUniqueName(s);
      (Some(name), s'.(uniqueNames := s'.uniqueNames[c := name], names := s'.names[name := c]))
  }

  function AddMatch(s: Bus, c: Connection, r: Rule): Bus {
    s.(rules := s.rules[r := (if r in s.rules then s.rules[r] else []) + [c]])
  }

  function RemoveMatch(s: Bus, c: Connection, r: Rule): Bus {
    if r !in s.rules then s
    else
      var rest := RemoveFirst(s.rules[r], c);
      if rest == [] then s.(rules := s.rules - {r}) else s.(rules := s.rules[r := rest])
  }

  // ---- invariants ----------------------------------------------------------------------------------

  /** Every owner and every rule holder is a current connection, no rule list is
      empty, and a name with a colon belongs to the connection that carries it. */
  ghost predicate Consistent(s: Bus) {
    && NoDuplicates(s.conns)
    && (forall name :: name in s.names ==> s.names[name] in s.conns && name != "" && name != DBUS_BUS_NAME)
    && (forall name :: name in s.names && name != "" && name[0] == ':' ==>
          s.names[name] in s.uniqueNames && s.uniqueNames[s.names[name]] == name)
    && (forall r :: r in s.rules ==> s.rules[r] != [] && forall c :: c in s.rules[r] ==> c in s.conns)
  }

  datatype Event =
    | Added(conn: Connection)
    | Removed(conn: Connection)
    | Requested(conn: Connection, name: string)
    | Released(conn: Connection, name: string)
    | Greeted(conn: Connection)
    | MatchAdded(conn: Connection, rule: Rule)
    | MatchRemoved(conn: Connection, rule: Rule)

  function Step(s: Bus, e: Event): Bus {
    match e
    case Added(c) => AddConnection(s, c)
    case Removed(c) => RemoveConnection(s, c)
    case Requested(c, name) => RequestName(s, c, name).1
    case Released(c, name) => ReleaseName(s, c, name)
    case Greeted(c) => Hello(s, c).1
    case MatchAdded(c, r) => AddMatch(s, c, r)
    case MatchRemoved(c, r) => RemoveMatch(s, c, r)
  }

  /** A call comes from a connection the bus has. */
  predicate Enabled(s: Bus, e: Event) {
    e.Added? || e.Removed? || e.conn in s.conns
  }

  lemma RemoveKeeps(s: Bus, c: Connection)
    requires Consistent(s)
    ensures Consistent(RemoveConnection(s, c))
  {
    if c in s.conns {
      RemoveFirstNoDuplicates(s.conns, c);
      RemoveFirstMembers(s.conns, c);
      forall r | r in s.rules
        ensures forall d :: d in WithoutConnection(s.rules[r], c) ==> d in s.rules[r] && d != c
      {
        WithoutMembers(s.rules[r], c);
      }
    }
  }

  lemma MatchesKeep(s: Bus, c: Connection, r: Rule)
    requires Consistent(s) && c in s.conns
    ensures Consistent(AddMatch(s, c, r)) && Consistent(RemoveMatch(s, c, r))
  {
    hide NoDuplicates, RemoveFirst;
    if r in s.rules {
      RemoveFirstSubset(s.rules[r], c);
    }
  }

  lemma {:induction false} RemoveFirstSubset(list: seq<Connection>, c: Connection)
    ensures forall d :: d in RemoveFirst(list, c) ==> d in list
  {
    if list != [] {
      RemoveFirstSubset(list[1..], c);
    }
  }

  lemma HelloKeeps(s: Bus, c: Connection, k: nat)
    requires Consistent(s) && c in s.conns && CountersBefore(s, k)
    ensures Consistent(Hello(s, c).1)
  {
    if c !in s.uniqueNames {
      CallGivesName(s, k);
      assert NameOfCall(k)[0] == ':' && DBUS_BUS_NAME[0] == 'o';
    }
  }

  lemma StepKeeps(s: Bus, e: Event, k: nat)
    requires Consistent(s) && Enabled(s, e) && CountersBefore(s, k)
    ensures Consistent(Step(s, e))
    ensures CountersBefore(Step(s, e), if e.Greeted? && e.conn !in s.uniqueNames then k + 1 else k)
  {
    match e
    case Added(c) =>
    case Removed(c) => RemoveKeeps(s, c);
    case Requested(c, name) =>
    case Released(c, name) =>
    case Greeted(c) =>
      HelloKeeps(s, c, k);
      CallGivesName(s, k);
    case MatchAdded(c, r) => MatchesKeep(s, c, r);
    case MatchRemoved(c, r) => MatchesKeep(s, c, r);
  }

  const START := Bus([], map[], map[], map[], 1, -1)

  function After(log: seq<Event>): Bus {
    if log == [] then START else Step(After(log[..|log| - 1]), log[|log| - 1])
  }

  predicate IsRun(log: seq<Event>) {
    log == [] || (IsRun(log[..|log| - 1]) && Enabled(After(log[..|log| - 1]), log[|log| - 1]))
  }

  /** How many unique names have been handed out. */
  function Calls(log: seq<Event>): nat {
    if log == [] then 0
    else
      var e := log[|log| - 1];
      Calls(log[..|log| - 1]) + if e.Greeted? && e.conn !in After(log[..|log| - 1]).uniqueNames then 1 else 0
  }

  lemma {:induction false} RunKeeps(log: seq<Event>)
    requires IsRun(log)
    ensures Consistent(After(log)) && CountersBefore(After(log), Calls(log))
  {
    if log == [] {
      StartKeeps();
    } else {
      RunKeeps(log[..|log| - 1]);
      StepKeeps(After(log[..|log| - 1]), log[|log| - 1], Calls(log[..|log| - 1]));
    }
    hide Consistent, Step, CountersBefore, START;
  }

  lemma StartKeeps()
    ensures Consistent(START) && CountersBefore(START, 0)
  {
  }

  /** Every name carried was handed out by one of the calls so far. */
  lemma {:induction false} CarriedWasHandedOut(log: seq<Event>, c: Connection)
    requires IsRun(log) && c in After(log).uniqueNames
    ensures exists k :: 0 <= k < Calls(log) && After(log).uniqueNames[c] == NameOfCall(k)
  {
    if log != [] {
      var before, e := log[..|log| - 1], log[|log| - 1];
      RunKeeps(before);
      if e.Greeted? && e.conn == c && c !in After(before).uniqueNames {
        CallGivesName(After(before), Calls(before));
        assert After(log).uniqueNames[c] == NameOfCall(Calls(before));
      } else {
        assert c in After(before).uniqueNames && After(log).uniqueNames[c] == After(before).uniqueNames[c];
        CarriedWasHandedOut(before, c);
      }
    }
  }

  /** In every reachable state the next name is new, until all 2^31 * (2^31 - 1)
      have been used: nobody owns it and nobody carries it. */
  lemma NextNameIsNew(log: seq<Event>)
    requires IsRun(log) && Calls(log) < PERIOD
    ensures var name := CreateUniqueName(After(log)).0;
      && name == NameOfCall(Calls(log)) && name !in After(log).names
      && forall c :: c in After(log).uniqueNames ==> After(log).uniqueNames[c] != name
  {
    RunKeeps(log);
    CallGivesName(After(log), Calls(log));
    forall c | c in After(log).uniqueNames
      ensures After(log).uniqueNames[c] != NameOfCall(Calls(log))
    {
      HandedOutIsOld(log, c);
    }
    if NameOfCall(Calls(log)) in After(log).names {
      OwnedIsCarried(After(log), Calls(log));
    }
    hide Consistent, After, Calls, IsRun, NameOfCall, CreateUniqueName, CountersBefore;
  }

  lemma OwnedIsCarried(s: Bus, k: nat)
    requires Consistent(s) && NameOfCall(k) in s.names
    ensures exists c :: c in s.uniqueNames && s.uniqueNames[c] == NameOfCall(k)
  {
    assert NameOfCall(k)[0] == ':';
    hide NameOfCall;
    var c := s.names[NameOfCall(k)];
    assert c in s.uniqueNames && s.uniqueNames[c] == NameOfCall(k);
  }

  lemma HandedOutIsOld(log: seq<Event>, c: Connection)
    requires IsRun(log) && Calls(log) < PERIOD && c in After(log).uniqueNames
    ensures After(log).uniqueNames[c] != NameOfCall(Calls(log))
  {
    CarriedWasHandedOut(log, c);
    hide After, Calls, IsRun, NameOfCall;
    var k :| 0 <= k < Calls(log) && After(log).uniqueNames[c] == NameOfCall(k);
    EarlyNamesDiffer(k, Calls(log));
  }

  /** A removed connection leaves no trace, and nobody else notices. */
  lemma NoTraceLeft(s: Bus, c: Connection)
    requires Consistent(s)
    ensures var s' := RemoveConnection(s, c);
      && c !in s'.conns
      && (forall name :: name in s'.names ==> s'.names[name] != c)
      && (forall r :: r in s'.rules ==> c !in s'.rules[r])
      && (forall name :: name in s.names && s.names[name] != c ==> name in s'.names && s'.names[name] == s.names[name])
      && (forall r, d :: r in s.rules && d != c && d in s.rules[r] ==> r in s'.rules && d in s'.rules[r])
      && (forall d :: d in s.conns && d != c ==> d in s'.conns)
  {
    RemoveFirstNoDuplicates(s.conns, c);
    RemoveFirstMembers(s.conns, c);
    forall r | r in s.rules
      ensures forall d :: d in WithoutConnection(s.rules[r], c) <==> d in s.rules[r] && d != c
    {
      WithoutMembers(s.rules[r], c);
    }
  }

  // ---- what each call answers and does -----------------------------------------------------------

  /** RequestName, said of names and owners only. */
  lemma RequestOutcome(s: Bus, c: Connection, name: string)
    ensures var (reply, s') := RequestName(s, c, name);
      var allowed := name != "" && name[0] != ':' && name != "org.freedesktop.DBus";
      && (reply == Refused <==> !allowed)
      && (reply == PrimaryOwner <==> allowed && name !in s.names)
      && (reply == AlreadyOwner <==> allowed && name in s.names && s.names[name] == c)
      && (reply == Exists <==> allowed && name in s.names && s.names[name] != c)
      && (reply == PrimaryOwner ==> name in s'.names && s'.names[name] == c)
      && (reply != PrimaryOwner ==> s'.names == s.names)
      && (forall other :: other != name ==>
            (other in s'.names <==> other in s.names) && (other in s.names ==> s'.names[other] == s.names[other]))
      && s' == s.(names := s'.names)
  {
  }

  /** ReleaseName: the owner, and nobody else, gives the name up. */
  lemma ReleaseOutcome(s: Bus, c: Connection, name: string)
    requires Consistent(s)
    ensures var s' := ReleaseName(s, c, name);
      var owns := name in s.names && s.names[name] == c && name[0] != ':';
      && (name in s'.names <==> name in s.names && !owns)
      && (forall other :: other in s.names && other != name ==> other in s'.names)
      && (forall other :: other in s'.names ==> other in s.names && s'.names[other] == s.names[other])
      && s' == s.(names := s'.names)
  {
  }

  /** Hello: once per connection, which then carries and owns the name it is given. */
  lemma HelloOutcome(s: Bus, c: Connection, k: nat)
    requires CountersBefore(s, k)
    ensures var (name, s') := Hello(s, c);
      && (name == None <==> c in s.uniqueNames)
      && (name == None ==> s' == s)
      && (name.Some? ==>
            && name.value == NameOfCall(k)
            && s'.names == s.names[name.value := c] && s'.uniqueNames == s.uniqueNames[c := name.value]
            && s'.conns == s.conns && s'.rules == s.rules)
  {
    CallGivesName(s, k);
    hide NameOfCall;
  }

  /** AddMatch: the caller holds the rule once more, everybody else as often as before. */
  lemma AddMatchOutcome(s: Bus, c: Connection, r: Rule)
    ensures var s' := AddMatch(s, c, r);
      && r in s'.rules && multiset(s'.rules[r]) == multiset(if r in s.rules then s.rules[r] else []) + multiset{c}
      && (forall other :: other != r ==>
            (other in s'.rules <==> other in s.rules) && (other in s.rules ==> s'.rules[other] == s.rules[other]))
      && s' == s.(rules := s'.rules)
  {
  }

  /** RemoveMatch: the caller holds the rule once less, if it held it at all. */
  lemma RemoveMatchOutcome(s: Bus, c: Connection, r: Rule)
    ensures var s' := RemoveMatch(s, c, r);
      && multiset(if r in s'.rules then s'.rules[r] else []) ==
         multiset(if r in s.rules then s.rules[r] else []) - multiset{c}
      && (forall other :: other != r ==>
            (other in s'.rules <==> other in s.rules) && (other in s.rules ==> s'.rules[other] == s.rules[other]))
      && s' == s.(rules := s'.rules)
  {
    if r in s.rules {
      RemoveFirstMultiset(s.rules[r], c);
    }
  }

  /** AddConnection adds a new connection and nothing else. */
  lemma AddOutcome(s: Bus, c: Connection)
    ensures var s' := AddConnection(s, c);
      (forall d :: d in s'.conns <==> d in s.conns || d == c) && s' == s.(conns := s'.conns)
  {
  }

  /** What takes a name away from its owner. */
  predicate GivesUp(e: Event, c: Connection, name: string) {
    e == Removed(c) || e == Released(c, name)
  }

  lemma StepKeepsOwner(s: Bus, e: Event, k: nat, c: Connection, name: string)
    requires Consistent(s) && CountersBefore(s, k) && name in s.names && s.names[name] == c && !GivesUp(e, c, name)
    requires NameOfCall(k) != name
    ensures name in Step(s, e).names && Step(s, e).names[name] == c
  {
    match e
    case Added(d) =>
    case Removed(d) => NoTraceLeft(s, d);
    case Requested(d, other) => RequestOutcome(s, d, other);
    case Released(d, other) => ReleaseOutcome(s, d, other);
    case Greeted(d) => HelloOutcome(s, d, k);
    case MatchAdded(d, r) =>
    case MatchRemoved(d, r) =>
    hide Consistent, NameOfCall, CountersBefore, RequestName, ReleaseName, Hello, RemoveConnection;
  }

  /** Over every run the owner of a name keeps it until it releases it or is
      removed: a name without a colon always, a unique name until all have been used. */
  lemma {:induction false} OwnerKeepsName(log: seq<Event>, i: nat, c: Connection, name: string)
    requires i <= |log| && IsRun(log)
    requires name in After(log[..i]).names && After(log[..i]).names[name] == c
    requires forall j :: i <= j < |log| ==> !GivesUp(log[j], c, name)
    requires name == "" || name[0] != ':' || Calls(log) < PERIOD
    ensures name in After(log).names && After(log).names[name] == c
    decreases |log|
  {
    if i == |log| {
      assert log[..i] == log;
    } else {
      var before := log[..|log| - 1];
      assert before[..i] == log[..i];
      OwnerKeepsName(before, i, c, name);
      RunKeeps(before);
      if name == NameOfCall(Calls(before)) {
        NextNameIsNew(before);
      }
      StepKeepsOwner(After(before), log[|log| - 1], Calls(before), c, name);
      hide Consistent, Step, NameOfCall, CountersBefore;
    }
  }
}

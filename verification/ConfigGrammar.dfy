/** Which configuration files are accepted: exactly those whose events are a tree
    of elements that obeys the document type, said here without a stack. */
module ConfigGrammar {
  import opened Collections
  import opened ConfigTheory

  /** What stands between the start and the end of an element. */
  datatype Body =
    | Empty
    | Text(text: string, rest: Body)
    | Child(kind: Kind, attributes: Attributes, body: Body, rest: Body)

  function Events(b: Body): seq<Event> {
    match b
    case Empty => []
    case Text(text, rest) => [Content(text)] + Events(rest)
    case Child(kind, attributes, body, rest) => [Start(kind, attributes)] + Events(body) + [End(kind)] + Events(rest)
  }

  // ---- the document type ----------------------------------------------------------------------

  predicate Unrepeated(attributes: Attributes) {
    forall i, j :: 0 <= i < j < |attributes| ==> attributes[i].0 != attributes[j].0
  }

  /** The elements of <busconfig> with their attributes. */
  predicate OfBusConfig(env: Environment, kind: Kind, attributes: Attributes) {
    if kind in {User, ConfigType, Pidfile, Listen, Auth, ServiceHelper, IncludeDir, ServiceDir, Selinux, Fork, Syslog,
                KeepUmask, AllowAnonymous, StandardSessionServiceDirs, StandardSystemServiceDirs}
    then attributes == []
    else if kind == Include then
      Unrepeated(attributes) && forall i :: 0 <= i < |attributes| ==>
        attributes[i].0 in {"ignore_missing", "if_selinux_enabled", "selinux_root_relative"} &&
        attributes[i].1 in {"yes", "no"}
    else if kind == Policy then
      |attributes| == 1 &&
      (attributes[0] in {("context", "default"), ("context", "mandatory"), ("at_console", "true"),
        ("at_console", "false")}
      || attributes[0].0 in {"user", "group"})
    else if kind == Limit then |attributes| == 1 && attributes[0].0 == "name"
    else if kind == Apparmor then
      if attributes == [] then env.setApparmorMode(None)
      else |attributes| == 1 && attributes[0].0 == "mode" && env.setApparmorMode(Some(attributes[0].1))
    else false
  }

  /** An element inside another, or, without a parent, the outermost one. */
  predicate Allowed(env: Environment, parent: Option<(Kind, Attributes)>, kind: Kind, attributes: Attributes) {
    match parent
    case None => kind == BusConfig && attributes == []
    case Some((BusConfig, _)) => OfBusConfig(env, kind, attributes)
    case Some((Policy, own)) =>
      (kind == Allow || kind == Deny) &&
      env.isUsableRule(Element(Policy, false, own, 0), attributes, kind == Allow)
    case Some((Selinux, _)) =>
      kind == Associate && |attributes| == 2 && {attributes[0].0, attributes[1].0} == {"own", "context"}
    case _ => false
  }

  const VALUES: set<Kind> :=
    {Include, User, ConfigType, Listen, Pidfile, Auth, ServiceDir, ServiceHelper, IncludeDir, Limit}

  const LONGS: set<string> :=
    {"max_incoming_bytes", "max_outgoing_bytes", "max_message_size",
     "max_incoming_unix_fds", "max_outgoing_unix_fds", "max_message_unix_fds"}

  const INTS: set<string> :=
    {"service_start_timeout", "auth_timeout", "pending_fd_timeout", "reply_timeout",
     "max_incomplete_connections", "max_completed_connections", "max_connections_per_user",
     "max_pending_service_starts", "max_names_per_connection", "max_match_rules_per_connection",
     "max_replies_per_connection"}

  /** The text a value may have. */
  predicate Suits(env: Environment, kind: Kind, attributes: Attributes, text: string) {
    match kind
    case Limit =>
      && |attributes| == 1 && env.parseInt(text).Some?
      && (var value := env.parseInt(text).value;
          value >= 0 && (attributes[0].1 in LONGS || (attributes[0].1 in INTS && value <= MAX_INT)))
    case Include =>
      || (("if_selinux_enabled", "yes") in attributes && !env.selinuxEnabled)
      || (("selinux_root_relative", "yes") in attributes ==> env.selinuxPolicyRoot.Some?)
    case _ => true
  }

  /** A value has exactly one text; around other elements there is only white space. */
  predicate Proper(env: Environment, parent: Option<(Kind, Attributes)>, b: Body)
    decreases b
  {
    match b
    case Empty => true
    case Text(text, rest) => parent.Some? && AllWhitespace(text) && Proper(env, parent, rest)
    case Child(kind, attributes, body, rest) =>
      && Allowed(env, parent, kind, attributes)
      && (if kind in VALUES then body.Text? && body.rest == Empty && Suits(env, kind, attributes, body.text)
          else Proper(env, Some((kind, attributes)), body))
      && Proper(env, parent, rest)
  }

  // ---- the stack alone --------------------------------------------------------------------------

  /** The stack after the events, if all are accepted. */
  function Nest(env: Environment, basedir: string, stack: seq<Element>, events: seq<Event>): Option<seq<Element>>
    decreases |events|
  {
    if events == [] then Some(stack)
    else
      match Interpret(env, basedir, stack, events[0])
      case Err(_) => None
      case Ok(next) => Nest(env, basedir, next.0, events[1..])
  }

  lemma {:induction false} NestAppend(env: Environment, basedir: string, stack: seq<Element>, a: seq<Event>,
                                      b: seq<Event>)
    requires Nest(env, basedir, stack, a).Some?
    ensures Nest(env, basedir, stack, a + b) == Nest(env, basedir, Nest(env, basedir, stack, a).value, b)
    decreases |a|
  {
    hide Interpret;
    if a == [] {
      assert a + b == b;
    } else {
      assert (a + b)[0] == a[0] && (a + b)[1..] == a[1..] + b;
      NestAppend(env, basedir, Interpret(env, basedir, stack, a[0]).value.0, a[1..], b);
    }
  }

  function Top(stack: seq<Element>): Option<(Kind, Attributes)> {
    if stack == [] then None else Some((stack[|stack| - 1].kind, stack[|stack| - 1].attributes))
  }

  /** An element that takes children or nothing, as it was opened. */
  predicate Bare(e: Element) {
    e.kind !in VALUES && !e.hadContent && e.limitValue == 0
  }

  // ---- the attributes ---------------------------------------------------------------------------

  lemma {:induction false} FindIsIn(attributes: Attributes, name: string)
    ensures Find(attributes, name).None? <==> forall i :: 0 <= i < |attributes| ==> attributes[i].0 != name
    ensures Find(attributes, name).Some? ==> (name, Find(attributes, name).value) in attributes
    ensures Unrepeated(attributes) ==> forall v :: (name, v) in attributes ==> Find(attributes, name) == Some(v)
  {
    if attributes != [] {
      FindIsIn(attributes[1..], name);
      assert forall i :: 1 <= i < |attributes| ==> attributes[i] == attributes[1..][i - 1];
    }
  }

  lemma IncludeIsAllowed(attributes: Attributes)
    ensures IncludeAllowed(attributes) <==>
      (Unrepeated(attributes) && forall i :: 0 <= i < |attributes| ==>
        attributes[i].0 in {"ignore_missing", "if_selinux_enabled", "selinux_root_relative"} &&
        attributes[i].1 in {"yes", "no"})
  {
    FindIsIn(attributes, "ignore_missing");
    FindIsIn(attributes, "if_selinux_enabled");
    FindIsIn(attributes, "selinux_root_relative");
    if IncludeAllowed(attributes) {
      forall i | 0 <= i < |attributes|
        ensures attributes[i].0 in {"ignore_missing", "if_selinux_enabled", "selinux_root_relative"}
        ensures attributes[i].1 in {"yes", "no"}
      {
        assert (attributes[i].0, attributes[i].1) in attributes;
      }
    }
    hide Find;
  }

  lemma FindInOne(attribute: (string, string), name: string)
    ensures Find([attribute], name) == if attribute.0 == name then Some(attribute.1) else None
  {
    assert Find([attribute][1..], name) == None;
  }

  lemma FindInTwo(a: (string, string), b: (string, string), name: string)
    ensures Find([a, b], name) == if a.0 == name then Some(a.1) else if b.0 == name then Some(b.1) else None
  {
    assert [a, b][1..] == [b];
    FindInOne(b, name);
  }

  lemma PolicyIsAllowed(attributes: Attributes)
    ensures PolicyAllowed(attributes) <==>
      (|attributes| == 1 &&
       (attributes[0] in
          {("context", "default"), ("context", "mandatory"), ("at_console", "true"), ("at_console", "false")}
        || attributes[0].0 in {"user", "group"}))
  {
    if |attributes| == 1 {
      assert attributes == [attributes[0]];
      FindInOne(attributes[0], "context");
      FindInOne(attributes[0], "at_console");
    }
    hide Find;
  }

  lemma AssociateIsAllowed(attributes: Attributes)
    ensures AssociateAllowed(attributes) <==>
      (|attributes| == 2 && {attributes[0].0, attributes[1].0} == {"own", "context"})
  {
    hide Find;
    FindIsIn(attributes, "own");
    FindIsIn(attributes, "context");
    if |attributes| > 2 {
      assert attributes[0].0 == attributes[1].0 || attributes[0].0 == attributes[2].0 ||
        attributes[1].0 == attributes[2].0 || attributes[0].0 !in ["own", "context"] ||
        attributes[1].0 !in ["own", "context"] || attributes[2].0 !in ["own", "context"];
    } else if |attributes| == 2 {
      TwoAreAllowed(attributes[0], attributes[1]);
      assert attributes == [attributes[0], attributes[1]];
    }
  }

  lemma TwoAreAllowed(a: (string, string), b: (string, string))
    ensures AssociateAllowed([a, b]) <==> {a.0, b.0} == {"own", "context"}
  {
    hide Find;
    FindInTwo(a, b, "own");
    FindInTwo(a, b, "context");
    var names := {a.0, b.0};
    assert a.0 in names && b.0 in names;
    assert [a, b][0].0 == a.0 && [a, b][1].0 == b.0;
    if names == {"own", "context"} {
      assert "own" in names && "context" in names;
      assert a.0 != b.0;
    }
  }

  lemma OneIsAllowed(attributes: Attributes, name: string)
    ensures Located(attributes, [name]) <==> (attributes == [] || (|attributes| == 1 && attributes[0].0 == name))
    ensures Located(attributes, [name]) ==>
      Find(attributes, name) == if attributes == [] then None else Some(attributes[0].1)
  {
    if |attributes| > 1 {
      assert attributes[0].0 == attributes[1].0 || attributes[0].0 !in [name] || attributes[1].0 !in [name];
    } else if |attributes| == 1 {
      assert attributes == [attributes[0]];
      FindInOne(attributes[0], name);
    }
    hide Find;
  }

  // ---- one event ----------------------------------------------------------------------------------

  predicate Plain(e: Element) {
    e.kind in VALUES || Bare(e)
  }

  lemma StartIsAllowed(env: Environment, stack: seq<Element>, kind: Kind, attributes: Attributes)
    requires stack != [] ==> Plain(stack[|stack| - 1])
    ensures var next := StartElement(env, stack, kind, attributes);
      && (next.Ok? <==> Allowed(env, Top(stack), kind, attributes))
      && (next.Ok? ==> next.value.0 == Push(stack, kind, attributes))
  {
    hide StartChild, OfBusConfig, AssociateAllowed;
    ChildIsAllowed(env, stack, kind, attributes);
    AssociateIsAllowed(attributes);
  }

  lemma ChildIsAllowed(env: Environment, stack: seq<Element>, kind: Kind, attributes: Attributes)
    ensures var next := StartChild(env, stack, kind, attributes);
      && (next.Ok? <==> OfBusConfig(env, kind, attributes))
      && (next.Ok? ==> next.value.0 == Push(stack, kind, attributes))
  {
    hide IncludeAllowed, PolicyAllowed, Located, Find;
    IncludeIsAllowed(attributes);
    PolicyIsAllowed(attributes);
    OneIsAllowed(attributes, "name");
    OneIsAllowed(attributes, "mode");
  }

  /** Around elements that are no values only white space is accepted, and forgotten. */
  lemma ContentOfBare(env: Environment, basedir: string, stack: seq<Element>, text: string)
    requires stack != [] && Bare(stack[|stack| - 1])
    ensures var next := ElementContent(env, basedir, stack, text);
      && (next.Ok? <==> AllWhitespace(text)) && (next.Ok? ==> next.value.0 == stack)
  {
  }

  /** What the end of a value needs to know of its text. */
  predicate Holds(env: Environment, e: Element, text: string) {
    e.kind == Limit ==> env.parseInt(text) == Some(e.limitValue)
  }

  lemma ContentOfValue(env: Environment, basedir: string, stack: seq<Element>, text: string)
    requires stack != [] && stack[|stack| - 1].kind in VALUES && Unrepeated(stack[|stack| - 1].attributes)
    ensures var (e, next) := (stack[|stack| - 1], ElementContent(env, basedir, stack, text));
      && (next.Ok? ==>
            !e.hadContent && |next.value.0| == |stack| && next.value.0[..|stack| - 1] == stack[..|stack| - 1])
      && (next.Ok? ==>
            var e' := next.value.0[|stack| - 1];
            e'.hadContent && e'.kind == e.kind && e'.attributes == e.attributes && Holds(env, e', text))
      && (!e.hadContent && Suits(env, e.kind, e.attributes, text) ==> next.Ok?)
      && (next.Ok? && e.kind != Limit ==> Suits(env, e.kind, e.attributes, text))
  {
    var e := stack[|stack| - 1];
    FindIsIn(e.attributes, "if_selinux_enabled");
    FindIsIn(e.attributes, "selinux_root_relative");
    hide Find;
  }

  lemma EndOfElement(env: Environment, stack: seq<Element>, kind: Kind)
    requires stack != [] && stack[|stack| - 1].kind !in VALUES
    ensures var next := EndElement(stack, kind);
      && (next.Ok? <==> kind == stack[|stack| - 1].kind)
      && (next.Ok? ==> next.value.0 == stack[..|stack| - 1])
  {
  }

  lemma EndOfValue(env: Environment, stack: seq<Element>, kind: Kind, text: string)
    requires stack != [] && stack[|stack| - 1].kind in VALUES && Holds(env, stack[|stack| - 1], text)
    requires stack[|stack| - 1].kind == Limit ==> OfBusConfig(env, Limit, stack[|stack| - 1].attributes)
    requires stack[|stack| - 1].kind != Limit ==>
      Suits(env, stack[|stack| - 1].kind, stack[|stack| - 1].attributes, text)
    ensures var (e, next) := (stack[|stack| - 1], EndElement(stack, kind));
      && (next.Ok? <==> e.hadContent && kind == e.kind && Suits(env, kind, e.attributes, text))
      && (next.Ok? ==> next.value.0 == stack[..|stack| - 1])
  {
    var e := stack[|stack| - 1];
    OneIsAllowed(e.attributes, "name");
    hide Find, Located;
  }

  // ---- trees are accepted -------------------------------------------------------------------------

  /** The body of an element that has just been opened. */
  predicate Fills(env: Environment, kind: Kind, attributes: Attributes, body: Body) {
    if kind in VALUES then body.Text? && body.rest == Empty && Suits(env, kind, attributes, body.text)
    else Proper(env, Some((kind, attributes)), body)
  }

  lemma NestOne(env: Environment, basedir: string, stack: seq<Element>, e: Event)
    requires Interpret(env, basedir, stack, e).Ok?
    ensures Nest(env, basedir, stack, [e]) == Some(Interpret(env, basedir, stack, e).value.0)
  {
    hide Interpret;
  }

  lemma ValuesAreUnrepeated(env: Environment, kind: Kind, attributes: Attributes)
    requires OfBusConfig(env, kind, attributes) && kind in VALUES
    ensures Unrepeated(attributes)
  {
  }

  lemma OnlyInBusConfig(env: Environment, parent: Option<(Kind, Attributes)>, kind: Kind, attributes: Attributes)
    requires Allowed(env, parent, kind, attributes) && kind in VALUES
    ensures OfBusConfig(env, kind, attributes) && Unrepeated(attributes)
  {
    ValuesAreUnrepeated(env, kind, attributes);
    hide OfBusConfig, Unrepeated;
  }

  lemma ReadsValue(env: Environment, basedir: string, stack: seq<Element>, kind: Kind, attributes: Attributes,
                   text: string)
    requires OfBusConfig(env, kind, attributes) && kind in VALUES && Suits(env, kind, attributes, text)
    ensures Nest(env, basedir, Push(stack, kind, attributes), [Content(text), End(kind)]) == Some(stack)
  {
    ValuesAreUnrepeated(env, kind, attributes);
    var pushed := Push(stack, kind, attributes);
    ContentOfValue(env, basedir, pushed, text);
    var marked := ElementContent(env, basedir, pushed, text).value.0;
    EndOfValue(env, marked, kind, text);
    hide ElementContent, EndElement, OfBusConfig, Suits, Unrepeated, Holds;
    assert marked[..|marked| - 1] == stack;
    NestOne(env, basedir, marked, End(kind));
    assert [Content(text), End(kind)][1..] == [End(kind)];
  }

  lemma {:induction false} ReadsBody(env: Environment, basedir: string, stack: seq<Element>, b: Body)
    requires Proper(env, Top(stack), b) && (stack == [] || Bare(stack[|stack| - 1]))
    ensures Nest(env, basedir, stack, Events(b)) == Some(stack)
    decreases b, 0
  {
    hide Allowed, StartElement, ElementContent, EndElement, Suits, Bare, AllWhitespace;
    match b
    case Empty =>
    case Text(text, rest) =>
      ContentOfBare(env, basedir, stack, text);
      NestOne(env, basedir, stack, Content(text));
      NestAppend(env, basedir, stack, [Content(text)], Events(rest));
      ReadsBody(env, basedir, stack, rest);
    case Child(kind, attributes, body, rest) =>
      ReadsElement(env, basedir, stack, kind, attributes, body);
      NestAppend(env, basedir, stack, [Start(kind, attributes)] + Events(body) + [End(kind)], Events(rest));
      ReadsBody(env, basedir, stack, rest);
  }

  lemma {:induction false} ReadsElement(env: Environment, basedir: string, stack: seq<Element>, kind: Kind,
                                        attributes: Attributes, body: Body)
    requires Allowed(env, Top(stack), kind, attributes) && (stack == [] || Bare(stack[|stack| - 1]))
    requires Fills(env, kind, attributes, body)
    ensures Nest(env, basedir, stack, [Start(kind, attributes)] + Events(body) + [End(kind)]) == Some(stack)
    decreases body, 1
  {
    var pushed := Push(stack, kind, attributes);
    hide Allowed, StartElement, EndElement, ElementContent, Suits, OfBusConfig;
    StartIsAllowed(env, stack, kind, attributes);
    NestOne(env, basedir, stack, Start(kind, attributes));
    NestAppend(env, basedir, stack, [Start(kind, attributes)], Events(body) + [End(kind)]);
    assert [Start(kind, attributes)] + (Events(body) + [End(kind)]) ==
      [Start(kind, attributes)] + Events(body) + [End(kind)];
    if kind in VALUES {
      OnlyInBusConfig(env, Top(stack), kind, attributes);
      ReadsValue(env, basedir, stack, kind, attributes, body.text);
      assert Events(body) + [End(kind)] == [Content(body.text), End(kind)];
    } else {
      ReadsBody(env, basedir, pushed, body);
      EndOfElement(env, pushed, kind);
      assert pushed[..|pushed| - 1] == stack;
      NestOne(env, basedir, pushed, End(kind));
      NestAppend(env, basedir, pushed, Events(body), [End(kind)]);
    }
  }

  // ---- what is accepted is a tree -----------------------------------------------------------------

  lemma NestStep(env: Environment, basedir: string, stack: seq<Element>, events: seq<Event>)
    requires events != [] && Nest(env, basedir, stack, events).Some?
    ensures var next := Interpret(env, basedir, stack, events[0]);
      next.Ok? && Nest(env, basedir, next.value.0, events[1..]) == Nest(env, basedir, stack, events)
  {
    hide Interpret;
  }

  /** A value is one text and its end. */
  lemma ParseValue(env: Environment, basedir: string, stack: seq<Element>, kind: Kind, attributes: Attributes,
                   events: seq<Event>) returns (body: Body, rest: seq<Event>)
    requires OfBusConfig(env, kind, attributes) && kind in VALUES
    requires Nest(env, basedir, Push(stack, kind, attributes), events) == Some([])
    ensures Fills(env, kind, attributes, body) && events == Events(body) + [End(kind)] + rest
    ensures Nest(env, basedir, stack, rest) == Some([])
  {
    hide OfBusConfig, Suits, Unrepeated, Holds;
    var pushed := Push(stack, kind, attributes);
    ValuesAreUnrepeated(env, kind, attributes);
    NestStep(env, basedir, pushed, events);
    assert events[0].Content? by {
      assert NeedsContent(kind);
    }
    var text := events[0].text;
    ContentOfValue(env, basedir, pushed, text);
    var marked := ElementContent(env, basedir, pushed, text).value.0;
    assert marked[..|marked| - 1] == stack;
    hide ElementContent;
    NestStep(env, basedir, marked, events[1..]);
    SecondIsEnd(env, basedir, marked, events[1]);
    EndOfValue(env, marked, events[1].kind, text);
    hide EndElement;
    body, rest := Text(text, Empty), events[2..];
    assert events == [events[0]] + [events[1]] + events[2..] && events[1..][1..] == events[2..];
    assert Events(body) == [Content(text)];
  }

  lemma SecondIsEnd(env: Environment, basedir: string, stack: seq<Element>, e: Event)
    requires stack != [] && stack[|stack| - 1].kind in VALUES && stack[|stack| - 1].hadContent
    requires Interpret(env, basedir, stack, e).Ok?
    ensures e.End?
  {
  }

  lemma NoText(env: Environment, parent: Option<(Kind, Attributes)>)
    ensures Proper(env, parent, Empty) && Events(Empty) == []
  {
  }

  lemma MoreText(env: Environment, parent: Option<(Kind, Attributes)>, text: string, b: Body)
    requires parent.Some? && AllWhitespace(text) && Proper(env, parent, b)
    ensures Proper(env, parent, Text(text, b)) && Events(Text(text, b)) == [Content(text)] + Events(b)
  {
  }

  lemma MoreChildren(env: Environment, parent: Option<(Kind, Attributes)>, kind: Kind, attributes: Attributes,
                     body: Body, b: Body)
    requires Allowed(env, parent, kind, attributes) && Fills(env, kind, attributes, body) && Proper(env, parent, b)
    ensures Proper(env, parent, Child(kind, attributes, body, b))
    ensures Events(Child(kind, attributes, body, b)) ==
      [Start(kind, attributes)] + (Events(body) + [End(kind)] + Events(b))
  {
    hide Allowed, Suits;
  }

  lemma {:induction false} ParseBody(env: Environment, basedir: string, stack: seq<Element>, events: seq<Event>)
    returns (b: Body, rest: seq<Event>)
    requires (stack == [] || Bare(stack[|stack| - 1])) && Nest(env, basedir, stack, events) == Some([])
    ensures Proper(env, Top(stack), b)
    ensures stack == [] ==> events == Events(b) && rest == []
    ensures stack != [] ==>
      events == Events(b) + [End(stack[|stack| - 1].kind)] + rest &&
      Nest(env, basedir, stack[..|stack| - 1], rest) == Some([])
    decreases |events|, 0
  {
    hide Interpret, Nest, Fills, Proper, Events, Allowed, Bare;
    if events == [] {
      NestNone(env, basedir, stack);
      b, rest := Empty, [];
      NoText(env, Top(stack));
    } else {
      NestStep(env, basedir, stack, events);
      FirstEvent(env, basedir, stack, events[0]);
      assert events == [events[0]] + events[1..];
      match events[0]
      case Content(text) =>
        var b', rest' := ParseBody(env, basedir, stack, events[1..]);
        b, rest := Text(text, b'), rest';
        MoreText(env, Top(stack), text, b');
      case End(kind) =>
        b, rest := Empty, events[1..];
        NoText(env, Top(stack));
      case Start(kind, attributes) =>
        var body, after := ParseElement(env, basedir, stack, kind, attributes, events[1..]);
        var b', rest' := ParseBody(env, basedir, stack, after);
        b, rest := Child(kind, attributes, body, b'), rest';
        MoreChildren(env, Top(stack), kind, attributes, body, b');
    }
  }

  lemma NestNone(env: Environment, basedir: string, stack: seq<Element>)
    ensures Nest(env, basedir, stack, []) == Some(stack)
  {
  }

  lemma FirstEvent(env: Environment, basedir: string, stack: seq<Element>, e: Event)
    requires (stack == [] || Bare(stack[|stack| - 1])) && Interpret(env, basedir, stack, e).Ok?
    ensures var stack' := Interpret(env, basedir, stack, e).value.0;
      match e
      case Start(kind, attributes) => Interpret(env, basedir, stack, e) == StartElement(env, stack, kind, attributes)
      case Content(text) => stack != [] && AllWhitespace(text) && stack' == stack
      case End(kind) => stack != [] && kind == stack[|stack| - 1].kind && stack' == stack[..|stack| - 1]
  {
    match e
    case Start(_, _) => hide StartElement, ElementContent, EndElement;
    case Content(text) =>
      if stack != [] {
        ContentOfBare(env, basedir, stack, text);
      }
    case End(kind) =>
      if stack != [] {
        EndOfElement(env, stack, kind);
      }
  }

  lemma {:induction false} ParseElement(env: Environment, basedir: string, stack: seq<Element>, kind: Kind,
                                        attributes: Attributes, events: seq<Event>)
    returns (body: Body, rest: seq<Event>)
    requires stack == [] || Bare(stack[|stack| - 1])
    requires StartElement(env, stack, kind, attributes).Ok?
    requires Nest(env, basedir, StartElement(env, stack, kind, attributes).value.0, events) == Some([])
    ensures Allowed(env, Top(stack), kind, attributes) && Fills(env, kind, attributes, body)
    ensures events == Events(body) + [End(kind)] + rest && Nest(env, basedir, stack, rest) == Some([])
    decreases |events|, 1
  {
    hide Nest, Events, Proper, Fills, Suits, Allowed, StartElement, OfBusConfig;
    StartIsAllowed(env, stack, kind, attributes);
    var pushed := Push(stack, kind, attributes);
    assert pushed[..|pushed| - 1] == stack;
    if kind in VALUES {
      OnlyInBusConfig(env, Top(stack), kind, attributes);
      body, rest := ParseValue(env, basedir, stack, kind, attributes, events);
    } else {
      body, rest := ParseBody(env, basedir, pushed, events);
      ProperFills(env, kind, attributes, body);
    }
  }

  lemma ProperFills(env: Environment, kind: Kind, attributes: Attributes, body: Body)
    requires kind !in VALUES && Proper(env, Some((kind, attributes)), body)
    ensures Fills(env, kind, attributes, body)
  {
  }

  /** The stack machine accepts exactly the events of a proper tree. */
  lemma AcceptedExactly(env: Environment, basedir: string, events: seq<Event>)
    ensures Nest(env, basedir, [], events) == Some([]) <==>
      exists b: Body :: Proper(env, None, b) && Events(b) == events
  {
    if Nest(env, basedir, [], events) == Some([]) {
      var b, rest := ParseBody(env, basedir, [], events);
    }
    forall b: Body | Proper(env, None, b) && Events(b) == events
      ensures Nest(env, basedir, [], events) == Some([])
    {
      ReadsBody(env, basedir, [], b);
    }
  }

  /** A document that is read without an error leaves the stack its own events leave. */
  lemma {:induction false} RunNests(env: Environment, basedir: string, stack: seq<Element>, s: Settings,
                                    included: seq<string>, events: seq<Event>)
    ensures var end := Run(env, basedir, stack, s, included, events);
      end.Ok? ==> Nest(env, basedir, stack, events) == Some(end.value.0)
    decreases |events|
  {
    hide Interpret, Perform;
    if events != [] && Interpret(env, basedir, stack, events[0]).Ok? {
      var next := Interpret(env, basedir, stack, events[0]).value;
      if Perform(env, s, next.1, included).Ok? {
        RunNests(env, basedir, next.0, Perform(env, s, next.1, included).value, included, events[1..]);
      }
    }
  }

  /** Whatever it includes, a file that loads is a proper tree. */
  lemma LoadedIsProper(env: Environment, path: string, limits: map<string, int>, included: seq<string>)
    requires path !in included && Load(env, path, limits, included).Ok?
    ensures path in env.files && env.files[path].Document? && env.files[path].wellFormed
    ensures exists b: Body :: Proper(env, None, b) && Events(b) == env.files[path].events
  {
    var doc := env.files[path].events;
    RunNests(env, env.dirname(path), [], Blank(limits), included + [path], doc);
    AcceptedExactly(env, env.dirname(path), doc);
    hide Run, Nest;
  }
}

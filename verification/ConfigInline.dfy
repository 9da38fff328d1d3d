/** Including a file means the same as writing its elements in its place.

    The reference knows no settings, no child parsers and no merging: reading a
    configuration gives one flat list of actions, where those of an included file
    stand in the place of the include, and a file that is given up contributes
    nothing.  Applying that list in order is what the daemon does, but for
    <syslog>, which an included file cannot switch on. */
module ConfigInline {
  import opened Collections
  import opened ConfigTheory

  // ---- the reference --------------------------------------------------------------------------

  /** An action, and the included files being read when it is taken, outermost first. */
  datatype Act = Act(within: seq<string>, action: Action)

  /** `listed` are the stacks of included files set up on the way, also those of
      files that are given up. */
  datatype Reading = Reading(stack: seq<Element>, acts: seq<Act>, listed: seq<seq<string>>, error: Option<Error>)

  const NOTHING := Reading([], [], [], None)

  function Read(env: Environment, basedir: string, stack: seq<Element>, included: seq<string>,
                events: seq<Event>): Reading
    decreases |Left(env, included)|, 5, |events|
  {
    if events == [] then NOTHING.(stack := stack)
    else
      match Interpret(env, basedir, stack, events[0])
      case Err(e) => NOTHING.(error := Some(e))
      case Ok(next) =>
        Then(ReadAction(env, next.1, included), Read(env, basedir, next.0, included, events[1..]))
  }

  /** One event's reading and that of the events after it, unless the first fails. */
  function Then(first: Reading, rest: Reading): Reading {
    if first.error.Some? then first
    else Reading(rest.stack, first.acts + rest.acts, first.listed + rest.listed, rest.error)
  }

  function ReadAction(env: Environment, a: Action, included: seq<string>): Reading
    decreases |Left(env, included)|, 4, 0
  {
    match a
    case ReadFile(path, ignoreMissing) => ReadIncluded(env, path, ignoreMissing, included)
    case ReadDirectory(path) => ReadListing(env, path, included)
    case _ => NOTHING.(acts := [Act(included, a)])
  }

  function ReadIncluded(env: Environment, path: string, ignoreMissing: bool, included: seq<string>): Reading
    decreases |Left(env, included)|, 1, 0
  {
    if path in included then NOTHING.(error := Some(Failed))
    else
      var r := ReadDocument(env, path, included);
      if r.error == Some(FileNotFound) && ignoreMissing then NOTHING.(listed := r.listed) else r
  }

  function ReadListing(env: Environment, path: string, included: seq<string>): Reading
    decreases |Left(env, included)|, 3, 0
  {
    if path !in env.directories then NOTHING
    else
      match env.directories[path]
      case Closed => NOTHING.(error := Some(Failed))
      case Listing(names, broken) =>
        var r := ReadAll(env, path, names, included);
        if broken then r.(error := Some(Failed)) else r.(acts := r.acts + [Act(included, AddConfDir(path))])
  }

  function ReadAll(env: Environment, dir: string, names: seq<string>, included: seq<string>): Reading
    decreases |Left(env, included)|, 2, |names|
  {
    if names == [] then NOTHING
    else
      var path := env.concatDirAndFile(dir, names[0]);
      var first := if IsConf(path) then ReadIncluded(env, path, true, included) else NOTHING;
      var rest := ReadAll(env, dir, names[1..], included);
      rest.(acts := (if first.error.None? then first.acts else []) + rest.acts, listed := first.listed + rest.listed)
  }

  function ReadDocument(env: Environment, path: string, included: seq<string>): Reading
    requires path !in included
    decreases |Left(env, included)|, 0, 0
  {
    var listed := [included + [path]];
    if path !in env.files then NOTHING.(listed := listed, error := Some(FileNotFound))
    else
      match env.files[path]
      case Unreadable => NOTHING.(listed := listed, error := Some(Failed))
      case Document(events, wellFormed) =>
        LeftShrinks(env, included, path);
        var r := Read(env, env.dirname(path), [], included + [path], events);
        r.(listed := listed + r.listed,
           error := if r.error.Some? then r.error else if !wellFormed || r.stack != [] then Some(Failed) else None)
  }

  /** What the configuration of a bus says, if its file can be read at all. */
  function ReadTop(env: Environment, path: string): Reading {
    if path !in env.files then NOTHING.(error := Some(FileNotFound))
    else
      match env.files[path]
      case Unreadable => NOTHING.(error := Some(Failed))
      case Document(events, wellFormed) =>
        var r := Read(env, env.dirname(path), [], [], events);
        r.(error := if r.error.Some? then r.error else if !wellFormed then Some(Failed) else None)
  }

  /** The actions, one after the other. */
  function Effects(s: Settings, acts: seq<Act>): Settings {
    if acts == [] then s else Applied(Effects(s, acts[..|acts| - 1]), acts[|acts| - 1].action)
  }

  /** The configuration with everything written in one file. */
  function InlineTop(env: Environment, path: string): Result<Settings, Error> {
    var r := ReadTop(env, path);
    if r.error.Some? then Err(r.error.value) else Finished(r.stack, Effects(Blank(DefaultLimits()), r.acts), true)
  }

  // ---- absorbing ------------------------------------------------------------------------------

  lemma {:induction false} AppendAllMembers(dirs: seq<string>, more: seq<string>)
    ensures forall d :: d in AppendAllUnique(dirs, more) <==> d in dirs || d in more
    ensures NoDuplicates(dirs) ==> NoDuplicates(AppendAllUnique(dirs, more))
  {
    if more != [] {
      AppendAllMembers(dirs, more[..|more| - 1]);
      assert more == more[..|more| - 1] + [more[|more| - 1]];
    }
  }

  lemma {:induction false} AppendAllAssociative(a: seq<string>, b: seq<string>, c: seq<string>)
    ensures AppendAllUnique(AppendAllUnique(a, b), c) == AppendAllUnique(a, AppendAllUnique(b, c))
  {
    if c != [] {
      var front, last := c[..|c| - 1], c[|c| - 1];
      AppendAllAssociative(a, b, front);
      AppendAllMembers(a, AppendAllUnique(b, front));
      var right := AppendAllUnique(b, front);
      if last !in right {
        assert (right + [last])[..|right|] == right;
      }
    }
  }

  lemma AbsorbBlank(s: Settings)
    ensures Absorb(s, Blank(s.limits)) == s
  {
    assert s.serviceContexts + map[] == s.serviceContexts;
  }

  lemma AbsorbAssociative(a: Settings, b: Settings, c: Settings)
    ensures Absorb(Absorb(a, b), c) == Absorb(a, Absorb(b, c))
  {
    ListsAssociative(a, b, c);
    EitherAssociative(a, b, c);
    hide AppendAllUnique, Either;
  }

  lemma EitherAssociative(a: Settings, b: Settings, c: Settings)
    ensures Either(c.user, Either(b.user, a.user)) == Either(Either(c.user, b.user), a.user)
    ensures Either(c.busType, Either(b.busType, a.busType)) == Either(Either(c.busType, b.busType), a.busType)
    ensures Either(c.pidfile, Either(b.pidfile, a.pidfile)) == Either(Either(c.pidfile, b.pidfile), a.pidfile)
    ensures Either(c.serviceHelper, Either(b.serviceHelper, a.serviceHelper)) ==
            Either(Either(c.serviceHelper, b.serviceHelper), a.serviceHelper)
  {
  }

  lemma ListsAssociative(a: Settings, b: Settings, c: Settings)
    ensures AppendAllUnique(AppendAllUnique(a.serviceDirs, b.serviceDirs), c.serviceDirs) ==
            AppendAllUnique(a.serviceDirs, AppendAllUnique(b.serviceDirs, c.serviceDirs))
    ensures a.listenOn + b.listenOn + c.listenOn == a.listenOn + (b.listenOn + c.listenOn)
    ensures a.mechanisms + b.mechanisms + c.mechanisms == a.mechanisms + (b.mechanisms + c.mechanisms)
    ensures a.confDirs + b.confDirs + c.confDirs == a.confDirs + (b.confDirs + c.confDirs)
    ensures a.serviceContexts + b.serviceContexts + c.serviceContexts ==
            a.serviceContexts + (b.serviceContexts + c.serviceContexts)
  {
    AppendAllAssociative(a.serviceDirs, b.serviceDirs, c.serviceDirs);
    hide AppendAllUnique;
  }

  predicate Appends(a: Action) {
    a.AddListen? || a.AddMechanism? || a.AddServiceDirs? || a.AddConfDir? || a.AddContext?
  }

  /** The lists of a child and a parent with one more element. */
  lemma ListsGrow(s: Settings, child: Settings, value: string)
    ensures s.listenOn + child.listenOn + [value] == s.listenOn + (child.listenOn + [value])
    ensures s.mechanisms + child.mechanisms + [value] == s.mechanisms + (child.mechanisms + [value])
    ensures s.confDirs + child.confDirs + [value] == s.confDirs + (child.confDirs + [value])
  {
  }

  lemma ContextsGrow(s: Settings, child: Settings, own: string, context: string)
    ensures (s.serviceContexts + child.serviceContexts)[own := context] ==
            s.serviceContexts + child.serviceContexts[own := context]
  {
  }

  lemma AppendedInPlace(s: Settings, child: Settings, a: Action)
    requires Appends(a)
    ensures Absorb(s, Applied(child, a)) == Applied(Absorb(s, child), a)
  {
    if a.AddServiceDirs? {
      AppendAllAssociative(s.serviceDirs, child.serviceDirs, a.dirs);
    } else if a.AddContext? {
      ContextsGrow(s, child, a.own, a.context);
    } else {
      ListedInPlace(s, child, a);
    }
    hide AppendAllUnique, Either;
  }

  lemma ListedInPlace(s: Settings, child: Settings, a: Action)
    requires a.AddListen? || a.AddMechanism? || a.AddConfDir?
    ensures Absorb(s, Applied(child, a)) == Applied(Absorb(s, child), a)
  {
    hide AppendAllUnique, Either;
    match a
    case AddListen(v) => ListsGrow(s, child, v);
    case AddMechanism(v) => ListsGrow(s, child, v);
    case AddConfDir(path) => ListsGrow(s, child, path);
  }

  lemma SetInPlace(s: Settings, child: Settings, a: Action)
    requires !Appends(a)
    ensures Absorb(s, Applied(child, a)) == if a.SetSyslog? then Absorb(s, child) else Applied(Absorb(s, child), a)
  {
    hide AppendAllUnique;
  }

  /** What an element does to the child and then to the parent, it may as well do
      to the parent at once. */
  lemma AppliedInPlace(s: Settings, child: Settings, a: Action)
    ensures Absorb(s, Applied(child, a)) == if a.SetSyslog? then Absorb(s, child) else Applied(Absorb(s, child), a)
  {
    if Appends(a) {
      AppendedInPlace(s, child, a);
    } else {
      SetInPlace(s, child, a);
    }
    hide Absorb, Applied;
  }

  /** The effects in a file `depth` includes deep, where <syslog> counts only if it
      stands in that file itself. */
  function Coded(s: Settings, acts: seq<Act>, depth: nat): Settings {
    if acts == [] then s
    else
      var before, last := Coded(s, acts[..|acts| - 1], depth), acts[|acts| - 1];
      if last.action.SetSyslog? && |last.within| > depth then before else Applied(before, last.action)
  }

  lemma {:induction false} CodedAppend(s: Settings, a: seq<Act>, b: seq<Act>, depth: nat)
    ensures Coded(s, a + b, depth) == Coded(Coded(s, a, depth), b, depth)
  {
    if b == [] {
      assert a + b == a;
    } else {
      assert (a + b)[..|a + b| - 1] == a + b[..|b| - 1];
      CodedAppend(s, a, b[..|b| - 1], depth);
    }
  }

  predicate Below(acts: seq<Act>, depth: nat) {
    forall i :: 0 <= i < |acts| ==> |acts[i].within| >= depth
  }

  /** Actions taken on a child that is then absorbed are taken on the parent. */
  lemma {:induction false} AbsorbCoded(s: Settings, child: Settings, acts: seq<Act>, depth: nat)
    requires Below(acts, depth + 1)
    ensures Absorb(s, Coded(child, acts, depth + 1)) == Coded(Absorb(s, child), acts, depth)
  {
    hide Absorb, Applied;
    if acts != [] {
      AbsorbCoded(s, child, acts[..|acts| - 1], depth);
      AppliedInPlace(s, Coded(child, acts[..|acts| - 1], depth + 1), acts[|acts| - 1].action);
    }
  }

  // ---- the code reads as the reference does ---------------------------------------------------

  /** Nothing is read above the file it is included from. */
  lemma {:induction false} ReadIsBelow(env: Environment, basedir: string, stack: seq<Element>,
                                       included: seq<string>, events: seq<Event>)
    ensures Below(Read(env, basedir, stack, included, events).acts, |included|)
    decreases |Left(env, included)|, 5, |events|
  {
    hide Interpret;
    if events != [] {
      var next := Interpret(env, basedir, stack, events[0]);
      if next.Ok? {
        ActionIsBelow(env, next.value.1, included);
        ReadIsBelow(env, basedir, next.value.0, included, events[1..]);
      }
    }
  }

  lemma {:induction false} ActionIsBelow(env: Environment, a: Action, included: seq<string>)
    ensures Below(ReadAction(env, a, included).acts, |included|)
    decreases |Left(env, included)|, 4, 0
  {
    match a
    case ReadFile(path, ignoreMissing) => IncludedIsBelow(env, path, ignoreMissing, included);
    case ReadDirectory(path) =>
      if path in env.directories && env.directories[path].Listing? {
        AllIsBelow(env, path, env.directories[path].names, included);
      }
    case _ =>
  }

  lemma {:induction false} IncludedIsBelow(env: Environment, path: string, ignoreMissing: bool, included: seq<string>)
    ensures Below(ReadIncluded(env, path, ignoreMissing, included).acts, |included| + 1)
    decreases |Left(env, included)|, 1, 0
  {
    if path !in included && path in env.files && env.files[path].Document? {
      LeftShrinks(env, included, path);
      ReadIsBelow(env, env.dirname(path), [], included + [path], env.files[path].events);
    }
  }

  lemma {:induction false} AllIsBelow(env: Environment, dir: string, names: seq<string>, included: seq<string>)
    ensures Below(ReadAll(env, dir, names, included).acts, |included| + 1)
    decreases |Left(env, included)|, 2, |names|
  {
    if names != [] {
      IncludedIsBelow(env, env.concatDirAndFile(dir, names[0]), true, included);
      AllIsBelow(env, dir, names[1..], included);
    }
  }

  function CodedEnd(r: Reading, s: Settings, depth: nat): Result<(seq<Element>, Settings), Error> {
    if r.error.Some? then Err(r.error.value) else Ok((r.stack, Coded(s, r.acts, depth)))
  }

  function CodedResult(r: Reading, s: Settings, depth: nat): Result<Settings, Error> {
    if r.error.Some? then Err(r.error.value) else Ok(Coded(s, r.acts, depth))
  }

  /** A document is read as the actions say. */
  lemma {:induction false} RunIsRead(env: Environment, basedir: string, stack: seq<Element>, s: Settings,
                                     included: seq<string>, events: seq<Event>)
    ensures Run(env, basedir, stack, s, included, events) ==
            CodedEnd(Read(env, basedir, stack, included, events), s, |included|)
    decreases |Left(env, included)|, 5, |events|
  {
    hide Interpret, Applied;
    if events != [] {
      var next := Interpret(env, basedir, stack, events[0]);
      if next.Ok? {
        PerformIsRead(env, s, next.value.1, included);
        var first := ReadAction(env, next.value.1, included);
        if first.error.None? {
          var s' := Coded(s, first.acts, |included|);
          RunIsRead(env, basedir, next.value.0, s', included, events[1..]);
          CodedAppend(s, first.acts, Read(env, basedir, next.value.0, included, events[1..]).acts, |included|);
        }
      }
    }
  }

  lemma {:induction false} PerformIsRead(env: Environment, s: Settings, a: Action, included: seq<string>)
    ensures Perform(env, s, a, included) == CodedResult(ReadAction(env, a, included), s, |included|)
    decreases |Left(env, included)|, 4, 0
  {
    hide Applied;
    match a
    case ReadFile(path, ignoreMissing) => IncludeIsRead(env, s, path, ignoreMissing, included);
    case ReadDirectory(path) =>
      if path in env.directories && env.directories[path].Listing? {
        var names := env.directories[path].names;
        AllIsRead(env, s, path, names, included);
        CodedAppend(s, ReadAll(env, path, names, included).acts, [Act(included, AddConfDir(path))], |included|);
        CodedOne(IncludeAll(env, s, path, names, included), Act(included, AddConfDir(path)), |included|);
      }
    case _ => CodedOne(s, Act(included, a), |included|);
  }

  lemma CodedOne(s: Settings, act: Act, depth: nat)
    ensures Coded(s, [act], depth) ==
      if act.action.SetSyslog? && |act.within| > depth then s else Applied(s, act.action)
  {
    assert [act][..0] == [];
    hide Applied;
  }

  lemma {:induction false} IncludeIsRead(env: Environment, s: Settings, path: string, ignoreMissing: bool,
                                         included: seq<string>)
    ensures IncludeFile(env, s, path, ignoreMissing, included) ==
            CodedResult(ReadIncluded(env, path, ignoreMissing, included), s, |included|)
    decreases |Left(env, included)|, 1, 0
  {
    if path !in included {
      LoadInPlace(env, path, s, included);
    }
  }

  lemma {:induction false} AllIsRead(env: Environment, s: Settings, dir: string, names: seq<string>,
                                     included: seq<string>)
    ensures IncludeAll(env, s, dir, names, included) == Coded(s, ReadAll(env, dir, names, included).acts, |included|)
    ensures ReadAll(env, dir, names, included).error == None
    decreases |Left(env, included)|, 2, |names|
  {
    if names != [] {
      var path := env.concatDirAndFile(dir, names[0]);
      IncludeIsRead(env, s, path, true, included);
      var first := if IsConf(path) then ReadIncluded(env, path, true, included) else NOTHING;
      var acts := if first.error.None? then first.acts else [];
      AllIsRead(env, Coded(s, acts, |included|), dir, names[1..], included);
      CodedAppend(s, acts, ReadAll(env, dir, names[1..], included).acts, |included|);
    }
  }

  /** A file loaded by a parser of its own and absorbed, or its actions in its place. */
  lemma {:induction false} LoadInPlace(env: Environment, path: string, s: Settings, included: seq<string>)
    requires path !in included
    ensures var child := Load(env, path, s.limits, included);
      CodedResult(ReadDocument(env, path, included), s, |included|) ==
        match child case Ok(value) => Ok(Absorb(s, value)) case Err(e) => Err(e)
    decreases |Left(env, included)|, 0, 0
  {
    if path in env.files && env.files[path].Document? {
      var events := env.files[path].events;
      LeftShrinks(env, included, path);
      RunIsRead(env, env.dirname(path), [], Blank(s.limits), included + [path], events);
      ReadIsBelow(env, env.dirname(path), [], included + [path], events);
      var r := Read(env, env.dirname(path), [], included + [path], events);
      AbsorbCoded(s, Blank(s.limits), r.acts, |included|);
      AbsorbBlank(s);
    }
    hide Absorb;
  }

  // ---- and so it means the same, up to syslog ----------------------------------------------------

  /** Some file read, at most `depth` includes deep, switches syslog on. */
  predicate Switches(acts: seq<Act>, depth: nat) {
    exists i :: 0 <= i < |acts| && acts[i].action.SetSyslog? && |acts[i].within| <= depth
  }

  predicate SwitchesAnywhere(acts: seq<Act>) {
    exists i :: 0 <= i < |acts| && acts[i].action.SetSyslog?
  }

  lemma {:induction false} CodedIsEffects(s: Settings, acts: seq<Act>, depth: nat)
    ensures Coded(s, acts, depth) == Effects(s, acts).(syslog := s.syslog || Switches(acts, depth))
    ensures Effects(s, acts).syslog <==> s.syslog || SwitchesAnywhere(acts)
  {
    if acts == [] {
      NothingSwitches(depth);
    } else {
      var front, last := acts[..|acts| - 1], acts[|acts| - 1];
      CodedIsEffects(s, front, depth);
      SyslogApart(Effects(s, front), s.syslog || Switches(front, depth), last.action);
      SyslogSwitched(Effects(s, front), last.action);
      SwitchesSnoc(front, last, depth);
      assert acts == front + [last];
      hide Applied, Switches, SwitchesAnywhere;
    }
  }

  lemma NothingSwitches(depth: nat)
    ensures !Switches([], depth) && !SwitchesAnywhere([])
  {
  }

  /** Only one action writes the syslog switch, and none reads it. */
  lemma SyslogApart(s: Settings, syslog: bool, a: Action)
    ensures Applied(s.(syslog := syslog), a) == Applied(s, a).(syslog := syslog || a.SetSyslog?)
  {
    if a.AddListen? || a.AddMechanism? || a.AddConfDir? {
      SyslogApartListed(s, syslog, a);
    } else if Appends(a) {
      SyslogApartAppended(s, syslog, a);
    } else {
      SyslogApartSet(s, syslog, a);
    }
    hide Applied;
  }

  lemma SyslogApartListed(s: Settings, syslog: bool, a: Action)
    requires a.AddListen? || a.AddMechanism? || a.AddConfDir?
    ensures Applied(s.(syslog := syslog), a) == Applied(s, a).(syslog := syslog)
  {
  }

  lemma SyslogApartAppended(s: Settings, syslog: bool, a: Action)
    requires a.AddServiceDirs? || a.AddContext?
    ensures Applied(s.(syslog := syslog), a) == Applied(s, a).(syslog := syslog)
  {
    hide AppendAllUnique;
  }

  lemma SyslogApartSet(s: Settings, syslog: bool, a: Action)
    requires !Appends(a)
    ensures Applied(s.(syslog := syslog), a) == Applied(s, a).(syslog := syslog || a.SetSyslog?)
  {
  }

  lemma SyslogSwitched(s: Settings, a: Action)
    ensures Applied(s, a).syslog == (s.syslog || a.SetSyslog?)
  {
  }

  lemma SwitchesSnoc(front: seq<Act>, last: Act, depth: nat)
    ensures Switches(front + [last], depth) <==>
      Switches(front, depth) || (last.action.SetSyslog? && |last.within| <= depth)
    ensures SwitchesAnywhere(front + [last]) <==> SwitchesAnywhere(front) || last.action.SetSyslog?
  {
    var acts := front + [last];
    assert forall i :: 0 <= i < |front| ==> acts[i] == front[i];
    assert acts[|front|] == last;
  }

  /** include_file: the settings are those of the actions in place, with syslog as
      it was before; errors are the same. */
  lemma IncludeIsInline(env: Environment, s: Settings, path: string, ignoreMissing: bool, included: seq<string>)
    ensures var r := ReadIncluded(env, path, ignoreMissing, included);
      IncludeFile(env, s, path, ignoreMissing, included) ==
        if r.error.Some? then Err(r.error.value) else Ok(Effects(s, r.acts).(syslog := s.syslog))
  {
    IncludeIsRead(env, s, path, ignoreMissing, included);
    IncludedIsBelow(env, path, ignoreMissing, included);
    CodedIsEffects(s, ReadIncluded(env, path, ignoreMissing, included).acts, |included|);
  }

  /** An include loses something exactly when the file can be read and it, or a
      file below it, switches on the syslog that was off. */
  lemma IncludeIsExactlyInline(env: Environment, s: Settings, path: string, ignoreMissing: bool, included: seq<string>)
    ensures var r := ReadIncluded(env, path, ignoreMissing, included);
      IncludeFile(env, s, path, ignoreMissing, included) ==
        (if r.error.Some? then Err(r.error.value) else Ok(Effects(s, r.acts)))
      <==> r.error.Some? || s.syslog || !SwitchesAnywhere(r.acts)
  {
    IncludeIsInline(env, s, path, ignoreMissing, included);
    CodedIsEffects(s, ReadIncluded(env, path, ignoreMissing, included).acts, |included|);
  }

  /** The whole configuration of a bus, however its files include each other: the
      same error, or the same settings, where syslog is on exactly if the
      top-level file itself says so. */
  lemma ConfigurationIsInline(env: Environment, path: string)
    ensures LoadTop(env, path) ==
      match InlineTop(env, path)
      case Err(e) => Err(e)
      case Ok(s) => Ok(s.(syslog := Switches(ReadTop(env, path).acts, 0)))
  {
    if path in env.files && env.files[path].Document? {
      var r := ReadTop(env, path);
      RunIsRead(env, env.dirname(path), [], Blank(DefaultLimits()), [], env.files[path].events);
      CodedIsEffects(Blank(DefaultLimits()), r.acts, 0);
      hide Coded, Effects, Run, Read;
    }
  }

  /** It is what inlining gives in every respect if and only if no included file
      switches on a syslog the top-level file leaves off. */
  lemma ConfigurationIsExactlyInline(env: Environment, path: string)
    ensures LoadTop(env, path) == InlineTop(env, path) <==>
      InlineTop(env, path).Err? || Switches(ReadTop(env, path).acts, 0) || !SwitchesAnywhere(ReadTop(env, path).acts)
  {
    ConfigurationIsInline(env, path);
    CodedIsEffects(Blank(DefaultLimits()), ReadTop(env, path).acts, 0);
    hide LoadTop, Effects, ReadTop, Coded;
  }

  /** Service directories never repeat, whatever is read. */
  lemma {:induction false} ServiceDirsStayUnique(env: Environment, basedir: string, stack: seq<Element>,
      s: Settings, included: seq<string>, events: seq<Event>)
    requires NoDuplicates(s.serviceDirs)
    ensures var r := Run(env, basedir, stack, s, included, events); r.Ok? ==> NoDuplicates(r.value.1.serviceDirs)
    decreases |events|
  {
    hide Interpret;
    if events != [] {
      var next := Interpret(env, basedir, stack, events[0]);
      if next.Ok? {
        ActionKeepsUnique(env, s, next.value.1, included);
        var s' := Perform(env, s, next.value.1, included);
        if s'.Ok? {
          ServiceDirsStayUnique(env, basedir, next.value.0, s'.value, included, events[1..]);
        }
      }
    }
  }

  lemma ActionKeepsUnique(env: Environment, s: Settings, a: Action, included: seq<string>)
    requires NoDuplicates(s.serviceDirs)
    ensures var r := Perform(env, s, a, included); r.Ok? ==> NoDuplicates(r.value.serviceDirs)
  {
    match a
    case ReadFile(path, ignoreMissing) => FileKeepsUnique(env, s, path, ignoreMissing, included);
    case ReadDirectory(path) =>
      if path in env.directories && env.directories[path].Listing? {
        AllKeepUnique(env, s, path, env.directories[path].names, included);
      }
    case _ => AppliedKeepsUnique(s, a);
    hide Applied;
  }

  lemma AppliedKeepsUnique(s: Settings, a: Action)
    requires NoDuplicates(s.serviceDirs)
    ensures NoDuplicates(Applied(s, a).serviceDirs)
  {
    if a.AddServiceDirs? {
      AppendAllMembers(s.serviceDirs, a.dirs);
    }
    hide NoDuplicates, AppendAllUnique;
  }

  lemma FileKeepsUnique(env: Environment, s: Settings, path: string, ignoreMissing: bool, included: seq<string>)
    requires NoDuplicates(s.serviceDirs)
    ensures var r := IncludeFile(env, s, path, ignoreMissing, included); r.Ok? ==> NoDuplicates(r.value.serviceDirs)
  {
    if path !in included {
      var child := Load(env, path, s.limits, included);
      if child.Ok? {
        AppendAllMembers(s.serviceDirs, child.value.serviceDirs);
      }
    }
  }

  lemma {:induction false} AllKeepUnique(env: Environment, s: Settings, dir: string, names: seq<string>,
                                         included: seq<string>)
    requires NoDuplicates(s.serviceDirs)
    ensures NoDuplicates(IncludeAll(env, s, dir, names, included).serviceDirs)
    decreases |names|
  {
    if names != [] {
      var path := env.concatDirAndFile(dir, names[0]);
      FileKeepsUnique(env, s, path, true, included);
      var next := if IsConf(path) then IncludeFile(env, s, path, true, included) else Ok(s);
      AllKeepUnique(env, if next.Ok? then next.value else s, dir, names[1..], included);
    }
  }

  // ---- reading a document event by event -----------------------------------------------------

  const ROOT := Element(BusConfig, false, [], 0)

  lemma ReadNext(env: Environment, base: string, stack: seq<Element>, included: seq<string>,
                 e: Event, rest: seq<Event>, next: seq<Element>, a: Action)
    requires Interpret(env, base, stack, e) == Ok((next, a))
    ensures Read(env, base, stack, included, [e] + rest) ==
      Then(ReadAction(env, a, included), Read(env, base, next, included, rest))
  {
    assert ([e] + rest)[1..] == rest;
    hide Interpret, Then;
  }

  /** The root element around one more element that is opened and closed. */
  lemma RootOpens(env: Environment, base: string)
    ensures Interpret(env, base, [], Start(BusConfig, [])) == Ok(([ROOT], Nothing))
    ensures Interpret(env, base, [ROOT], End(BusConfig)) == Ok(([], Nothing))
  {
    assert [] + [ROOT] == [ROOT] && [ROOT][..0] == [];
  }

  lemma SyslogOpens(env: Environment, base: string)
    ensures var e := Element(Syslog, false, [], 0);
      && Interpret(env, base, [ROOT], Start(Syslog, [])) == Ok(([ROOT, e], SetSyslog))
      && Interpret(env, base, [ROOT, e], End(Syslog)) == Ok(([ROOT], Nothing))
  {
    var e := Element(Syslog, false, [], 0);
    assert [ROOT] + [e] == [ROOT, e] && [ROOT, e][..1] == [ROOT];
  }

  lemma DirectoryOpens(env: Environment, base: string)
    ensures var e, full := Element(IncludeDir, false, [], 0), Element(IncludeDir, true, [], 0);
      && Interpret(env, base, [ROOT], Start(IncludeDir, [])) == Ok(([ROOT, e], Nothing))
      && Interpret(env, base, [ROOT, e], Content("/d")) == Ok(([ROOT, full], ReadDirectory("/d")))
      && Interpret(env, base, [ROOT, full], End(IncludeDir)) == Ok(([ROOT], Nothing))
  {
    var e, full := Element(IncludeDir, false, [], 0), Element(IncludeDir, true, [], 0);
    assert [ROOT] + [e] == [ROOT, e] && [ROOT, e][..1] == [ROOT] && [ROOT, full][..1] == [ROOT];
    assert [ROOT] + [full] == [ROOT, full] && "/d"[0] == '/';
  }

  const SYSLOG_EVENTS := [Start(BusConfig, []), Start(Syslog, []), End(Syslog), End(BusConfig)]

  lemma ReadSyslog(env: Environment, base: string, included: seq<string>)
    ensures var nothing := Act(included, Nothing);
      Read(env, base, [], included, SYSLOG_EVENTS) ==
        Reading([], [nothing, Act(included, SetSyslog), nothing, nothing], [], None)
  {
    var e := Element(Syslog, false, [], 0);
    RootOpens(env, base);
    SyslogOpens(env, base);
    hide Interpret, Read;
    assert SYSLOG_EVENTS == [Start(BusConfig, [])] + ([Start(Syslog, [])] + ([End(Syslog)] + ([End(BusConfig)] + [])));
    ReadNext(env, base, [], included, Start(BusConfig, []),
      [Start(Syslog, [])] + ([End(Syslog)] + ([End(BusConfig)] + [])), [ROOT], Nothing);
    ReadNext(env, base, [ROOT], included, Start(Syslog, []),
      [End(Syslog)] + ([End(BusConfig)] + []), [ROOT, e], SetSyslog);
    ReadNext(env, base, [ROOT, e], included, End(Syslog), [End(BusConfig)] + [], [ROOT], Nothing);
    ReadNext(env, base, [ROOT], included, End(BusConfig), [], [], Nothing);
    ReadNothing(env, base, included);
  }

  lemma ReadNothing(env: Environment, base: string, included: seq<string>)
    ensures Read(env, base, [], included, []) == NOTHING
  {
  }

  lemma EffectsOfSyslog(s: Settings, path: string)
    ensures var nothing := Act([path], Nothing);
      Effects(s, [nothing, Act([path], SetSyslog), nothing, nothing]) == s.(syslog := true)
  {
    var nothing := Act([path], Nothing);
    var acts := [nothing, Act([path], SetSyslog), nothing, nothing];
    assert acts[..3][..2] == acts[..2] && acts[..2][..1] == acts[..1] && acts[..1][..0] == [];
    assert Effects(s, acts[..1]) == s && Effects(s, acts[..2]) == s.(syslog := true);
    assert Effects(s, acts[..3]) == s.(syslog := true);
  }

  /** An included <syslog> is lost: a file with nothing else in it. */
  lemma SyslogIsNotMerged(env: Environment, s: Settings, path: string)
    requires path in env.files && env.files[path] == Document(SYSLOG_EVENTS, true) && !s.syslog
    ensures IncludeFile(env, s, path, false, []) == Ok(s)
    ensures ReadIncluded(env, path, false, []).error == None
    ensures Effects(s, ReadIncluded(env, path, false, []).acts) == s.(syslog := true)
  {
    assert [] + [path] == [path];
    ReadSyslog(env, env.dirname(path), [path]);
    EffectsOfSyslog(s, path);
    IncludeIsInline(env, s, path, false, []);
    hide Read, IncludeFile, Effects;
  }

  // ---- files being read at one time ------------------------------------------------------------

  /** A list of included files as the code sets it up: different paths, all of them
      files but possibly the last, which is listed before it is looked for. */
  ghost predicate WellListed(env: Environment, included: seq<string>) {
    && included != [] && NoDuplicates(included)
    && forall i :: 0 <= i < |included| - 1 ==> included[i] in env.files
  }

  ghost predicate AllWellListed(env: Environment, listed: seq<seq<string>>) {
    forall i :: 0 <= i < |listed| ==> WellListed(env, listed[i])
  }

  lemma OneMoreListed(env: Environment, included: seq<string>, path: string)
    requires Distinct(env, included) && path !in included
    ensures WellListed(env, included + [path])
    ensures path in env.files ==> Distinct(env, included + [path])
  {
  }

  lemma {:induction false} ReadListsWell(env: Environment, basedir: string, stack: seq<Element>,
                                         included: seq<string>, events: seq<Event>)
    requires Distinct(env, included)
    ensures AllWellListed(env, Read(env, basedir, stack, included, events).listed)
    decreases |Left(env, included)|, 5, |events|
  {
    hide Interpret, Distinct, WellListed;
    if events != [] {
      var next := Interpret(env, basedir, stack, events[0]);
      if next.Ok? {
        ActionListsWell(env, next.value.1, included);
        ReadListsWell(env, basedir, next.value.0, included, events[1..]);
      }
    }
  }

  lemma {:induction false} ActionListsWell(env: Environment, a: Action, included: seq<string>)
    requires Distinct(env, included)
    ensures AllWellListed(env, ReadAction(env, a, included).listed)
    decreases |Left(env, included)|, 4, 0
  {
    hide Distinct, WellListed;
    match a
    case ReadFile(path, ignoreMissing) => IncludedListsWell(env, path, ignoreMissing, included);
    case ReadDirectory(path) =>
      if path in env.directories && env.directories[path].Listing? {
        AllListWell(env, path, env.directories[path].names, included);
      }
    case _ =>
  }

  lemma {:induction false} IncludedListsWell(env: Environment, path: string, ignoreMissing: bool, included: seq<string>)
    requires Distinct(env, included)
    ensures AllWellListed(env, ReadIncluded(env, path, ignoreMissing, included).listed)
    decreases |Left(env, included)|, 1, 0
  {
    hide Distinct, WellListed;
    if path !in included {
      OneMoreListed(env, included, path);
      if path in env.files && env.files[path].Document? {
        LeftShrinks(env, included, path);
        ReadListsWell(env, env.dirname(path), [], included + [path], env.files[path].events);
      }
    }
  }

  lemma {:induction false} AllListWell(env: Environment, dir: string, names: seq<string>, included: seq<string>)
    requires Distinct(env, included)
    ensures AllWellListed(env, ReadAll(env, dir, names, included).listed)
    decreases |Left(env, included)|, 2, |names|
  {
    hide Distinct, WellListed;
    if names != [] {
      IncludedListsWell(env, env.concatDirAndFile(dir, names[0]), true, included);
      AllListWell(env, dir, names[1..], included);
    }
  }

  lemma {:induction false} LeftCounts(env: Environment, included: seq<string>)
    requires Distinct(env, included)
    ensures |included| + |Left(env, included)| == |env.files|
  {
    if included == [] {
      assert Left(env, []) == env.files.Keys;
    } else {
      var front, last := included[..|included| - 1], included[|included| - 1];
      LeftCounts(env, front);
      assert front + [last] == included && last !in front;
      assert Left(env, front) == Left(env, included) + {last};
    }
  }

  /** However the files of a configuration include each other: a path is never
      listed while it is listed already, and counting the top-level file, which
      is not listed, at most one file more is being read at a time than there are. */
  lemma NestingIsBounded(env: Environment, path: string, i: nat)
    requires i < |ReadTop(env, path).listed|
    ensures var included := ReadTop(env, path).listed[i];
      && included != [] && NoDuplicates(included) && |included| <= |env.files| + 1
      && (included[|included| - 1] in env.files ==> 1 + |included| <= |env.files| + 1)
  {
    assert Distinct(env, []);
    if path in env.files && env.files[path].Document? {
      ReadListsWell(env, env.dirname(path), [], [], env.files[path].events);
    }
    var included := ReadTop(env, path).listed[i];
    assert WellListed(env, included);
    var front, last := included[..|included| - 1], included[|included| - 1];
    LeftCounts(env, front);
    if last in env.files {
      LeftCounts(env, included);
    }
  }

  // ---- a file that includes itself ---------------------------------------------------------------

  /** A top-level file that includes the directory it is in. */
  const SELF := "/d/a.conf"
  const SELF_EVENTS := [Start(BusConfig, []), Start(IncludeDir, []), Content("/d"), End(IncludeDir), End(BusConfig)]

  predicate IncludesItself(env: Environment) {
    && env.files == map[SELF := Document(SELF_EVENTS, true)]
    && env.directories == map["/d" := Listing(["a.conf"], false)]
    && env.concatDirAndFile("/d", "a.conf") == SELF
  }

  function SelfEnvironment(): Environment {
    Environment(map[SELF := Document(SELF_EVENTS, true)], map["/d" := Listing(["a.conf"], false)], false, None, [], [],
                path => "/d", (dir, file) => dir + "/" + file, text => None,
                (e, attributes, allow) => true, mode => true)
  }

  /** What such a file does wherever it is included from, given what its directory does. */
  lemma ReadSelf(env: Environment, base: string, included: seq<string>)
    requires ReadListing(env, "/d", included).error == None
    ensures var r := Read(env, base, [], included, SELF_EVENTS);
      r.stack == [] && r.error == None && r.listed == ReadListing(env, "/d", included).listed
  {
    var e, full := Element(IncludeDir, false, [], 0), Element(IncludeDir, true, [], 0);
    var opening, closing := [Content("/d")] + ([End(IncludeDir)] + ([End(BusConfig)] + [])), [End(BusConfig)] + [];
    RootOpens(env, base);
    DirectoryOpens(env, base);
    hide Interpret, Read, ReadListing;
    assert SELF_EVENTS == [Start(BusConfig, [])] + ([Start(IncludeDir, [])] + opening);
    ReadNext(env, base, [], included, Start(BusConfig, []), [Start(IncludeDir, [])] + opening, [ROOT], Nothing);
    ReadNext(env, base, [ROOT], included, Start(IncludeDir, []), opening, [ROOT, e], Nothing);
    ReadNext(env, base, [ROOT, e], included, Content("/d"),
      [End(IncludeDir)] + closing, [ROOT, full], ReadDirectory("/d"));
    ReadNext(env, base, [ROOT, full], included, End(IncludeDir), closing, [ROOT], Nothing);
    ReadNext(env, base, [ROOT], included, End(BusConfig), [], [], Nothing);
    ReadNothing(env, base, included);
  }

  /** The directory, while the files `included` are being read. */
  lemma ReadOwnDirectory(env: Environment, included: seq<string>)
    requires IncludesItself(env)
    ensures var r := ReadListing(env, "/d", included);
      r.error == None && r.listed == ReadIncluded(env, SELF, true, included).listed
  {
    var names := env.directories["/d"].names;
    var path := env.concatDirAndFile("/d", names[0]);
    assert names[1..] == [] && IsConf(path);
    assert ReadAll(env, "/d", names[1..], included) == NOTHING;
    hide ReadIncluded;
  }

  lemma SelfIncludeReads(env: Environment)
    requires IncludesItself(env)
    ensures ReadTop(env, SELF).error == None && ReadTop(env, SELF).listed == [[SELF]]
  {
    ReadOwnDirectory(env, []);
    ReadOwnDirectory(env, [SELF]);
    ReadSelf(env, env.dirname(SELF), []);
    ReadSelf(env, env.dirname(SELF), [SELF]);
    hide Read, ReadListing, SELF_EVENTS;
    assert [] + [SELF] == [SELF];
  }

  /** The bound is met: there is one file, and it is read while it is being read,
      because the top-level file is not listed.  Both readings succeed. */
  lemma SelfIncludeMeetsBound()
    ensures var env := SelfEnvironment();
      ReadTop(env, SELF).error == None && ReadTop(env, SELF).listed == [[SELF]] && |env.files| == 1
  {
    var env := SelfEnvironment();
    assert "/d" + "/" + "a.conf" == SELF;
    SelfIncludeReads(env);
    hide ReadTop, SELF_EVENTS;
  }
}

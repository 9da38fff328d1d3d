/** What a configuration file without includes sets, read off the events of the
    XML reader: which element and which text decide each setting. */
module ConfigMeaning {
  import opened Collections
  import opened ConfigTheory
  import opened ConfigGrammar
  import ConfigInline

  // ---- what the events say ----------------------------------------------------------------------

  predicate Opens(doc: seq<Event>, i: int, kind: Kind) {
    0 <= i < |doc| && doc[i].Start? && doc[i].kind == kind
  }

  /** Text that directly follows the opening of such an element. */
  predicate IsTextOf(doc: seq<Event>, i: int, kind: Kind) {
    0 < i < |doc| && doc[i].Content? && Opens(doc, i - 1, kind)
  }

  /** The texts of such elements among the first `n` events, in order. */
  function Texts(doc: seq<Event>, n: nat, kind: Kind): seq<string> {
    if n == 0 then []
    else Texts(doc, n - 1, kind) + if IsTextOf(doc, n - 1, kind) then [doc[n - 1].text] else []
  }

  ghost predicate Occurs(doc: seq<Event>, n: nat, kind: Kind) {
    exists i :: 0 <= i < n && Opens(doc, i, kind)
  }

  /** A path as it stands, or relative to the directory of the file. */
  function Resolved(env: Environment, basedir: string, path: string): string {
    if path != "" && path[0] == '/' then path else env.concatDirAndFile(basedir, path)
  }

  function DirsAt(env: Environment, basedir: string, doc: seq<Event>, i: int): seq<string> {
    if IsTextOf(doc, i, ServiceDir) then [Resolved(env, basedir, doc[i].text)]
    else if Opens(doc, i, StandardSessionServiceDirs) then env.sessionServiceDirs
    else if Opens(doc, i, StandardSystemServiceDirs) then env.systemServiceDirs
    else []
  }

  /** The service directories named, in order and with repetitions. */
  function Dirs(env: Environment, basedir: string, doc: seq<Event>, n: nat): seq<string> {
    if n == 0 then [] else Dirs(env, basedir, doc, n - 1) + DirsAt(env, basedir, doc, n - 1)
  }

  /** The end of <limit name="n">v</limit>: the limit and its value. */
  function LimitAt(env: Environment, doc: seq<Event>, i: int): Option<(string, int)> {
    if 2 <= i < |doc| && doc[i] == End(Limit) && doc[i - 1].Content? && Opens(doc, i - 2, Limit) &&
       |doc[i - 2].attributes| == 1 && env.parseInt(doc[i - 1].text).Some?
    then Some((doc[i - 2].attributes[0].1, env.parseInt(doc[i - 1].text).value))
    else None
  }

  /** An <associate>: the name owned and the context; the attributes come in either order. */
  function ContextAt(doc: seq<Event>, i: int): Option<(string, string)> {
    if Opens(doc, i, Associate) && |doc[i].attributes| == 2 then
      var (first, second) := (doc[i].attributes[0], doc[i].attributes[1]);
      if first.0 == "own" then Some((first.1, second.1)) else Some((second.1, first.1))
    else None
  }

  function Put<V>(m: map<string, V>, entry: Option<(string, V)>): map<string, V> {
    if entry.Some? then m[entry.value.0 := entry.value.1] else m
  }

  /** The limits given, put into those there were, one after the other. */
  function Limits(env: Environment, doc: seq<Event>, n: nat, before: map<string, int>): map<string, int> {
    if n == 0 then before else Put(Limits(env, doc, n - 1, before), LimitAt(env, doc, n - 1))
  }

  function Contexts(doc: seq<Event>, n: nat, before: map<string, string>): map<string, string> {
    if n == 0 then before else Put(Contexts(doc, n - 1, before), ContextAt(doc, n - 1))
  }

  function LastOf(texts: seq<string>, otherwise: Option<string>): Option<string> {
    if texts == [] then otherwise else Some(texts[|texts| - 1])
  }

  /** `after` is `before` with what the first `n` events say. */
  ghost predicate Says(env: Environment, basedir: string, doc: seq<Event>, n: nat, before: Settings, after: Settings) {
    && TextsSaid(env, basedir, doc, n, before, after)
    && FlagsSaid(doc, n, before, after)
    && after.serviceDirs == AppendAllUnique(before.serviceDirs, Dirs(env, basedir, doc, n))
    && after.limits == Limits(env, doc, n, before.limits)
    && after.serviceContexts == Contexts(doc, n, before.serviceContexts)
    && after.confDirs == before.confDirs
  }

  /** The single values are those of the last such element, the lists all of them in order. */
  ghost predicate TextsSaid(env: Environment, basedir: string, doc: seq<Event>, n: nat, before: Settings,
                            after: Settings) {
    && after.user == LastOf(Texts(doc, n, User), before.user)
    && after.busType == LastOf(Texts(doc, n, ConfigType), before.busType)
    && after.pidfile == LastOf(Texts(doc, n, Pidfile), before.pidfile)
    && after.serviceHelper == (
         var helper := LastOf(Texts(doc, n, ServiceHelper), None);
         if helper == None then before.serviceHelper else Some(Resolved(env, basedir, helper.value)))
    && after.listenOn == before.listenOn + Texts(doc, n, Listen)
    && after.mechanisms == before.mechanisms + Texts(doc, n, Auth)
  }

  /** A switch is on exactly if it was, or its element occurs. */
  ghost predicate FlagsSaid(doc: seq<Event>, n: nat, before: Settings, after: Settings) {
    && (after.fork <==> before.fork || Occurs(doc, n, Fork))
    && (after.keepUmask <==> before.keepUmask || Occurs(doc, n, KeepUmask))
    && (after.allowAnonymous <==> before.allowAnonymous || Occurs(doc, n, AllowAnonymous))
    && (after.syslog <==> before.syslog || Occurs(doc, n, Syslog))
  }

  // ---- the stack remembers what came just before -------------------------------------------------

  ghost predicate Recent(env: Environment, stack: seq<Element>, doc: seq<Event>, i: nat)
    requires i <= |doc|
  {
    && (forall j :: 0 <= j < |stack| - 1 ==> !NeedsContent(stack[j].kind))
    && (i > 0 && doc[i - 1].Start? ==>
          stack != [] && stack[|stack| - 1] == Element(doc[i - 1].kind, false, doc[i - 1].attributes, 0))
    && (stack != [] ==>
          var top := stack[|stack| - 1];
          && (NeedsContent(top.kind) && !top.hadContent ==> i > 0 && doc[i - 1] == Start(top.kind, top.attributes))
          && (top.kind == Limit ==> Located(top.attributes, ["name"]) && Find(top.attributes, "name").Some?)
          && (top.kind == Include ==> IncludeAllowed(top.attributes))
          && (top.kind == Limit && top.hadContent ==>
                i > 1 && doc[i - 2] == Start(Limit, top.attributes) && doc[i - 1].Content? &&
                env.parseInt(doc[i - 1].text) == Some(top.limitValue)))
  }

  /** The text names further files to read. */
  predicate NamesFiles(doc: seq<Event>, i: int) {
    IsTextOf(doc, i, Include) || IsTextOf(doc, i, IncludeDir)
  }

  /** No file and no directory is included. */
  ghost predicate StandsAlone(doc: seq<Event>) {
    forall i :: 0 <= i < |doc| ==> !Opens(doc, i, Include) && !Opens(doc, i, IncludeDir)
  }

  lemma AloneNamesNothing(doc: seq<Event>, i: nat)
    requires StandsAlone(doc)
    ensures !NamesFiles(doc, i)
  {
  }

  lemma StepIsRecent(env: Environment, basedir: string, stack: seq<Element>, doc: seq<Event>, i: nat)
    requires i < |doc| && Recent(env, stack, doc, i)
    requires Interpret(env, basedir, stack, doc[i]).Ok?
    ensures Recent(env, Interpret(env, basedir, stack, doc[i]).value.0, doc, i + 1)
  {
    hide Recent, StartElement, ElementContent, EndElement;
    match doc[i]
    case Start(kind, attributes) => StartIsRecent(env, stack, doc, i);
    case Content(text) => ContentIsRecent(env, basedir, stack, doc, i);
    case End(kind) => EndIsRecent(env, stack, doc, i);
  }

  lemma StartIsRecent(env: Environment, stack: seq<Element>, doc: seq<Event>, i: nat)
    requires i < |doc| && Recent(env, stack, doc, i) && doc[i].Start?
    requires StartElement(env, stack, doc[i].kind, doc[i].attributes).Ok?
    ensures Recent(env, StartElement(env, stack, doc[i].kind, doc[i].attributes).value.0, doc, i + 1)
  {
    hide StartChild, Find, Located, IncludeAllowed;
    if stack != [] && stack[|stack| - 1].kind == BusConfig {
      StartChildPushes(env, stack, doc[i].kind, doc[i].attributes);
    }
  }

  lemma ContentIsRecent(env: Environment, basedir: string, stack: seq<Element>, doc: seq<Event>, i: nat)
    requires i < |doc| && Recent(env, stack, doc, i) && doc[i].Content?
    requires ElementContent(env, basedir, stack, doc[i].text).Ok?
    ensures Recent(env, ElementContent(env, basedir, stack, doc[i].text).value.0, doc, i + 1)
  {
    hide Find, Located, IncludeAllowed;
  }

  lemma EndIsRecent(env: Environment, stack: seq<Element>, doc: seq<Event>, i: nat)
    requires i < |doc| && Recent(env, stack, doc, i) && doc[i].End? && EndElement(stack, doc[i].kind).Ok?
    ensures Recent(env, EndElement(stack, doc[i].kind).value.0, doc, i + 1)
  {
    hide Find, Located, IncludeAllowed;
  }

  lemma StartChildPushes(env: Environment, stack: seq<Element>, kind: Kind, attributes: Attributes)
    requires StartChild(env, stack, kind, attributes).Ok?
    ensures StartChild(env, stack, kind, attributes).value.0 == Push(stack, kind, attributes)
    ensures kind == Limit ==> Located(attributes, ["name"]) && Find(attributes, "name").Some?
    ensures kind == Include ==> IncludeAllowed(attributes)
  {
    hide Located, Find, IncludeAllowed;
  }

  // ---- one event ---------------------------------------------------------------------------------

  lemma {:induction false} AppendAllConcat(dirs: seq<string>, a: seq<string>, b: seq<string>)
    ensures AppendAllUnique(dirs, a + b) == AppendAllUnique(AppendAllUnique(dirs, a), b)
  {
    if b == [] {
      assert a + b == a;
    } else {
      assert (a + b)[..|a + b| - 1] == a + b[..|b| - 1];
      AppendAllConcat(dirs, a, b[..|b| - 1]);
    }
  }

  /** The settings after one more event, `s` being those before it. */
  ghost predicate EventSays(env: Environment, basedir: string, doc: seq<Event>, i: nat, s: Settings, s': Settings)
    requires i < |doc|
  {
    && EventTexts(env, basedir, doc, i, s, s') && EventFlags(doc, i, s, s')
    && EventTables(env, basedir, doc, i, s, s') && s'.confDirs == s.confDirs
  }

  ghost predicate EventTexts(env: Environment, basedir: string, doc: seq<Event>, i: nat, s: Settings, s': Settings)
    requires i < |doc|
  {
    && s'.user == (if IsTextOf(doc, i, User) then Some(doc[i].text) else s.user)
    && s'.busType == (if IsTextOf(doc, i, ConfigType) then Some(doc[i].text) else s.busType)
    && s'.pidfile == (if IsTextOf(doc, i, Pidfile) then Some(doc[i].text) else s.pidfile)
    && s'.serviceHelper == (
         if IsTextOf(doc, i, ServiceHelper) then Some(Resolved(env, basedir, doc[i].text)) else s.serviceHelper)
    && s'.listenOn == s.listenOn + (if IsTextOf(doc, i, Listen) then [doc[i].text] else [])
    && s'.mechanisms == s.mechanisms + (if IsTextOf(doc, i, Auth) then [doc[i].text] else [])
  }

  ghost predicate EventFlags(doc: seq<Event>, i: nat, s: Settings, s': Settings) {
    && s'.fork == (s.fork || Opens(doc, i, Fork))
    && s'.keepUmask == (s.keepUmask || Opens(doc, i, KeepUmask))
    && s'.allowAnonymous == (s.allowAnonymous || Opens(doc, i, AllowAnonymous))
    && s'.syslog == (s.syslog || Opens(doc, i, Syslog))
  }

  ghost predicate EventTables(env: Environment, basedir: string, doc: seq<Event>, i: nat, s: Settings, s': Settings) {
    && s'.serviceDirs == AppendAllUnique(s.serviceDirs, DirsAt(env, basedir, doc, i))
    && s'.limits == Put(s.limits, LimitAt(env, doc, i))
    && s'.serviceContexts == Put(s.serviceContexts, ContextAt(doc, i))
  }

  ghost predicate ReadsOn(a: Action) {
    a.ReadFile? || a.ReadDirectory?
  }

  lemma EventMeans(env: Environment, basedir: string, stack: seq<Element>, doc: seq<Event>, i: nat, s: Settings)
    requires i < |doc| && Recent(env, stack, doc, i) && !NamesFiles(doc, i)
    requires Interpret(env, basedir, stack, doc[i]).Ok?
    ensures var a := Interpret(env, basedir, stack, doc[i]).value.1;
      !ReadsOn(a) && EventSays(env, basedir, doc, i, s, Applied(s, a))
  {
    hide Recent, StartElement, ElementContent, EndElement, EventSays, Applied, NamesFiles;
    match doc[i]
    case Start(kind, attributes) => StartMeans(env, basedir, stack, doc, i, s);
    case Content(text) => ContentMeans(env, basedir, stack, doc, i, s);
    case End(kind) => EndMeans(env, basedir, stack, doc, i, s);
  }

  /** What the opening of an element does. */
  function Opened(env: Environment, doc: seq<Event>, i: nat): Action
    requires i < |doc| && doc[i].Start?
  {
    match doc[i].kind
    case Fork => SetFork
    case KeepUmask => SetKeepUmask
    case AllowAnonymous => SetAllowAnonymous
    case Syslog => SetSyslog
    case StandardSessionServiceDirs => AddServiceDirs(env.sessionServiceDirs)
    case StandardSystemServiceDirs => AddServiceDirs(env.systemServiceDirs)
    case Associate =>
      (match Find(doc[i].attributes, "own")
       case Some(own) =>
         AddContext(own, if Find(doc[i].attributes, "context").Some? then Find(doc[i].attributes,
           "context").value else "")
       case None => Nothing)
    case _ => Nothing
  }

  lemma ChildIsOpened(env: Environment, stack: seq<Element>, doc: seq<Event>, i: nat)
    requires i < |doc| && doc[i].Start? && StartChild(env, stack, doc[i].kind, doc[i].attributes).Ok?
    ensures StartChild(env, stack, doc[i].kind, doc[i].attributes).value.1 == Opened(env, doc, i)
    ensures doc[i].kind != Associate
  {
    hide IncludeAllowed, PolicyAllowed, Located, Find;
  }

  lemma StartIsOpened(env: Environment, stack: seq<Element>, doc: seq<Event>, i: nat)
    requires i < |doc| && doc[i].Start? && StartElement(env, stack, doc[i].kind, doc[i].attributes).Ok?
    ensures StartElement(env, stack, doc[i].kind, doc[i].attributes).value.1 == Opened(env, doc, i)
    ensures doc[i].kind == Associate ==> AssociateAllowed(doc[i].attributes)
  {
    if stack != [] && stack[|stack| - 1].kind == BusConfig {
      ChildIsOpened(env, stack, doc, i);
    }
    hide StartChild, Located, Find;
  }

  const TEXTS: set<Kind> := {User, ConfigType, Pidfile, ServiceHelper, Listen, Auth}

  predicate SetsText(a: Action) {
    a.SetUser? || a.SetType? || a.SetPidfile? || a.SetServiceHelper? || a.AddListen? || a.AddMechanism?
  }

  predicate SetsFlag(a: Action) {
    a.SetFork? || a.SetKeepUmask? || a.SetAllowAnonymous? || a.SetSyslog?
  }

  predicate SetsTable(a: Action) {
    a.AddServiceDirs? || a.AddContext? || a.SetLimit?
  }

  lemma TextsUntouched(env: Environment, basedir: string, doc: seq<Event>, i: nat, s: Settings, a: Action)
    requires i < |doc| && !SetsText(a) && forall k :: IsTextOf(doc, i, k) ==> k !in TEXTS
    ensures EventTexts(env, basedir, doc, i, s, Applied(s, a))
  {
    hide AppendAllUnique, IsTextOf;
  }

  lemma FlagsUntouched(doc: seq<Event>, i: nat, s: Settings, a: Action)
    requires i < |doc| && !SetsFlag(a) && !doc[i].Start?
    ensures EventFlags(doc, i, s, Applied(s, a))
  {
    hide AppendAllUnique;
  }

  lemma TablesUntouched(env: Environment, basedir: string, doc: seq<Event>, i: nat, s: Settings, a: Action)
    requires i < |doc| && !SetsTable(a)
    requires DirsAt(env, basedir, doc, i) == [] && LimitAt(env, doc, i) == None && ContextAt(doc, i) == None
    ensures EventTables(env, basedir, doc, i, s, Applied(s, a))
  {
    hide DirsAt, LimitAt, ContextAt;
  }

  lemma ConfDirsUntouched(s: Settings, a: Action)
    requires !a.AddConfDir?
    ensures Applied(s, a).confDirs == s.confDirs
  {
    hide AppendAllUnique;
  }

  lemma FlagsApplied(s: Settings, a: Action)
    ensures Applied(s, a).fork == (s.fork || a.SetFork?)
    ensures Applied(s, a).keepUmask == (s.keepUmask || a.SetKeepUmask?)
    ensures Applied(s, a).allowAnonymous == (s.allowAnonymous || a.SetAllowAnonymous?)
    ensures Applied(s, a).syslog == (s.syslog || a.SetSyslog?)
  {
    hide AppendAllUnique;
  }

  lemma FlagsOpened(env: Environment, doc: seq<Event>, i: nat)
    requires i < |doc| && doc[i].Start?
    ensures var (a, kind) := (Opened(env, doc, i), doc[i].kind);
      && (a.SetFork? <==> kind == Fork) && (a.SetKeepUmask? <==> kind == KeepUmask)
      && (a.SetAllowAnonymous? <==> kind == AllowAnonymous) && (a.SetSyslog? <==> kind == Syslog)
      && !ReadsOn(a) && !a.AddConfDir? && !SetsText(a)
  {
    hide Find;
  }

  lemma StartMeans(env: Environment, basedir: string, stack: seq<Element>, doc: seq<Event>, i: nat, s: Settings)
    requires i < |doc| && doc[i].Start? && StartElement(env, stack, doc[i].kind, doc[i].attributes).Ok?
    ensures var a := StartElement(env, stack, doc[i].kind, doc[i].attributes).value.1;
      !ReadsOn(a) && EventSays(env, basedir, doc, i, s, Applied(s, a))
  {
    hide StartElement, AssociateAllowed, EventTexts, EventFlags, EventTables, Applied, Opened;
    var a := Opened(env, doc, i);
    StartIsOpened(env, stack, doc, i);
    FlagsOpened(env, doc, i);
    FlagsApplied(s, a);
    TextsUntouched(env, basedir, doc, i, s, a);
    ConfDirsUntouched(s, a);
    StartFlags(env, doc, i, s);
    StartTables(env, basedir, doc, i, s);
  }

  lemma StartFlags(env: Environment, doc: seq<Event>, i: nat, s: Settings)
    requires i < |doc| && doc[i].Start?
    ensures EventFlags(doc, i, s, Applied(s, Opened(env, doc, i)))
  {
    hide Applied, Opened;
    FlagsOpened(env, doc, i);
    FlagsApplied(s, Opened(env, doc, i));
  }

  lemma StartTables(env: Environment, basedir: string, doc: seq<Event>, i: nat, s: Settings)
    requires i < |doc| && doc[i].Start? && (doc[i].kind == Associate ==> AssociateAllowed(doc[i].attributes))
    ensures EventTables(env, basedir, doc, i, s, Applied(s, Opened(env, doc, i)))
  {
    var a := Opened(env, doc, i);
    assert LimitAt(env, doc, i) == None;
    if doc[i].kind == Associate {
      AssociateIsContext(doc, i);
      assert DirsAt(env, basedir, doc, i) == [];
      ContextPut(env, basedir, doc, i, s, a);
    } else {
      assert ContextAt(doc, i) == None;
      if a.AddServiceDirs? {
        DirsPut(env, basedir, doc, i, s, a);
      } else {
        TablesUntouched(env, basedir, doc, i, s, a);
      }
    }
    hide Located, Find, ContextAt, LimitAt, Applied, EventTables;
  }

  lemma DirsPut(env: Environment, basedir: string, doc: seq<Event>, i: nat, s: Settings, a: Action)
    requires i < |doc| && a == AddServiceDirs(DirsAt(env, basedir, doc, i))
    requires LimitAt(env, doc, i) == None && ContextAt(doc, i) == None
    ensures EventTables(env, basedir, doc, i, s, Applied(s, a))
  {
    hide DirsAt, LimitAt, ContextAt, AppendAllUnique;
  }

  lemma ContextPut(env: Environment, basedir: string, doc: seq<Event>, i: nat, s: Settings, a: Action)
    requires i < |doc| && a.AddContext? && ContextAt(doc, i) == Some((a.own, a.context))
    requires DirsAt(env, basedir, doc, i) == [] && LimitAt(env, doc, i) == None
    ensures EventTables(env, basedir, doc, i, s, Applied(s, a))
  {
    hide DirsAt, LimitAt, ContextAt;
  }

  lemma AssociateIsContext(doc: seq<Event>, i: nat)
    requires Opens(doc, i, Associate) && AssociateAllowed(doc[i].attributes)
    ensures ContextAt(doc, i) ==
      Some((Find(doc[i].attributes, "own").value, Find(doc[i].attributes, "context").value))
  {
    var attributes := doc[i].attributes;
    hide Find;
    AssociateIsAllowed(attributes);
    var (a, b) := (attributes[0], attributes[1]);
    assert attributes == [a, b];
    FindInTwo(a, b, "own");
    FindInTwo(a, b, "context");
    assert a.0 in {a.0, b.0} && b.0 in {a.0, b.0};
    assert "own" in {a.0, b.0} && "context" in {a.0, b.0};
  }

  lemma ContentMeans(env: Environment, basedir: string, stack: seq<Element>, doc: seq<Event>, i: nat, s: Settings)
    requires i < |doc| && doc[i].Content? && Recent(env, stack, doc, i) && !NamesFiles(doc, i)
    requires ElementContent(env, basedir, stack, doc[i].text).Ok?
    ensures var a := ElementContent(env, basedir, stack, doc[i].text).value.1;
      !ReadsOn(a) && EventSays(env, basedir, doc, i, s, Applied(s, a))
  {
    hide PlainContent, IncludeContent, Find, Applied, EventTexts, EventTables, EventFlags, IsTextOf;
    var kind := stack[|stack| - 1].kind;
    TextBelongsToTop(env, stack, doc, i, kind);
    assert kind != Include && kind != IncludeDir by {
      assert kind in {Include, IncludeDir} ==> NeedsContent(kind);
    }
    hide Recent, ElementContent, NeedsContent, Opens;
    ContentIsTaken(env, basedir, stack, doc, i);
    TakenMeans(env, basedir, doc, i, s, kind);
  }

  lemma TakenMeans(env: Environment, basedir: string, doc: seq<Event>, i: nat, s: Settings, kind: Kind)
    requires i < |doc| && doc[i].Content? && forall k :: IsTextOf(doc, i, k) ==> k == kind
    requires NeedsContent(kind) ==> IsTextOf(doc, i, kind)
    ensures var a := Taken(env, basedir, kind, doc[i].text);
      !ReadsOn(a) && EventSays(env, basedir, doc, i, s, Applied(s, a))
  {
    FlagsUntouched(doc, i, s, Taken(env, basedir, kind, doc[i].text));
    ConfDirsUntouched(s, Taken(env, basedir, kind, doc[i].text));
    ContentTexts(env, basedir, doc, i, s, kind);
    ContentTables(env, basedir, doc, i, s, kind);
    hide NeedsContent, IsTextOf, EventTexts, EventTables, EventFlags, Resolved;
  }

  /** What the text of an element that reads no further file does. */
  function Taken(env: Environment, basedir: string, kind: Kind, text: string): Action {
    match kind
    case User => SetUser(text)
    case ConfigType => SetType(text)
    case Pidfile => SetPidfile(text)
    case ServiceHelper => SetServiceHelper(Resolved(env, basedir, text))
    case Listen => AddListen(text)
    case Auth => AddMechanism(text)
    case ServiceDir => AddServiceDirs([Resolved(env, basedir, text)])
    case _ => Nothing
  }

  lemma ContentIsTaken(env: Environment, basedir: string, stack: seq<Element>, doc: seq<Event>, i: nat)
    requires i < |doc| && doc[i].Content? && ElementContent(env, basedir, stack, doc[i].text).Ok?
    requires stack[|stack| - 1].kind != Include && stack[|stack| - 1].kind != IncludeDir
    ensures ElementContent(env, basedir, stack, doc[i].text).value.1 ==
      Taken(env, basedir, stack[|stack| - 1].kind, doc[i].text)
  {
  }

  lemma TextsApplied(s: Settings, a: Action)
    ensures Applied(s, a).user == if a.SetUser? then Some(a.value) else s.user
    ensures Applied(s, a).busType == if a.SetType? then Some(a.value) else s.busType
    ensures Applied(s, a).pidfile == if a.SetPidfile? then Some(a.value) else s.pidfile
    ensures Applied(s, a).serviceHelper == if a.SetServiceHelper? then Some(a.value) else s.serviceHelper
    ensures Applied(s, a).listenOn == s.listenOn + if a.AddListen? then [a.value] else []
    ensures Applied(s, a).mechanisms == s.mechanisms + if a.AddMechanism? then [a.value] else []
  {
    hide AppendAllUnique;
  }

  lemma ContentTexts(env: Environment, basedir: string, doc: seq<Event>, i: nat, s: Settings, kind: Kind)
    requires i < |doc| && doc[i].Content? && forall k :: IsTextOf(doc, i, k) ==> k == kind
    requires NeedsContent(kind) ==> IsTextOf(doc, i, kind)
    ensures EventTexts(env, basedir, doc, i, s, Applied(s, Taken(env, basedir, kind, doc[i].text)))
  {
    hide IsTextOf, Applied, Resolved;
    TextsApplied(s, Taken(env, basedir, kind, doc[i].text));
  }

  lemma ContentTables(env: Environment, basedir: string, doc: seq<Event>, i: nat, s: Settings, kind: Kind)
    requires i < |doc| && doc[i].Content? && forall k :: IsTextOf(doc, i, k) ==> k == kind
    requires NeedsContent(kind) ==> IsTextOf(doc, i, kind)
    ensures EventTables(env, basedir, doc, i, s, Applied(s, Taken(env, basedir, kind, doc[i].text)))
  {
    hide IsTextOf, AppendAllUnique, Resolved;
    assert LimitAt(env, doc, i) == None && ContextAt(doc, i) == None;
    if kind == ServiceDir {
      DirsPut(env, basedir, doc, i, s, Taken(env, basedir, kind, doc[i].text));
    } else {
      TablesUntouched(env, basedir, doc, i, s, Taken(env, basedir, kind, doc[i].text));
    }
  }

  /** Accepted text of a value belongs to the element just opened. */
  lemma TextBelongsToTop(env: Environment, stack: seq<Element>, doc: seq<Event>, i: nat, kind: Kind)
    requires i < |doc| && doc[i].Content? && Recent(env, stack, doc, i)
    requires stack != [] && !stack[|stack| - 1].hadContent && stack[|stack| - 1].kind == kind
    ensures forall k :: IsTextOf(doc, i, k) ==> k == kind
    ensures NeedsContent(kind) ==> IsTextOf(doc, i, kind) && Opens(doc, i - 1, kind)
  {
  }

  lemma EndMeans(env: Environment, basedir: string, stack: seq<Element>, doc: seq<Event>, i: nat, s: Settings)
    requires i < |doc| && doc[i].End? && Recent(env, stack, doc, i)
    requires EndElement(stack, doc[i].kind).Ok?
    ensures var a := EndElement(stack, doc[i].kind).value.1;
      !ReadsOn(a) && EventSays(env, basedir, doc, i, s, Applied(s, a))
  {
    var a := EndElement(stack, doc[i].kind).value.1;
    TextsUntouched(env, basedir, doc, i, s, a);
    FlagsUntouched(doc, i, s, a);
    ConfDirsUntouched(s, a);
    EndSets(env, stack, doc, i);
    assert DirsAt(env, basedir, doc, i) == [] && ContextAt(doc, i) == None;
    if doc[i].kind == Limit {
      LimitPut(env, basedir, doc, i, s, a);
    } else {
      TablesUntouched(env, basedir, doc, i, s, a);
    }
    hide EndElement, Recent, Applied, EventTexts, EventFlags, EventTables, LimitAt, DirsAt, ContextAt;
  }

  lemma LimitPut(env: Environment, basedir: string, doc: seq<Event>, i: nat, s: Settings, a: Action)
    requires i < |doc| && a.SetLimit? && LimitAt(env, doc, i) == Some((a.name, a.limit))
    requires DirsAt(env, basedir, doc, i) == [] && ContextAt(doc, i) == None
    ensures EventTables(env, basedir, doc, i, s, Applied(s, a))
  {
    hide DirsAt, LimitAt, ContextAt;
  }

  lemma EndSets(env: Environment, stack: seq<Element>, doc: seq<Event>, i: nat)
    requires i < |doc| && doc[i].End? && Recent(env, stack, doc, i)
    requires EndElement(stack, doc[i].kind).Ok?
    ensures var a := EndElement(stack, doc[i].kind).value.1;
      && (if doc[i].kind == Limit then a.SetLimit? else a == Nothing)
      && LimitAt(env, doc, i) == if doc[i].kind == Limit then Some((a.name, a.limit)) else None
  {
    if doc[i].kind == Limit {
      OneIsAllowed(doc[i - 2].attributes, "name");
    }
  }

  // ---- a whole document --------------------------------------------------------------------------

  lemma SaysMore(env: Environment, basedir: string, doc: seq<Event>, n: nat, before: Settings, s: Settings,
                 s': Settings)
    requires n < |doc| && Says(env, basedir, doc, n, before, s) && EventSays(env, basedir, doc, n, s, s')
    ensures Says(env, basedir, doc, n + 1, before, s')
  {
    AppendAllConcat(before.serviceDirs, Dirs(env, basedir, doc, n), DirsAt(env, basedir, doc, n));
    TextsSaidMore(env, basedir, doc, n, before, s, s');
    FlagsSaidMore(env, basedir, doc, n, before, s, s');
    hide TextsSaid, FlagsSaid, EventTexts, EventFlags, AppendAllUnique, LimitAt, ContextAt, DirsAt, IsTextOf, Opens;
  }

  lemma TextsSaidMore(env: Environment, basedir: string, doc: seq<Event>, n: nat, before: Settings,
                      s: Settings, s': Settings)
    requires n < |doc| && TextsSaid(env, basedir, doc, n, before, s) && EventSays(env, basedir, doc, n, s, s')
    ensures TextsSaid(env, basedir, doc, n + 1, before, s')
  {
    hide Texts, LastOf, IsTextOf, EventFlags, EventTables, Resolved;
    TextsMore(doc, n, User, before.user);
    TextsMore(doc, n, ConfigType, before.busType);
    TextsMore(doc, n, Pidfile, before.pidfile);
    TextsMore(doc, n, ServiceHelper, None);
    TextsMore(doc, n, Listen, None);
    TextsMore(doc, n, Auth, None);
  }

  lemma TextsMore(doc: seq<Event>, n: nat, kind: Kind, otherwise: Option<string>)
    requires n < |doc|
    ensures Texts(doc, n + 1, kind) == Texts(doc, n, kind) + (if IsTextOf(doc, n, kind) then [doc[n].text] else [])
    ensures LastOf(Texts(doc, n + 1, kind), otherwise) ==
      if IsTextOf(doc, n, kind) then Some(doc[n].text) else LastOf(Texts(doc, n, kind), otherwise)
  {
    hide IsTextOf;
  }

  lemma FlagsSaidMore(env: Environment, basedir: string, doc: seq<Event>, n: nat, before: Settings,
                      s: Settings, s': Settings)
    requires n < |doc| && FlagsSaid(doc, n, before, s) && EventSays(env, basedir, doc, n, s, s')
    ensures FlagsSaid(doc, n + 1, before, s')
  {
    OccursMore(doc, n, Fork);
    OccursMore(doc, n, KeepUmask);
    OccursMore(doc, n, AllowAnonymous);
    OccursMore(doc, n, Syslog);
    hide Occurs, IsTextOf, Opens, LimitAt, ContextAt, DirsAt, AppendAllUnique;
  }

  lemma OccursMore(doc: seq<Event>, n: nat, kind: Kind)
    ensures Occurs(doc, n + 1, kind) <==> Occurs(doc, n, kind) || Opens(doc, n, kind)
  {
  }

  lemma {:induction false} RunSays(env: Environment, basedir: string, stack: seq<Element>, s: Settings,
                                   included: seq<string>, 
                doc: seq<Event>, n: nat, before: Settings)
    requires n <= |doc| && Recent(env, stack, doc, n) && StandsAlone(doc) && Says(env, basedir, doc, n, before, s)
    ensures var end := Run(env, basedir, stack, s, included, doc[n..]);
      end.Ok? ==> Says(env, basedir, doc, |doc|, before, end.value.1)
    decreases |doc| - n
  {
    hide Says, Recent, StandsAlone, Interpret, EventSays, Applied;
    if n < |doc| && Interpret(env, basedir, stack, doc[n]).Ok? {
      assert doc[n..][0] == doc[n] && doc[n..][1..] == doc[n + 1..];
      var next := Interpret(env, basedir, stack, doc[n]).value;
      StepIsRecent(env, basedir, stack, doc, n);
      AloneNamesNothing(doc, n);
      EventMeans(env, basedir, stack, doc, n, s);
      SaysMore(env, basedir, doc, n, before, s, Applied(s, next.1));
      RunSays(env, basedir, next.0, Applied(s, next.1), included, doc, n + 1, before);
    }
  }

  /** A file without includes sets what its events say. */
  lemma FileMeans(env: Environment, path: string, limits: map<string, int>, included: seq<string>)
    requires path !in included && path in env.files && env.files[path].Document? && StandsAlone(env.files[path].events)
    ensures var doc := env.files[path].events;
      var loaded := Load(env, path, limits, included);
      loaded.Ok? ==> Says(env, env.dirname(path), doc, |doc|, Blank(limits), loaded.value)
  {
    var doc := env.files[path].events;
    NothingSaid(env, env.dirname(path), doc, Blank(limits));
    assert doc[0..] == doc;
    RunSays(env, env.dirname(path), [], Blank(limits), included + [path], doc, 0, Blank(limits));
    hide Says, Run;
  }

  /** The same for the file the bus was started with. */
  lemma ToplevelMeans(env: Environment, path: string)
    requires path in env.files && env.files[path].Document? && StandsAlone(env.files[path].events)
    ensures var doc := env.files[path].events;
      var loaded := LoadTop(env, path);
      loaded.Ok? ==> Says(env, env.dirname(path), doc, |doc|, Blank(DefaultLimits()), loaded.value)
  {
    var doc := env.files[path].events;
    NothingSaid(env, env.dirname(path), doc, Blank(DefaultLimits()));
    assert doc[0..] == doc;
    RunSays(env, env.dirname(path), [], Blank(DefaultLimits()), [], doc, 0, Blank(DefaultLimits()));
    hide Says, Run, DefaultLimits;
  }

  lemma NothingSaid(env: Environment, basedir: string, doc: seq<Event>, s: Settings)
    ensures Says(env, basedir, doc, 0, s, s) && Recent(env, [], doc, 0)
  {
  }

  // ---- includes ----------------------------------------------------------------------------------

  /** The file an <include> names: below the policy root or the directory of the file. */
  function Included(env: Environment, basedir: string, attributes: Attributes, text: string): string {
    if ("selinux_root_relative", "yes") in attributes && env.selinuxPolicyRoot.Some?
    then Resolved(env, env.selinuxPolicyRoot.value, text)
    else Resolved(env, basedir, text)
  }

  predicate SkipsInclude(env: Environment, attributes: Attributes) {
    ("if_selinux_enabled", "yes") in attributes && !env.selinuxEnabled
  }

  /** What one event of any document leads to. */
  ghost predicate EventLeads(env: Environment, basedir: string, doc: seq<Event>, i: nat, included: seq<string>,
                             s: Settings, result: Result<Settings, Error>)
    requires i < |doc|
  {
    if IsTextOf(doc, i, Include) then
      var attributes := doc[i - 1].attributes;
      if SkipsInclude(env, attributes) then result == Ok(s)
      else
        result == IncludeFile(env, s, Included(env, basedir, attributes, doc[i].text),
                              ("ignore_missing", "yes") in attributes, included)
    else if IsTextOf(doc, i, IncludeDir) then
      result == IncludeDirectory(env, s, Resolved(env, basedir, doc[i].text), included)
    else
      result.Ok? && EventSays(env, basedir, doc, i, s, result.value)
  }

  lemma AnyEventLeads(env: Environment, basedir: string, stack: seq<Element>, doc: seq<Event>, i: nat,
                      included: seq<string>, s: Settings)
    requires i < |doc| && Recent(env, stack, doc, i) && Interpret(env, basedir, stack, doc[i]).Ok?
    ensures EventLeads(env, basedir, doc, i, included, s,
                       Perform(env, s, Interpret(env, basedir, stack, doc[i]).value.1, included))
  {
    if NamesFiles(doc, i) {
      AnyContentLeads(env, basedir, stack, doc, i, included, s);
    } else {
      EventMeans(env, basedir, stack, doc, i, s);
      hide Interpret, Recent, EventSays;
    }
  }

  lemma AnyContentLeads(env: Environment, basedir: string, stack: seq<Element>, doc: seq<Event>, i: nat,
                        included: seq<string>, s: Settings)
    requires i < |doc| && doc[i].Content? && Recent(env, stack, doc, i) && NamesFiles(doc, i)
    requires ElementContent(env, basedir, stack, doc[i].text).Ok?
    ensures EventLeads(env, basedir, doc, i, included, s,
                       Perform(env, s, ElementContent(env, basedir, stack, doc[i].text).value.1, included))
  {
    assert Applied(s, Nothing) == s;
    hide Recent, IncludeContent, PlainContent, IncludeFile, IncludeDirectory, Find, Located, Applied, EventSays;
    var e := stack[|stack| - 1];
    OpenedLast(env, stack, doc, i);
    if e.kind == Include {
      IncludeLeads(env, basedir, stack, e, doc[i].text);
    }
  }

  lemma OpenedLast(env: Environment, stack: seq<Element>, doc: seq<Event>, i: nat)
    requires 0 < i < |doc| && Recent(env, stack, doc, i) && doc[i - 1].Start?
    ensures stack != [] && stack[|stack| - 1] == Element(doc[i - 1].kind, false, doc[i - 1].attributes, 0)
    ensures doc[i - 1].kind == Include ==> IncludeAllowed(doc[i - 1].attributes)
  {
  }

  lemma IncludeLeads(env: Environment, basedir: string, stack: seq<Element>, e: Element, text: string)
    requires stack != [] && IncludeAllowed(e.attributes) && IncludeContent(env, basedir, stack, e, text).Ok?
    ensures IncludeContent(env, basedir, stack, e, text).value.1 ==
      if SkipsInclude(env, e.attributes) then Nothing
      else ReadFile(Included(env, basedir, e.attributes, text), ("ignore_missing", "yes") in e.attributes)
  {
    hide Find, Located;
    IncludeIsAllowed(e.attributes);
    FindIsIn(e.attributes, "if_selinux_enabled");
    FindIsIn(e.attributes, "selinux_root_relative");
    FindIsIn(e.attributes, "ignore_missing");
  }

  /** A document that is read goes through settings that each event leads to from
      the ones before, whatever it includes. */
  lemma {:induction false} RunLeads(env: Environment, basedir: string, stack: seq<Element>, s: Settings,
                                    included: seq<string>, doc: seq<Event>, n: nat)
    returns (states: seq<Settings>)
    requires n <= |doc| && Recent(env, stack, doc, n)
    requires Run(env, basedir, stack, s, included, doc[n..]).Ok?
    ensures |states| == |doc| - n + 1 && states[0] == s
    ensures states[|states| - 1] == Run(env, basedir, stack, s, included, doc[n..]).value.1
    ensures forall k :: 0 <= k < |states| - 1 ==>
              EventLeads(env, basedir, doc, n + k, included, states[k], Ok(states[k + 1]))
    decreases |doc| - n
  {
    hide Recent, Interpret, Perform, EventLeads;
    if n == |doc| {
      states := [s];
    } else {
      assert doc[n..][0] == doc[n] && doc[n..][1..] == doc[n + 1..];
      var next := Interpret(env, basedir, stack, doc[n]).value;
      var s' := Perform(env, s, next.1, included).value;
      StepIsRecent(env, basedir, stack, doc, n);
      AnyEventLeads(env, basedir, stack, doc, n, included, s);
      var rest := RunLeads(env, basedir, next.0, s', included, doc, n + 1);
      states := [s] + rest;
      forall k | 0 <= k < |states| - 1
        ensures EventLeads(env, basedir, doc, n + k, included, states[k], Ok(states[k + 1]))
      {
        if k > 0 {
          assert states[k] == rest[k - 1] && n + 1 + (k - 1) == n + k;
        }
      }
    }
  }

  // ---- which files load --------------------------------------------------------------------------

  lemma ElementsAreFound(env: Environment, basedir: string, stack: seq<Element>, e: Event)
    ensures Interpret(env, basedir, stack, e) != Err(FileNotFound)
  {
  }

  /** A document that includes nothing is read without an error exactly if its
      events are accepted one after the other. */
  lemma {:induction false} RunsExactly(env: Environment, basedir: string, stack: seq<Element>, s: Settings,
                                       included: seq<string>, doc: seq<Event>, n: nat)
    requires n <= |doc| && Recent(env, stack, doc, n) && StandsAlone(doc)
    ensures Run(env, basedir, stack, s, included, doc[n..]).Ok? <==> Nest(env, basedir, stack, doc[n..]).Some?
    ensures Run(env, basedir, stack, s, included, doc[n..]) != Err(FileNotFound)
    decreases |doc| - n
  {
    hide Recent, StandsAlone, Interpret, EventSays, Applied;
    if n < |doc| {
      ElementsAreFound(env, basedir, stack, doc[n]);
    }
    if n < |doc| && Interpret(env, basedir, stack, doc[n]).Ok? {
      assert doc[n..][0] == doc[n] && doc[n..][1..] == doc[n + 1..];
      var next := Interpret(env, basedir, stack, doc[n]).value;
      StepIsRecent(env, basedir, stack, doc, n);
      AloneNamesNothing(doc, n);
      EventMeans(env, basedir, stack, doc, n, s);
      RunsExactly(env, basedir, next.0, Applied(s, next.1), included, doc, n + 1);
    }
  }

  /** The configuration of a bus without includes is accepted exactly if it is a
      well-formed proper tree in which some <listen> has a text. */
  lemma ToplevelAcceptedExactly(env: Environment, path: string)
    requires path in env.files && env.files[path].Document? && StandsAlone(env.files[path].events)
    ensures var doc := env.files[path].events;
      LoadTop(env, path).Ok? <==>
        && env.files[path].wellFormed && Texts(doc, |doc|, Listen) != []
        && exists b: Body :: Proper(env, None, b) && Events(b) == doc
  {
    var doc, basedir := env.files[path].events, env.dirname(path);
    assert doc[0..] == doc;
    NothingSaid(env, basedir, doc, Blank(DefaultLimits()));
    RunsExactly(env, basedir, [], Blank(DefaultLimits()), [], doc, 0);
    RunNests(env, basedir, [], Blank(DefaultLimits()), [], doc);
    RunSays(env, basedir, [], Blank(DefaultLimits()), [], doc, 0, Blank(DefaultLimits()));
    AcceptedExactly(env, basedir, doc);
    hide Run, Nest, DefaultLimits, Texts;
  }

  // ---- service directories -----------------------------------------------------------------------

  /** The members of `more` that are new to `dirs`, each where it first stands. */
  function Firsts(dirs: seq<string>, more: seq<string>): seq<string>
    decreases |more|
  {
    if more == [] then []
    else if more[0] in dirs then Firsts(dirs, more[1..])
    else [more[0]] + Firsts(dirs + [more[0]], more[1..])
  }

  lemma {:induction false} AppendAllIsFirsts(dirs: seq<string>, more: seq<string>)
    ensures AppendAllUnique(dirs, more) == dirs + Firsts(dirs, more)
    decreases |more|
  {
    if more != [] {
      AppendAllConcat(dirs, [more[0]], more[1..]);
      assert more == [more[0]] + more[1..] && [more[0]][..0] == [];
      assert AppendAllUnique(dirs, [more[0]]) == AppendUnique(dirs, more[0]);
      AppendAllIsFirsts(AppendUnique(dirs, more[0]), more[1..]);
    }
  }

  // ---- a file included ---------------------------------------------------------------------------

  lemma {:induction false} ContextsOver(doc: seq<Event>, n: nat, before: map<string, string>)
    ensures before + Contexts(doc, n, map[]) == Contexts(doc, n, before)
  {
    if n > 0 {
      ContextsOver(doc, n - 1, before);
    }
  }

  lemma AbsorbedTexts(env: Environment, basedir: string, doc: seq<Event>, n: nat, s: Settings, child: Settings)
    requires TextsSaid(env, basedir, doc, n, Blank(s.limits), child)
    ensures TextsSaid(env, basedir, doc, n, s, Absorb(s, child))
  {
    hide Texts, Resolved, AppendAllUnique;
    assert [] + Texts(doc, n, Listen) == Texts(doc, n, Listen) && [] + Texts(doc, n, Auth) == Texts(doc, n, Auth);
  }

  /** What a parser of its own was told, merged, is told to the including file, but
      for <syslog>. */
  lemma AbsorbedSays(env: Environment, basedir: string, doc: seq<Event>, n: nat, s: Settings, child: Settings)
    requires Says(env, basedir, doc, n, Blank(s.limits), child)
    ensures Absorb(s, child).syslog == s.syslog
    ensures Says(env, basedir, doc, n, s, Absorb(s, child).(syslog := s.syslog || Occurs(doc, n, Syslog)))
  {
    AbsorbedTexts(env, basedir, doc, n, s, child);
    ContextsOver(doc, n, s.serviceContexts);
    ConfigInline.AppendAllAssociative(s.serviceDirs, [], Dirs(env, basedir, doc, n));
    assert AppendAllUnique(s.serviceDirs, []) == s.serviceDirs;
    hide Texts, Occurs, Dirs, Limits, Contexts, AppendAllUnique, Resolved;
  }

  /** Including a file that includes no other: a file being read already, and one
      that is no proper document, are errors; a missing one is, unless that is to be
      ignored; otherwise the settings are those before with what the file says. */
  lemma IncludeMeans(env: Environment, s: Settings, path: string, ignoreMissing: bool, included: seq<string>)
    requires path in env.files && env.files[path].Document? ==> StandsAlone(env.files[path].events)
    ensures var r := IncludeFile(env, s, path, ignoreMissing, included);
      && (path in included ==> r == Err(Failed))
      && (path !in included && path !in env.files ==> r == if ignoreMissing then Ok(s) else Err(FileNotFound))
      && (path !in included && path in env.files ==>
            match env.files[path]
            case Unreadable => r == Err(Failed)
            case Document(doc, wellFormed) =>
              && (r.Ok? <==> wellFormed && exists b: Body :: Proper(env, None, b) && Events(b) == doc)
              && (r.Ok? ==>
                    && r.value.syslog == s.syslog
                    && Says(env, env.dirname(path), doc, |doc|, s,
                            r.value.(syslog := s.syslog || Occurs(doc, |doc|, Syslog)))))
  {
    if path !in included && path in env.files && env.files[path].Document? {
      FileMeans(env, path, s.limits, included);
      FileAcceptedExactly(env, path, s.limits, included);
      var child := Load(env, path, s.limits, included);
      hide Says, StandsAlone, Load, Proper, Occurs, Absorb;
      if child.Ok? {
        var doc := env.files[path].events;
        AbsorbedSays(env, env.dirname(path), doc, |doc|, s, child.value);
      }
    }
  }

  lemma FileAcceptedExactly(env: Environment, path: string, limits: map<string, int>, included: seq<string>)
    requires path !in included && path in env.files && env.files[path].Document? && StandsAlone(env.files[path].events)
    ensures Load(env, path, limits, included).Ok? <==>
      (env.files[path].wellFormed && exists b: Body :: Proper(env, None, b) && Events(b) == env.files[path].events)
    ensures Load(env, path, limits, included) != Err(FileNotFound)
  {
    var doc, basedir, now := env.files[path].events, env.dirname(path), included + [path];
    assert doc[0..] == doc;
    NothingSaid(env, basedir, doc, Blank(limits));
    RunsExactly(env, basedir, [], Blank(limits), now, doc, 0);
    RunNests(env, basedir, [], Blank(limits), now, doc);
    AcceptedExactly(env, basedir, doc);
    hide Run, Nest;
  }
}

/** The configuration language of bus/config-parser.c: a stack machine over the
    events of the XML reader, what each element does to the settings, and the
    inclusion of further files, each read by a parser of its own and merged. */
module ConfigTheory {
  import opened Collections

  datatype Error = FileNotFound | Failed

  /** The element names; any other name is Unknown. */
  datatype Kind =
    | BusConfig | Include | User | Listen | Auth | Policy | Limit | Allow | Deny | Fork | Pidfile
    | StandardSessionServiceDirs | StandardSystemServiceDirs | ServiceDir | ServiceHelper | IncludeDir
    | ConfigType | Selinux | Associate | Syslog | KeepUmask | AllowAnonymous | Apparmor | Unknown

  type Attributes = seq<(string, string)>

  datatype Element = Element(
    kind: Kind,
    hadContent: bool,
    attributes: Attributes,
    limitValue: int)

  /** What the XML reader reports; text comes in one piece per stretch. */
  datatype Event = Start(kind: Kind, attributes: Attributes) | Content(text: string) | End(kind: Kind)

  datatype File = Document(events: seq<Event>, wellFormed: bool) | Unreadable

  /** `broken` says that reading the directory fails after the names. */
  datatype Directory = Listing(names: seq<string>, broken: bool) | Closed

  /** The file system and the library calls the parser makes. */
  datatype Environment = Environment(
    files: map<string, File>,
    directories: map<string, Directory>,
    selinuxEnabled: bool,
    selinuxPolicyRoot: Option<string>,
    sessionServiceDirs: seq<string>,
    systemServiceDirs: seq<string>,
    dirname: string -> string,
    concatDirAndFile: (string, string) -> string,
    parseInt: string -> Option<int>,
    isUsableRule: (Element, Attributes, bool) -> bool,
    setApparmorMode: Option<string> -> bool)

  /** The fields of BusConfigParser that end up in the bus. */
  datatype Settings = Settings(
    limits: map<string, int>,
    user: Option<string>,
    busType: Option<string>,
    pidfile: Option<string>,
    serviceHelper: Option<string>,
    fork: bool,
    keepUmask: bool,
    allowAnonymous: bool,
    syslog: bool,
    listenOn: seq<string>,
    mechanisms: seq<string>,
    serviceDirs: seq<string>,
    confDirs: seq<string>,
    serviceContexts: map<string, string>)

  /** What an event asks to be done to the settings. */
  datatype Action =
    | Nothing
    | SetUser(value: string)
    | SetType(value: string)
    | SetPidfile(value: string)
    | SetServiceHelper(value: string)
    | SetFork
    | SetKeepUmask
    | SetAllowAnonymous
    | SetSyslog
    | AddListen(value: string)
    | AddMechanism(value: string)
    | AddServiceDirs(dirs: seq<string>)
    | AddConfDir(path: string)
    | AddContext(own: string, context: string)
    | SetLimit(name: string, limit: int)
    | ReadFile(path: string, ignoreMissing: bool)
    | ReadDirectory(path: string)

  // ---- the stack machine ------------------------------------------------------------------

  function Push(stack: seq<Element>, kind: Kind, attributes: Attributes): seq<Element> {
    stack + [Element(kind, false, attributes, 0)]
  }

  function Find(attributes: Attributes, name: string): Option<string> {
    if attributes == [] then None
    else if attributes[0].0 == name then Some(attributes[0].1)
    else Find(attributes[1..], name)
  }

  /** locate_attributes: only known names, each at most once. */
  predicate Located(attributes: Attributes, names: seq<string>) {
    && (forall i :: 0 <= i < |attributes| ==> attributes[i].0 in names)
    && (forall i, j :: 0 <= i < j < |attributes| ==> attributes[i].0 != attributes[j].0)
  }

  predicate YesOrNo(value: Option<string>) {
    value == None || value == Some("yes") || value == Some("no")
  }

  const INCLUDE_NAMES := ["ignore_missing", "if_selinux_enabled", "selinux_root_relative"]
  const POLICY_NAMES := ["context", "user", "group", "at_console"]

  predicate IncludeAllowed(attributes: Attributes) {
    && Located(attributes, INCLUDE_NAMES)
    && YesOrNo(Find(attributes, "ignore_missing"))
    && YesOrNo(Find(attributes, "if_selinux_enabled"))
    && YesOrNo(Find(attributes, "selinux_root_relative"))
  }

  predicate PolicyAllowed(attributes: Attributes) {
    && Located(attributes, POLICY_NAMES) && |attributes| == 1
    && Find(attributes, "context") in {None, Some("default"), Some("mandatory")}
    && Find(attributes, "at_console") in {None, Some("true"), Some("false")}
  }

  predicate AssociateAllowed(attributes: Attributes) {
    && Located(attributes, ["own", "context"])
    && Find(attributes, "own").Some? && Find(attributes, "context").Some?
  }

  /** start_busconfig_child */
  function StartChild(env: Environment, stack: seq<Element>, kind: Kind,
                      attributes: Attributes): Result<(seq<Element>, Action), Error> {
    var pushed := Push(stack, kind, attributes);
    match kind
    case User | ConfigType | Pidfile | Listen | Auth | ServiceHelper | IncludeDir | ServiceDir | Selinux =>
      if attributes == [] then Ok((pushed, Nothing)) else Err(Failed)
    case Fork => if attributes == [] then Ok((pushed, SetFork)) else Err(Failed)
    case Syslog => if attributes == [] then Ok((pushed, SetSyslog)) else Err(Failed)
    case KeepUmask => if attributes == [] then Ok((pushed, SetKeepUmask)) else Err(Failed)
    case AllowAnonymous => if attributes == [] then Ok((pushed, SetAllowAnonymous)) else Err(Failed)
    case StandardSessionServiceDirs =>
      if attributes == [] then Ok((pushed, AddServiceDirs(env.sessionServiceDirs))) else Err(Failed)
    case StandardSystemServiceDirs =>
      if attributes == [] then Ok((pushed, AddServiceDirs(env.systemServiceDirs))) else Err(Failed)
    case Include => if IncludeAllowed(attributes) then Ok((pushed, Nothing)) else Err(Failed)
    case Policy => if PolicyAllowed(attributes) then Ok((pushed, Nothing)) else Err(Failed)
    case Limit =>
      if Located(attributes, ["name"]) && Find(attributes, "name").Some? then Ok((pushed, Nothing)) else Err(Failed)
    case Apparmor =>
      if Located(attributes, ["mode"]) && env.setApparmorMode(Find(attributes, "mode"))
      then Ok((pushed, Nothing)) else Err(Failed)
    case BusConfig | Allow | Deny | Associate | Unknown => Err(Failed)
  }

  /** bus_config_parser_start_element */
  function StartElement(env: Environment, stack: seq<Element>, kind: Kind,
                        attributes: Attributes): Result<(seq<Element>, Action), Error> {
    var pushed := Push(stack, kind, attributes);
    if stack == [] then
      if kind == BusConfig && attributes == [] then Ok((pushed, Nothing)) else Err(Failed)
    else
      var top := stack[|stack| - 1];
      match top.kind
      case BusConfig => StartChild(env, stack, kind, attributes)
      case Policy =>
        if (kind == Allow || kind == Deny) && env.isUsableRule(top, attributes, kind == Allow)
        then Ok((pushed, Nothing))
        else Err(Failed)
      case Selinux =>
        if kind == Associate && AssociateAllowed(attributes) then
          Ok((pushed, AddContext(Find(attributes, "own").value, Find(attributes, "context").value)))
        else Err(Failed)
      case _ => Err(Failed)
  }

  predicate IsWhite(c: char) { c == ' ' || c == '\t' || c == '\n' || c == '\r' }

  predicate AllWhitespace(text: string) {
    forall i :: 0 <= i < |text| ==> IsWhite(text[i])
  }

  /** make_full_path */
  function FullPath(env: Environment, basedir: string, filename: string): string {
    if |filename| > 0 && filename[0] == '/' then filename else env.concatDirAndFile(basedir, filename)
  }

  /** The directory an include path is relative to; None if it cannot be told. */
  function IncludeBase(env: Environment, basedir: string, e: Element): Option<string> {
    if Find(e.attributes, "selinux_root_relative") == Some("yes") then env.selinuxPolicyRoot else Some(basedir)
  }

  function Marked(stack: seq<Element>, e: Element): seq<Element>
    requires stack != []
  {
    stack[..|stack| - 1] + [e.(hadContent := true)]
  }

  /** bus_config_parser_content, up to the reading of further files */
  function ElementContent(env: Environment, basedir: string, stack: seq<Element>,
                          text: string): Result<(seq<Element>, Action), Error> {
    if stack == [] || stack[|stack| - 1].hadContent then Err(Failed)
    else
      var e := stack[|stack| - 1];
      match e.kind
      case IncludeDir => Ok((Marked(stack, e), ReadDirectory(FullPath(env, basedir, text))))
      case Include => IncludeContent(env, basedir, stack, e, text)
      case _ => PlainContent(env, basedir, stack, e, text)
  }

  /** The text of an <include>: a path, possibly below the SELinux policy root. */
  function IncludeContent(env: Environment, basedir: string, stack: seq<Element>, e: Element, text: string)
    : Result<(seq<Element>, Action), Error>
    requires stack != []
  {
    if Find(e.attributes, "if_selinux_enabled") == Some("yes") && !env.selinuxEnabled
    then Ok((Marked(stack, e), Nothing))
    else if IncludeBase(env, basedir, e) == None then Err(Failed)
    else
      Ok((Marked(stack, e), ReadFile(FullPath(env, IncludeBase(env, basedir, e).value, text),
                                     Find(e.attributes, "ignore_missing") == Some("yes"))))
  }

  /** The text of an element that reads no further file. */
  function PlainContent(env: Environment, basedir: string, stack: seq<Element>, e: Element,
                        text: string): Result<(seq<Element>, Action), Error>
    requires stack != []
  {
    match e.kind
    case Pidfile => Ok((Marked(stack, e), SetPidfile(text)))
    case User => Ok((Marked(stack, e), SetUser(text)))
    case ConfigType => Ok((Marked(stack, e), SetType(text)))
    case Listen => Ok((Marked(stack, e), AddListen(text)))
    case Auth => Ok((Marked(stack, e), AddMechanism(text)))
    case ServiceHelper => Ok((Marked(stack, e), SetServiceHelper(FullPath(env, basedir, text))))
    case ServiceDir => Ok((Marked(stack, e), AddServiceDirs([FullPath(env, basedir, text)])))
    case Limit =>
      var parsed := env.parseInt(text);
      if parsed == None then Err(Failed) else Ok((Marked(stack, e.(limitValue := parsed.value)), Nothing))
    case _ => if AllWhitespace(text) then Ok((stack, Nothing)) else Err(Failed)
  }

  predicate NeedsContent(kind: Kind) {
    kind in {Include, User, ConfigType, Listen, Pidfile, Auth, ServiceDir, ServiceHelper, IncludeDir, Limit}
  }

  const LONG_LIMITS := ["max_incoming_bytes", "max_incoming_unix_fds", "max_outgoing_bytes",
                       "max_outgoing_unix_fds", "max_message_size", "max_message_unix_fds"]
  const INT_LIMITS := ["service_start_timeout", "auth_timeout", "pending_fd_timeout", "reply_timeout",
                      "max_completed_connections", "max_incomplete_connections", "max_connections_per_user",
                      "max_pending_service_starts", "max_names_per_connection",
                      "max_match_rules_per_connection", "max_replies_per_connection"]

  /** set_limit accepts the name and the value. */
  predicate LimitAllowed(name: string, value: int) {
    value >= 0 && (name in LONG_LIMITS || (name in INT_LIMITS && value <= MAX_INT))
  }

  /** bus_config_parser_end_element */
  function EndElement(stack: seq<Element>, kind: Kind): Result<(seq<Element>, Action), Error> {
    if stack == [] || stack[|stack| - 1].kind != kind then Err(Failed)
    else
      var e, popped := stack[|stack| - 1], stack[..|stack| - 1];
      if NeedsContent(kind) && !e.hadContent then Err(Failed)
      else if kind != Limit then Ok((popped, Nothing))
      else
        match Find(e.attributes, "name")
        case None => Err(Failed)
        case Some(name) =>
          if LimitAllowed(name, e.limitValue) then Ok((popped, SetLimit(name, e.limitValue))) else Err(Failed)
  }

  function Interpret(env: Environment, basedir: string, stack: seq<Element>,
                     event: Event): Result<(seq<Element>, Action), Error> {
    match event
    case Start(kind, attributes) => StartElement(env, stack, kind, attributes)
    case Content(text) => ElementContent(env, basedir, stack, text)
    case End(kind) => EndElement(stack, kind)
  }

  // ---- settings -----------------------------------------------------------------------------

  function AppendUnique(dirs: seq<string>, dir: string): seq<string> {
    if dir in dirs then dirs else dirs + [dir]
  }

  /** service_dirs_append_unique_or_free for each directory in turn */
  function AppendAllUnique(dirs: seq<string>, more: seq<string>): seq<string> {
    if more == [] then dirs else AppendUnique(AppendAllUnique(dirs, more[..|more| - 1]), more[|more| - 1])
  }

  /** What an action other than reading a file does. */
  function Applied(s: Settings, a: Action): Settings {
    match a
    case SetUser(v) => s.(user := Some(v))
    case SetType(v) => s.(busType := Some(v))
    case SetPidfile(v) => s.(pidfile := Some(v))
    case SetServiceHelper(v) => s.(serviceHelper := Some(v))
    case SetFork => s.(fork := true)
    case SetKeepUmask => s.(keepUmask := true)
    case SetAllowAnonymous => s.(allowAnonymous := true)
    case SetSyslog => s.(syslog := true)
    case AddListen(v) => s.(listenOn := s.listenOn + [v])
    case AddMechanism(v) => s.(mechanisms := s.mechanisms + [v])
    case AddServiceDirs(dirs) => s.(serviceDirs := AppendAllUnique(s.serviceDirs, dirs))
    case AddConfDir(path) => s.(confDirs := s.confDirs + [path])
    case AddContext(own, context) => s.(serviceContexts := s.serviceContexts[own := context])
    case SetLimit(name, v) => s.(limits := s.limits[name := v])
    case Nothing | ReadFile(_, _) | ReadDirectory(_) => s
  }

  /** A parser that has not read anything yet. */
  function Blank(limits: map<string, int>): Settings {
    Settings(limits, None, None, None, None, false, false, false, false, [], [], [], [], map[])
  }

  function Either(later: Option<string>, earlier: Option<string>): Option<string> {
    if later.Some? then later else earlier
  }

  /** merge_included, and the limits handed back after it */
  function Absorb(s: Settings, included: Settings): Settings {
    Settings(
      included.limits,
      Either(included.user, s.user),
      Either(included.busType, s.busType),
      Either(included.pidfile, s.pidfile),
      Either(included.serviceHelper, s.serviceHelper),
      s.fork || included.fork,
      s.keepUmask || included.keepUmask,
      s.allowAnonymous || included.allowAnonymous,
      s.syslog,
      s.listenOn + included.listenOn,
      s.mechanisms + included.mechanisms,
      AppendAllUnique(s.serviceDirs, included.serviceDirs),
      s.confDirs + included.confDirs,
      s.serviceContexts + included.serviceContexts)
  }

  // ---- reading files, as the code does ---------------------------------------------------------

  function Left(env: Environment, included: seq<string>): set<string> {
    set file | file in env.files && file !in included
  }

  lemma LeftShrinks(env: Environment, included: seq<string>, path: string)
    requires path in env.files && path !in included
    ensures |Left(env, included + [path])| < |Left(env, included)|
  {
    assert Left(env, included + [path]) == Left(env, included) - {path};
  }

  /** The included files being read are different files. */
  ghost predicate Distinct(env: Environment, included: seq<string>) {
    NoDuplicates(included) && forall i :: 0 <= i < |included| ==> included[i] in env.files
  }

  /** bus_config_parser_finished */
  function Finished(stack: seq<Element>, s: Settings, toplevel: bool): Result<Settings, Error> {
    if stack != [] then Err(Failed)
    else if toplevel && s.listenOn == [] then Err(Failed)
    else Ok(s)
  }

  /** The parsing of a document that starts with the settings `s`. */
  function Run(env: Environment, basedir: string, stack: seq<Element>, s: Settings, included: seq<string>,
               events: seq<Event>)
    : Result<(seq<Element>, Settings), Error>
    decreases |Left(env, included)|, 5, |events|
  {
    if events == [] then Ok((stack, s))
    else
      match Interpret(env, basedir, stack, events[0])
      case Err(e) => Err(e)
      case Ok(next) =>
        match Perform(env, s, next.1, included)
        case Err(e) => Err(e)
        case Ok(s') => Run(env, basedir, next.0, s', included, events[1..])
  }

  function Perform(env: Environment, s: Settings, a: Action, included: seq<string>): Result<Settings, Error>
    decreases |Left(env, included)|, 4, 0
  {
    match a
    case ReadFile(path, ignoreMissing) => IncludeFile(env, s, path, ignoreMissing, included)
    case ReadDirectory(path) => IncludeDirectory(env, s, path, included)
    case _ => Ok(Applied(s, a))
  }

  /** include_file: a parser of its own for the file, merged if that succeeds */
  function IncludeFile(env: Environment, s: Settings, path: string, ignoreMissing: bool,
                       included: seq<string>): Result<Settings, Error>
    decreases |Left(env, included)|, 1, 0
  {
    if path in included then Err(Failed)
    else
      match Load(env, path, s.limits, included)
      case Ok(child) => Ok(Absorb(s, child))
      case Err(e) => if e == FileNotFound && ignoreMissing then Ok(s) else Err(e)
  }

  /** include_dir */
  function IncludeDirectory(env: Environment, s: Settings, path: string, included: seq<string>): Result<Settings, Error>
    decreases |Left(env, included)|, 3, 0
  {
    if path !in env.directories then Ok(s)
    else
      match env.directories[path]
      case Closed => Err(Failed)
      case Listing(names, broken) =>
        var s' := IncludeAll(env, s, path, names, included);
        if broken then Err(Failed) else Ok(Applied(s', AddConfDir(path)))
  }

  const CONF := ".conf"

  predicate IsConf(path: string) {
    |path| >= |CONF| && path[|path| - |CONF|..] == CONF
  }

  /** The files of a directory; one that fails is passed over. */
  function IncludeAll(env: Environment, s: Settings, dir: string, names: seq<string>, included: seq<string>): Settings
    decreases |Left(env, included)|, 2, |names|
  {
    if names == [] then s
    else
      var path := env.concatDirAndFile(dir, names[0]);
      var next := if IsConf(path) then IncludeFile(env, s, path, true, included) else Ok(s);
      IncludeAll(env, if next.Ok? then next.value else s, dir, names[1..], included)
  }

  /** bus_config_load for an included file */
  function Load(env: Environment, path: string, limits: map<string, int>,
                included: seq<string>): Result<Settings, Error>
    requires path !in included
    decreases |Left(env, included)|, 0, 0
  {
    if path !in env.files then Err(FileNotFound)
    else
      match env.files[path]
      case Unreadable => Err(Failed)
      case Document(events, wellFormed) =>
        LeftShrinks(env, included, path);
        match Run(env, env.dirname(path), [], Blank(limits), included + [path], events)
        case Err(e) => Err(e)
        case Ok(end) => if !wellFormed then Err(Failed) else Finished(end.0, end.1, false)
  }

  /** bus_config_load for the file the bus was started with */
  function LoadTop(env: Environment, path: string): Result<Settings, Error> {
    if path !in env.files then Err(FileNotFound)
    else
      match env.files[path]
      case Unreadable => Err(Failed)
      case Document(events, wellFormed) =>
        match Run(env, env.dirname(path), [], Blank(DefaultLimits()), [], events)
        case Err(e) => Err(e)
        case Ok(end) => if !wellFormed then Err(Failed) else Finished(end.0, end.1, true)
  }

  const ONE_MEGABYTE := 1024 * 1024
  const DEFAULT_MESSAGE_UNIX_FDS := 16

  function DefaultLimits(): map<string, int> {
    map["max_incoming_bytes" := ONE_MEGABYTE * 127, "max_outgoing_bytes" := ONE_MEGABYTE * 127,
        "max_message_size" := ONE_MEGABYTE * 32,
        "max_incoming_unix_fds" := DEFAULT_MESSAGE_UNIX_FDS * 4,
        "max_outgoing_unix_fds" := DEFAULT_MESSAGE_UNIX_FDS * 4,
        "max_message_unix_fds" := DEFAULT_MESSAGE_UNIX_FDS,
        "service_start_timeout" := 25000, "auth_timeout" := 30000, "pending_fd_timeout" := 150000,
        "max_incomplete_connections" := 64, "max_connections_per_user" := 256, "max_completed_connections" := 2048,
        "max_pending_service_starts" := 512, "max_names_per_connection" := 512,
        "max_match_rules_per_connection" := 512, "reply_timeout" := -1, "max_replies_per_connection" := 128]
  }
}

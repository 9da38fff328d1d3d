/** BusConfigParser (bus/config-parser.c) over the fields it changes in place,
    and the loading of a file by bus/config-loader-expat.c. */
module ConfigParser {
  import opened Collections
  import opened ConfigTheory

  class BusConfigParser {
    const basedir: string
    const isToplevel: bool
    var stack: seq<Element>
    /** What has been read so far. */
    var settings: Settings
    /** The files being read, outermost first, without the top-level one. */
    var includedFiles: seq<string>

    /** bus_config_parser_new */
    constructor (basedir: string, isToplevel: bool, parent: BusConfigParser?)
      ensures this.basedir == basedir && this.isToplevel == isToplevel && stack == []
      ensures settings == Blank(if parent == null then DefaultLimits() else parent.settings.limits)
      ensures includedFiles == if parent == null then [] else parent.includedFiles
    {
      this.basedir, this.isToplevel, stack := basedir, isToplevel, [];
      settings := Blank(if parent == null then DefaultLimits() else parent.settings.limits);
      includedFiles := if parent == null then [] else parent.includedFiles;
    }

    /** service_dirs_find_dir */
    static method FindDir(dirs: seq<string>, dir: string) returns (found: bool)
      ensures found <==> dir in dirs
    {
      var link := 0;
      while link < |dirs|
        invariant 0 <= link <= |dirs| && dir !in dirs[..link]
      {
        if dirs[link] == dir {
          return true;
        }
        assert dirs[..link + 1] == dirs[..link] + [dirs[link]];
        link := link + 1;
      }
      assert dirs[..link] == dirs;
      return false;
    }

    /** Moves the links of a list to the end of the service directories, except
        those that are there already. */
    static method AppendLinksUnique(dirs: seq<string>, links: seq<string>) returns (all: seq<string>)
      ensures all == AppendAllUnique(dirs, links)
    {
      all := dirs;
      var rest := links;
      ghost var moved := 0;
      while rest != []
        invariant 0 <= moved <= |links| && rest == links[moved..]
        invariant all == AppendAllUnique(dirs, links[..moved])
        decreases |rest|
      {
        assert links[..moved + 1][..moved] == links[..moved];
        var link := rest[0];
        rest := rest[1..];
        var found := FindDir(all, link);
        if !found {
          all := all + [link];
        }
        moved := moved + 1;
      }
      assert links[..moved] == links;
    }

    /** Moves all links of a list to the end of another. */
    static method AppendLinks(list: seq<string>, links: seq<string>) returns (all: seq<string>)
      ensures all == list + links
    {
      all := list;
      var rest := links;
      while rest != []
        invariant all + rest == list + links
        decreases |rest|
      {
        all, rest := all + [rest[0]], rest[1..];
      }
    }

    /** merge_service_context_hash; `order` is the order of the table. */
    static method MergeContexts(dest: map<string, string>, from: map<string, string>,
                                order: seq<string>) returns (merged: map<string, string>)
      requires forall name :: name in order <==> name in from
      ensures merged == dest + from
    {
      merged := dest;
      var i := 0;
      while i < |order|
        invariant 0 <= i <= |order|
        invariant forall name :: name in merged <==> name in dest || name in order[..i]
        invariant forall name :: name in merged ==>
          merged[name] == if name in order[..i] then from[name] else dest[name]
      {
        assert order[..i + 1] == order[..i] + [order[i]];
        assert order[i] in order;
        merged := merged[order[i] := from[order[i]]];
        i := i + 1;
      }
      assert order[..i] == order;
      assert merged == dest + from;
    }

    /** merge_included; `order` is the order of the included context table. */
    method MergeIncluded(included: BusConfigParser, order: seq<string>)
      requires included != this && forall name :: name in order <==> name in included.settings.serviceContexts
      modifies this`settings, included`settings
      ensures settings == Absorb(old(settings), old(included.settings)).(limits := old(settings.limits))
      ensures included.settings.limits == old(included.settings.limits)
    {
      var contexts := MergeContexts(settings.serviceContexts, included.settings.serviceContexts, order);
      settings := settings.(serviceContexts := contexts);
      TakeValues(included);
      TakeFlags(included);
      TakeLists(included);
      hide Either, AppendAllUnique;
    }

    /** A flag set in the included parser is set here too. */
    method TakeFlags(included: BusConfigParser)
      requires included != this
      modifies this`settings
      ensures var s, more := old(settings), included.settings;
        settings == s.(fork := s.fork || more.fork,
                       keepUmask := s.keepUmask || more.keepUmask,
                       allowAnonymous := s.allowAnonymous || more.allowAnonymous)
    {
      if included.settings.fork {
        settings := settings.(fork := true);
      }
      if included.settings.keepUmask {
        settings := settings.(keepUmask := true);
      }
      if included.settings.allowAnonymous {
        settings := settings.(allowAnonymous := true);
      }
    }

    /** The strings that the included parser has are taken from it. */
    method TakeValues(included: BusConfigParser)
      requires included != this
      modifies this`settings, included`settings
      ensures var s, more := old(settings), old(included.settings);
        settings == s.(user := Either(more.user, s.user),
                       busType := Either(more.busType, s.busType),
                       pidfile := Either(more.pidfile, s.pidfile),
                       serviceHelper := Either(more.serviceHelper, s.serviceHelper))
      ensures included.settings ==
        old(included.settings).(user := None, busType := None, pidfile := None, serviceHelper := None)
    {
      var more := included.settings;
      settings := settings.(user := Either(more.user, settings.user),
                            busType := Either(more.busType, settings.busType),
                            pidfile := Either(more.pidfile, settings.pidfile),
                            serviceHelper := Either(more.serviceHelper, settings.serviceHelper));
      included.settings := more.(user := None, busType := None, pidfile := None, serviceHelper := None);
    }

    /** The links of the included lists are moved over. */
    method TakeLists(included: BusConfigParser)
      requires included != this
      modifies this`settings, included`settings
      ensures var s, more := old(settings), old(included.settings);
        settings == s.(listenOn := s.listenOn + more.listenOn,
                       mechanisms := s.mechanisms + more.mechanisms,
                       serviceDirs := AppendAllUnique(s.serviceDirs, more.serviceDirs),
                       confDirs := s.confDirs + more.confDirs)
      ensures included.settings ==
        old(included.settings).(listenOn := [], mechanisms := [], serviceDirs := [], confDirs := [])
    {
      var listenOn := AppendLinks(settings.listenOn, included.settings.listenOn);
      var mechanisms := AppendLinks(settings.mechanisms, included.settings.mechanisms);
      var serviceDirs := AppendLinksUnique(settings.serviceDirs, included.settings.serviceDirs);
      var confDirs := AppendLinks(settings.confDirs, included.settings.confDirs);
      settings := settings.(listenOn := listenOn, mechanisms := mechanisms,
                            serviceDirs := serviceDirs, confDirs := confDirs);
      included.settings := included.settings.(listenOn := [], mechanisms := [], serviceDirs := [], confDirs := []);
    }

    /** push_element */
    method PushElement(kind: Kind, attributes: Attributes)
      modifies `stack
      ensures stack == Push(old(stack), kind, attributes)
    {
      stack := stack + [Element(kind, false, attributes, 0)];
    }

    method AddContextOf(own: string, context: string)
      modifies `settings
      ensures settings == Applied(old(settings), AddContext(own, context))
    {
      settings := settings.(serviceContexts := settings.serviceContexts[own := context]);
    }

    method AddServiceDirsOf(dirs: seq<string>)
      modifies `settings
      ensures settings == Applied(old(settings), AddServiceDirs(dirs))
    {
      var serviceDirs := AppendLinksUnique(settings.serviceDirs, dirs);
      settings := settings.(serviceDirs := serviceDirs);
    }

    /** service_dirs_append_unique_or_free */
    method AddServiceDir(dir: string)
      modifies `settings
      ensures settings == Applied(old(settings), AddServiceDirs([dir]))
    {
      var found := FindDir(settings.serviceDirs, dir);
      assert [dir][..0] == [];
      assert AppendAllUnique(settings.serviceDirs, [dir]) ==
        AppendUnique(AppendAllUnique(settings.serviceDirs, []), dir);
      if !found {
        settings := settings.(serviceDirs := settings.serviceDirs + [dir]);
      }
    }

    /** Whether the outcome is the one the stack machine and the settings call for. */
    static ghost predicate Follows(r: Result<(seq<Element>, Action), Error>, s: Settings,
                                   error: Option<Error>, stack: seq<Element>, s': Settings) {
      match r
      case Err(e) => error == Some(e)
      case Ok(next) => error == None && stack == next.0 && s' == Applied(s, next.1)
    }

    /** The same for an event that may read further files. */
    static ghost predicate Performs(env: Environment, r: Result<(seq<Element>, Action), Error>, s: Settings,
                                    included: seq<string>, 
                                    error: Option<Error>, stack: seq<Element>, s': Settings) {
      match r
      case Err(e) => error == Some(e)
      case Ok(next) =>
        match Perform(env, s, next.1, included)
        case Err(e) => error == Some(e)
        case Ok(after) => error == None && stack == next.0 && s' == after
    }

    /** bus_config_parser_start_element */
    method StartOf(env: Environment, kind: Kind, attributes: Attributes) returns (error: Option<Error>)
      modifies this
      ensures Follows(StartElement(env, old(stack), kind, attributes), old(settings), error, stack, settings)
      ensures includedFiles == old(includedFiles)
    {
      hide StartChild, Find, Located;
      if stack == [] {
        if kind != BusConfig || attributes != [] {
          return Some(Failed);
        }
        PushElement(kind, attributes);
        return None;
      }
      var top := stack[|stack| - 1];
      if top.kind == BusConfig {
        error := StartChildOf(env, kind, attributes);
      } else if top.kind == Policy {
        if (kind != Allow && kind != Deny) || !env.isUsableRule(top, attributes, kind == Allow) {
          return Some(Failed);
        }
        PushElement(kind, attributes);
        return None;
      } else if top.kind == Selinux {
        if kind != Associate || !AssociateAllowed(attributes) {
          return Some(Failed);
        }
        PushElement(kind, attributes);
        AddContextOf(Find(attributes, "own").value, Find(attributes, "context").value);
        return None;
      } else {
        return Some(Failed);
      }
    }

    /** start_busconfig_child */
    method StartChildOf(env: Environment, kind: Kind, attributes: Attributes) returns (error: Option<Error>)
      modifies this
      ensures Follows(StartChild(env, old(stack), kind, attributes), old(settings), error, stack, settings)
      ensures includedFiles == old(includedFiles)
    {
      var allowed :=
        match kind
        case Include => IncludeAllowed(attributes)
        case Policy => PolicyAllowed(attributes)
        case Limit => Located(attributes, ["name"]) && Find(attributes, "name").Some?
        case Apparmor => Located(attributes, ["mode"]) && env.setApparmorMode(Find(attributes, "mode"))
        case BusConfig | Allow | Deny | Associate | Unknown => false
        case _ => attributes == [];
      if !allowed {
        return Some(Failed);
      }
      PushElement(kind, attributes);
      match kind {
        case Fork => settings := settings.(fork := true);
        case Syslog => settings := settings.(syslog := true);
        case KeepUmask => settings := settings.(keepUmask := true);
        case AllowAnonymous => settings := settings.(allowAnonymous := true);
        case StandardSessionServiceDirs => AddServiceDirsOf(env.sessionServiceDirs);
        case StandardSystemServiceDirs => AddServiceDirsOf(env.systemServiceDirs);
        case _ =>
      }
      return None;
    }

    /** bus_config_parser_content */
    method ContentOf(env: Environment, text: string) returns (error: Option<Error>)
      requires Distinct(env, includedFiles)
      modifies this
      ensures Performs(env, ElementContent(env, basedir, old(stack), text), old(settings), includedFiles, error,
        stack, settings)
      ensures includedFiles == old(includedFiles)
      decreases |Left(env, includedFiles)|, 4, 0
    {
      if stack == [] || stack[|stack| - 1].hadContent {
        return Some(Failed);
      }
      var e := stack[|stack| - 1];
      if e.kind == IncludeDir {
        hide Applied, FullPath, Distinct, Marked, IncludeDirectory;
        stack := Marked(stack, e);
        error := IncludeDirectoryOf(env, FullPath(env, basedir, text));
      } else if e.kind == Include {
        hide Performs, IncludeContent, Distinct;
        error := IncludeContentOf(env, e, text);
      } else {
        PlainReadsNothing(env, basedir, stack, e, text);
        hide Applied, PlainContent, Distinct, IncludeFile, IncludeDirectory;
        error := PlainContentOf(env, e, text);
      }
    }

    /** The text of an element that reads no further file. */
    method PlainContentOf(env: Environment, e: Element, text: string) returns (error: Option<Error>)
      requires stack != []
      modifies `stack, `settings
      ensures Follows(PlainContent(env, basedir, old(stack), e, text), old(settings), error, stack, settings)
    {
      if e.kind in {Pidfile, User, ConfigType, Listen, Auth, ServiceHelper, ServiceDir} {
        stack := Marked(stack, e);
      }
      match e.kind {
        case Pidfile => settings := settings.(pidfile := Some(text));
        case User => settings := settings.(user := Some(text));
        case ConfigType => settings := settings.(busType := Some(text));
        case Listen => settings := settings.(listenOn := settings.listenOn + [text]);
        case Auth => settings := settings.(mechanisms := settings.mechanisms + [text]);
        case ServiceHelper => settings := settings.(serviceHelper := Some(FullPath(env, basedir, text)));
        case ServiceDir => AddServiceDir(FullPath(env, basedir, text));
        case Limit =>
          var value := env.parseInt(text);
          if value == None {
            return Some(Failed);
          }
          stack := Marked(stack, e.(limitValue := value.value));
        case _ =>
          if !AllWhitespace(text) {
            return Some(Failed);
          }
      }
      return None;
    }

    /** The text of an <include>. */
    method IncludeContentOf(env: Environment, e: Element, text: string) returns (error: Option<Error>)
      requires stack != [] && Distinct(env, includedFiles)
      modifies this
      ensures Performs(env, IncludeContent(env, basedir, old(stack), e, text), old(settings), includedFiles,
        error, stack, settings)
      ensures includedFiles == old(includedFiles)
      decreases |Left(env, includedFiles)|, 2, 0
    {
      hide Find, FullPath, Distinct, IncludeFile;
      if Find(e.attributes, "if_selinux_enabled") == Some("yes") && !env.selinuxEnabled {
        stack := Marked(stack, e);
        return None;
      }
      var root := basedir;
      if Find(e.attributes, "selinux_root_relative") == Some("yes") {
        if env.selinuxPolicyRoot == None {
          return Some(Failed);
        }
        root := env.selinuxPolicyRoot.value;
      }
      stack := Marked(stack, e);
      error := IncludeFileOf(env, FullPath(env, root, text), Find(e.attributes, "ignore_missing") == Some("yes"));
    }

    /** bus_config_parser_end_element */
    method EndOf(kind: Kind) returns (error: Option<Error>)
      modifies this
      ensures Follows(EndElement(old(stack), kind), old(settings), error, stack, settings)
      ensures includedFiles == old(includedFiles)
    {
      if stack == [] || stack[|stack| - 1].kind != kind {
        return Some(Failed);
      }
      var e := stack[|stack| - 1];
      if NeedsContent(kind) && !e.hadContent {
        return Some(Failed);
      }
      if kind == Limit {
        var name := Find(e.attributes, "name");
        if name == None {
          return Some(Failed);
        }
        error := SetLimitOf(name.value, e.limitValue);
        if error.Some? {
          return;
        }
      }
      stack := stack[..|stack| - 1];
      return None;
    }

    /** set_limit: the field is assigned before the value is checked. */
    method SetLimitOf(name: string, value: int) returns (error: Option<Error>)
      modifies `settings
      ensures error == if LimitAllowed(name, value) then None else Some(Failed)
      ensures error == None ==> settings == Applied(old(settings), SetLimit(name, value))
    {
      if name !in LONG_LIMITS && name !in INT_LIMITS {
        return Some(Failed);
      }
      settings := settings.(limits := settings.limits[name := value]);
      if value < 0 || (name in INT_LIMITS && name !in LONG_LIMITS && value > MAX_INT) {
        return Some(Failed);
      }
      return None;
    }

    /** include_file.  The list of files being read is restored afterwards. */
    method IncludeFileOf(env: Environment, path: string, ignoreMissing: bool) returns (error: Option<Error>)
      requires Distinct(env, includedFiles)
      modifies this
      ensures var r := IncludeFile(env, old(settings), path, ignoreMissing, old(includedFiles));
        match r
        case Err(e) => error == Some(e)
        case Ok(s) => error == None && settings == s
      ensures error.Some? ==> settings == old(settings)
      ensures stack == old(stack) && includedFiles == old(includedFiles)
      decreases |Left(env, includedFiles)|, 1, 0
    {
      if path in includedFiles {
        return Some(Failed);
      }
      ghost var before := includedFiles;
      includedFiles := includedFiles + [path];
      var included, problem := Load(env, path, this, before);
      includedFiles := includedFiles[..|includedFiles| - 1];
      if included == null {
        return if problem == FileNotFound && ignoreMissing then None else Some(problem);
      }
      var order := KeysOf(included.settings.serviceContexts);
      MergeIncluded(included, order);
      settings := settings.(limits := included.settings.limits);
      return None;
    }

    /** include_dir */
    method IncludeDirectoryOf(env: Environment, path: string) returns (error: Option<Error>)
      requires Distinct(env, includedFiles)
      modifies this
      ensures var r := IncludeDirectory(env, old(settings), path, old(includedFiles));
        match r
        case Err(e) => error == Some(e)
        case Ok(s) => error == None && settings == s
      ensures stack == old(stack) && includedFiles == old(includedFiles)
      decreases |Left(env, includedFiles)|, 3, 0
    {
      if path !in env.directories {
        return None;
      }
      if env.directories[path].Closed? {
        return Some(Failed);
      }
      var names := env.directories[path].names;
      var i := 0;
      while i < |names|
        invariant 0 <= i <= |names| && stack == old(stack) && includedFiles == old(includedFiles)
        invariant IncludeAll(env, settings, path, names[i..], includedFiles) ==
                  IncludeAll(env, old(settings), path, names, old(includedFiles))
      {
        assert names[i..][1..] == names[i + 1..];
        var file := env.concatDirAndFile(path, names[i]);
        if IsConf(file) {
          var problem := IncludeFileOf(env, file, true);
        }
        i := i + 1;
      }
      if env.directories[path].broken {
        return Some(Failed);
      }
      settings := settings.(confDirs := settings.confDirs + [path]);
      return None;
    }

    /** The events of a document, up to the first error. */
    method ReadEvents(env: Environment, events: seq<Event>) returns (error: Option<Error>)
      requires Distinct(env, includedFiles)
      modifies this
      ensures var r := Run(env, basedir, old(stack), old(settings), old(includedFiles), events);
        match r
        case Err(e) => error == Some(e)
        case Ok(end) => error == None && stack == end.0 && settings == end.1
      ensures includedFiles == old(includedFiles)
      decreases |Left(env, includedFiles)|, 5, 0
    {
      var i := 0;
      hide Interpret, Perform, Distinct;
      while i < |events|
        invariant 0 <= i <= |events| && includedFiles == old(includedFiles)
        invariant Run(env, basedir, stack, settings, includedFiles, events[i..]) ==
                  Run(env, basedir, old(stack), old(settings), old(includedFiles), events)
      {
        assert events[i..][1..] == events[i + 1..];
        error := ReadEvent(env, events[i]);
        if error.Some? {
          return;
        }
        i := i + 1;
      }
      return None;
    }

    /** One event of the XML reader. */
    method ReadEvent(env: Environment, event: Event) returns (error: Option<Error>)
      requires Distinct(env, includedFiles)
      modifies this
      ensures Performs(env, Interpret(env, basedir, old(stack), event), old(settings), includedFiles, error,
        stack, settings)
      ensures includedFiles == old(includedFiles)
      decreases |Left(env, includedFiles)|, 4, 1
    {
      hide ElementContent, StartElement, EndElement, Distinct, Applied;
      match event {
        case Start(kind, attributes) =>
          StartReadsNothing(env, stack, kind, attributes);
          error := StartOf(env, kind, attributes);
        case Content(text) =>
          error := ContentOf(env, text);
        case End(kind) =>
          EndReadsNothing(stack, kind);
          error := EndOf(kind);
      }
    }

    /** bus_config_load for a file to be included; `before` are the files being
        read besides it. */
    static method Load(env: Environment, path: string, parent: BusConfigParser, ghost before: seq<string>)
      returns (parser: BusConfigParser?, error: Error)
      requires parent.includedFiles == before + [path] && path !in before && Distinct(env, before)
      ensures parser != null ==> fresh(parser)
      ensures var r := ConfigTheory.Load(env, path, parent.settings.limits, before);
        match r
        case Err(e) => parser == null && error == e
        case Ok(s) => parser != null && parser.settings == s
      decreases |Left(env, before)|, 0, 0
    {
      if path !in env.files {
        return null, FileNotFound;
      }
      if env.files[path].Unreadable? {
        return null, Failed;
      }
      LeftShrinks(env, before, path);
      parser := new BusConfigParser(env.dirname(path), false, parent);
      var problem := parser.ReadEvents(env, env.files[path].events);
      if problem.Some? {
        return null, problem.value;
      }
      if !env.files[path].wellFormed || parser.stack != [] {
        return null, Failed;
      }
      return parser, Failed;
    }
  }

  /** bus_config_load for the file the bus was started with. */
  method LoadToplevel(env: Environment, path: string) returns (parser: BusConfigParser?, error: Error)
    ensures var r := LoadTop(env, path);
      match r
      case Err(e) => parser == null && error == e
      case Ok(s) => parser != null && parser.settings == s
  {
    if path !in env.files {
      return null, FileNotFound;
    }
    if env.files[path].Unreadable? {
      return null, Failed;
    }
    parser := new BusConfigParser(env.dirname(path), true, null);
    var problem := parser.ReadEvents(env, env.files[path].events);
    if problem.Some? {
      return null, problem.value;
    }
    if !env.files[path].wellFormed || parser.stack != [] || parser.settings.listenOn == [] {
      return null, Failed;
    }
    return parser, Failed;
  }

  /** The keys of a table, in some order. */
  method KeysOf(table: map<string, string>) returns (order: seq<string>)
    ensures forall name :: name in order <==> name in table
  {
    order := [];
    var rest := table.Keys;
    while rest != {}
      invariant rest <= table.Keys
      invariant forall name :: name in order <==> name in table && name !in rest
      decreases rest
    {
      var name :| name in rest;
      order := order + [name];
      rest := rest - {name};
    }
  }

  lemma StartReadsNothing(env: Environment, stack: seq<Element>, kind: Kind, attributes: Attributes)
    ensures var r := StartElement(env, stack, kind, attributes);
      r.Ok? ==> !r.value.1.ReadFile? && !r.value.1.ReadDirectory?
  {
  }

  lemma EndReadsNothing(stack: seq<Element>, kind: Kind)
    ensures var r := EndElement(stack, kind); r.Ok? ==> !r.value.1.ReadFile? && !r.value.1.ReadDirectory?
  {
  }

  lemma PlainReadsNothing(env: Environment, basedir: string, stack: seq<Element>, e: Element, text: string)
    requires stack != [] && e.kind != IncludeDir && e.kind != Include
    ensures var r := PlainContent(env, basedir, stack, e, text);
      r.Ok? ==> !r.value.1.ReadFile? && !r.value.1.ReadDirectory?
  {
  }
}

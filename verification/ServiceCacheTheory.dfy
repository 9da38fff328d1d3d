/** The cache of service files (bus/activation.c), on values.

    Every service file is indexed twice: by the name it provides, and by its file
    name in the table of its directory.  Both indexes hold a reference to the
    same entry. */
module ServiceCacheTheory {
  import opened BusTypes
  import opened Collections

  /** A file name in one of the service directories. */
  datatype Path = Path(dir: string, filename: string)

  datatype Entry = Entry(
    name: string,
    exec: string,
    user: Option<string>,
    systemdService: Option<string>,
    path: Path,
    mtime: int,
    refcount: int)

  datatype Cache = Cache(
    entries: map<string, Address>,
    directories: set<string>,
    files: map<Path, Address>,    // the tables of all directories
    objects: map<Address, Entry>)

  /** What stat and the desktop-file parser say about a path. */
  datatype File =
    | Missing
    | Unreadable(mtime: int)
    | Readable(mtime: int, name: Option<string>, exec: Option<string>, user: Option<string>,
      systemdService: Option<string>)

  // ---- the invariant ----------------------------------------------------------------------

  function NameRefs(s: Cache, p: Address): int {
    if p in s.objects && s.objects[p].name in s.entries && s.entries[s.objects[p].name] == p then 1 else 0
  }

  function FileRefs(s: Cache, p: Address): int {
    if p in s.objects && s.objects[p].path in s.files && s.files[s.objects[p].path] == p then 1 else 0
  }

  /** The name leads to an entry of that name which its directory holds too. */
  predicate NameAgrees(s: Cache, name: string)
    requires name in s.entries
  {
    s.entries[name] in s.objects && s.objects[s.entries[name]].name == name && FileRefs(s, s.entries[name]) == 1
  }

  /** The file leads to its own entry. */
  predicate FileAgrees(s: Cache, path: Path)
    requires path in s.files
  {
    path.dir in s.directories && s.files[path] in s.objects && s.objects[s.files[path]].path == path
  }

  /** The reference count says exactly who holds the entry. */
  predicate CountAgrees(s: Cache, p: Address, held: Option<Address>)
    requires p in s.objects
  {
    && s.objects[p].refcount == NameRefs(s, p) + FileRefs(s, p) + (if held == Some(p) then 1 else 0)
    && s.objects[p].refcount > 0
  }

  /** `held` is the entry the running code has a reference to. */
  ghost predicate Indexed(s: Cache, held: Option<Address>) {
    && (forall name :: name in s.entries ==> NameAgrees(s, name))
    && (forall path :: path in s.files ==> FileAgrees(s, path))
    && (forall p :: p in s.objects ==> CountAgrees(s, p, held))
    && (held.Some? ==> held.value in s.objects)
  }

  /** The other direction as well: every file is found under its name. */
  ghost predicate FullyIndexed(s: Cache) {
    Indexed(s, None) && forall p :: p in s.objects ==> NameRefs(s, p) == 1
  }

  // ---- steps ----------------------------------------------------------------------------------

  function Ref(s: Cache, p: Address): Cache
    requires p in s.objects
  {
    s.(objects := s.objects[p := s.objects[p].(refcount := s.objects[p].refcount + 1)])
  }

  /** bus_activation_entry_unref */
  function Unref(s: Cache, p: Address): Cache
    requires p in s.objects
  {
    if s.objects[p].refcount > 1 then
      s.(objects := s.objects[p := s.objects[p].(refcount := s.objects[p].refcount - 1)])
    else s.(objects := s.objects - {p})
  }

  /** _dbus_hash_table_remove_string on the names */
  function RemoveName(s: Cache, name: string): Cache {
    if name in s.entries && s.entries[name] in s.objects then
      Unref(s.(entries := s.entries - {name}), s.entries[name])
    else s
  }

  /** _dbus_hash_table_remove_string on the files of a directory */
  function RemoveFile(s: Cache, path: Path): Cache {
    if path in s.files && s.files[path] in s.objects then Unref(s.(files := s.files - {path}), s.files[path]) else s
  }

  /** A new entry, held by both tables. */
  function AddEntry(s: Cache, path: Path, file: File, id: Address): Cache
    requires IsService(file)
  {
    s.(entries := s.entries[file.name.value := id],
       files := s.files[path := id],
       objects := s.objects[
         id := Entry(file.name.value, file.exec.value, file.user, file.systemdService, path, file.mtime, 2)])
  }

  /** The entry takes over what the file now says, and a new place among the
      names; the reference of the running code becomes that of the names. */
  function Rename(s: Cache, p: Address, file: File): Cache
    requires p in s.objects && IsService(file)
  {
    var o := s.objects[p].(name := file.name.value, exec := file.exec.value, user := file.user,
                           systemdService := file.systemdService, mtime := file.mtime);
    s.(entries := s.entries[file.name.value := p], objects := s.objects[p := o])
  }

  /** The required lines are there. */
  predicate IsService(file: File) {
    file.Readable? && file.name.Some? && file.exec.Some?
  }

  /** update_desktop_file_entry; `id` is the address of a new entry. */
  function Update(s: Cache, path: Path, file: File, id: Address): (result: (bool, Cache)) {
    if path.dir !in s.directories || !IsService(file) then (false, s)
    else if path !in s.files then
      if file.name.value in s.entries then (false, s) else (true, AddEntry(s, path, file, id))
    else
      var p := s.files[path];
      if p !in s.objects then (false, s)
      else
        var s1 := RemoveName(Ref(s, p), s.objects[p].name);
        if p !in s1.objects then (false, s1)
        else if file.name.value in s1.entries then (false, Unref(s1, p))
        else (true, Rename(s1, p, file))
  }

  /** check_service_file: the entry, if its file is still there. */
  function Check(s: Cache, p: Address, file: File): (result: (Option<Address>, Cache)) {
    if p !in s.objects then (None, s)
    else
      var o := s.objects[p];
      if file.Missing? then (None, RemoveFile(RemoveName(s, o.name), o.path))
      else if file.mtime > o.mtime && file.Readable? then (Some(p), Update(s, o.path, file, p).1)
      else (Some(p), s)
  }

  /** What update_directory does for one name of the listing. */
  function Visit(s: Cache, path: Path, file: File, id: Address): Cache {
    if !IsServiceFile(path.filename) || path.dir !in s.directories then s
    else if path in s.files then Check(s, s.files[path], file).1
    else Update(s, path, file, id).1
  }

  const SUFFIX := ".service"

  predicate IsServiceFile(f: string) {
    |f| >= |SUFFIX| && f[|f| - |SUFFIX|..] == SUFFIX
  }

  /** Every step the daemon takes on the cache. */
  datatype Event =
    | DirectoryAdded(dir: string)
    | Visited(path: Path, file: File, id: Address)
    | Checked(name: string, file: File)     // a request for a name that is known

  function Step(s: Cache, e: Event): Cache {
    match e
    case DirectoryAdded(d) => s.(directories := s.directories + {d})
    case Visited(path, file, id) => Visit(s, path, file, id)
    case Checked(name, file) => if name in s.entries then Check(s, s.entries[name], file).1 else s
  }

  // ---- every step keeps the indexes ----------------------------------------------------------

  lemma RefKeeps(s: Cache, p: Address)
    requires Indexed(s, None) && p in s.objects
    ensures Indexed(Ref(s, p), Some(p))
  {
  }

  lemma UnrefKeeps(s: Cache, p: Address)
    requires Indexed(s, Some(p))
    ensures Indexed(Unref(s, p), None)
  {
  }

  /** Taking a name out never frees its entry: the directory still holds it. */
  lemma RemoveNameShape(s: Cache, name: string, held: Option<Address>)
    requires Indexed(s, held)
    ensures var s' := RemoveName(s, name);
      && s'.entries == s.entries - {name} && s'.directories == s.directories && s'.files == s.files &&
         s'.objects.Keys == s.objects.Keys
      && forall p :: p in s.objects ==>
           s'.objects[p] == s.objects[p].(
             refcount := s.objects[p].refcount - if name in s.entries && s.entries[name] == p then 1 else 0)
  {
    if name in s.entries {
      assert NameAgrees(s, name) && CountAgrees(s, s.entries[name], held);
      assert NameRefs(s, s.entries[name]) == 1;
    }
  }

  lemma RemoveNameKeeps(s: Cache, name: string, held: Option<Address>)
    requires Indexed(s, held)
    ensures Indexed(RemoveName(s, name), held)
  {
    RemoveNameShape(s, name, held);
    var s' := RemoveName(s, name);
    hide RemoveName;
    forall other | other in s'.entries
      ensures NameAgrees(s', other)
    {
      assert NameAgrees(s, other);
    }
    forall path | path in s'.files
      ensures FileAgrees(s', path)
    {
      assert FileAgrees(s, path);
    }
    forall p | p in s'.objects
      ensures CountAgrees(s', p, held)
    {
      assert CountAgrees(s, p, held);
      assert name in s.entries ==> NameAgrees(s, name);
    }
  }

  lemma RemoveFileKeeps(s: Cache, p: Address)
    requires Indexed(s, None) && p in s.objects && NameRefs(s, p) == 0
    ensures Indexed(RemoveFile(s, s.objects[p].path), None)
    ensures RemoveFile(s, s.objects[p].path) == s.(files := s.files - {s.objects[p].path}, objects := s.objects - {p})
  {
  }

  lemma AddEntryKeeps(s: Cache, path: Path, file: File, id: Address)
    requires Indexed(s, None) && path.dir in s.directories && path !in s.files && IsService(file)
    requires file.name.value !in s.entries && id !in s.objects
    ensures Indexed(AddEntry(s, path, file, id), None)
  {
    var s' := AddEntry(s, path, file, id);
    forall other | other in s'.entries ensures NameAgrees(s', other) {
      assert other in s.entries ==> NameAgrees(s, other);
    }
    forall other | other in s'.files ensures FileAgrees(s', other) {
      assert other in s.files ==> FileAgrees(s, other);
    }
    forall p | p in s'.objects ensures CountAgrees(s', p, None) {
      assert p in s.objects ==> CountAgrees(s, p, None);
    }
  }

  lemma RenameKeeps(s: Cache, p: Address, file: File)
    requires Indexed(s, Some(p)) && NameRefs(s, p) == 0 && FileRefs(s, p) == 1
    requires IsService(file) && file.name.value !in s.entries
    ensures Indexed(Rename(s, p, file), None)
  {
  }

  lemma UpdateKeeps(s: Cache, path: Path, file: File, id: Address)
    requires Indexed(s, None) && (path !in s.files ==> id !in s.objects)
    ensures Indexed(Update(s, path, file, id).1, None)
  {
    if path.dir in s.directories && IsService(file) {
      if path !in s.files {
        if file.name.value !in s.entries {
          AddEntryKeeps(s, path, file, id);
        }
      } else {
        var p := s.files[path];
        RefKeeps(s, p);
        RemoveNameKeeps(Ref(s, p), s.objects[p].name, Some(p));
        RemoveNameShape(Ref(s, p), s.objects[p].name, Some(p));
        var s1 := RemoveName(Ref(s, p), s.objects[p].name);
        if file.name.value in s1.entries {
          UnrefKeeps(s1, p);
        } else {
          RenameKeeps(s1, p, file);
        }
      }
    }
    hide AddEntry, Rename, Unref, RemoveName, Ref;
  }

  lemma CheckKeeps(s: Cache, p: Address, file: File)
    requires Indexed(s, None)
    ensures Indexed(Check(s, p, file).1, None)
  {
    if p in s.objects {
      var o := s.objects[p];
      if file.Missing? {
        RemoveNameKeeps(s, o.name, None);
        RemoveNameShape(s, o.name, None);
        RemoveFileKeeps(RemoveName(s, o.name), p);
      } else if file.mtime > o.mtime && file.Readable? {
        UpdateKeeps(s, o.path, file, p);
      }
    }
    hide Update, RemoveName, RemoveFile;
  }

  ghost predicate Enabled(s: Cache, e: Event) {
    e.Visited? ==> e.id !in s.objects
  }

  lemma StepKeeps(s: Cache, e: Event)
    requires Indexed(s, None) && Enabled(s, e)
    ensures Indexed(Step(s, e), None)
  {
    match e
    case DirectoryAdded(d) =>
    case Visited(path, file, id) =>
      if IsServiceFile(path.filename) && path.dir in s.directories {
        if path in s.files {
          CheckKeeps(s, s.files[path], file);
        } else {
          UpdateKeeps(s, path, file, id);
        }
      }
    case Checked(name, file) =>
      if name in s.entries {
        CheckKeeps(s, s.entries[name], file);
      }
    hide Check, Update;
  }

  const START := Cache(map[], {}, map[], map[])

  function After(log: seq<Event>): Cache {
    if log == [] then START else Step(After(log[..|log| - 1]), log[|log| - 1])
  }

  ghost predicate IsRun(log: seq<Event>) {
    log == [] || (IsRun(log[..|log| - 1]) && Enabled(After(log[..|log| - 1]), log[|log| - 1]))
  }

  lemma {:induction false} RunKeeps(log: seq<Event>)
    requires IsRun(log)
    ensures Indexed(After(log), None)
  {
    if log != [] {
      RunKeeps(log[..|log| - 1]);
      StepKeeps(After(log[..|log| - 1]), log[|log| - 1]);
    }
  }

  /** In every reachable state a name leads to an entry of that name which its
      directory also holds under its file name, and every live entry is held by
      its directory. */
  lemma IndexesAgree(log: seq<Event>, name: string)
    requires IsRun(log)
    ensures var s := After(log);
      name in s.entries ==>
        && s.entries[name] in s.objects
        && var o := s.objects[s.entries[name]];
           o.name == name && o.path.dir in s.directories && o.path in s.files && s.files[o.path] == s.entries[name]
    ensures forall p :: p in After(log).objects ==> FileRefs(After(log), p) == 1
  {
    RunKeeps(log);
  }

  // ---- when a file loses its name ---------------------------------------------------------------

  /** The file is known under another name than it now claims, and the claimed
      name is taken. */
  predicate Clashes(s: Cache, path: Path, file: File) {
    && path.dir in s.directories && path in s.files && IsService(file) && file.name.value in s.entries
    && s.entries[file.name.value] != s.files[path]
  }

  lemma NewFileKeepsFull(s: Cache, path: Path, file: File, id: Address)
    requires FullyIndexed(s) && path !in s.files && IsService(file)
    requires file.name.value !in s.entries && id !in s.objects
    ensures forall p :: p in AddEntry(s, path, file, id).objects ==> NameRefs(AddEntry(s, path, file, id), p) == 1
  {
    var s' := AddEntry(s, path, file, id);
    forall p | p in s'.objects
      ensures NameRefs(s', p) == 1
    {
      assert p in s.objects ==> NameRefs(s, p) == 1;
    }
  }

  /** What an update of a known file finds after taking the old name out. */
  lemma NameTakenOut(s: Cache, path: Path)
    requires FullyIndexed(s) && path in s.files
    ensures var p := s.files[path];
      && p in s.objects
      && var s1 := RemoveName(Ref(s, p), s.objects[p].name);
         && s1.entries == s.entries - {s.objects[p].name} && s1.objects.Keys == s.objects.Keys && NameRefs(s1, p) == 0
         && s1.objects[p].refcount == 2 && s.entries[s.objects[p].name] == p
         && forall q :: q in s.objects && q != p ==> s1.objects[q] == s.objects[q] && NameRefs(s1, q) == 1
  {
    var p := s.files[path];
    assert FileAgrees(s, path);
    assert NameRefs(s, p) == 1 && CountAgrees(s, p, None);
    RefKeeps(s, p);
    RemoveNameShape(Ref(s, p), s.objects[p].name, Some(p));
    var s1 := RemoveName(Ref(s, p), s.objects[p].name);
    assert s1.objects[p].refcount == s.objects[p].refcount;
    hide RemoveName;
    forall q | q in s.objects && q != p
      ensures s1.objects[q] == s.objects[q] && NameRefs(s1, q) == 1
    {
      assert NameRefs(s, q) == 1;
    }
  }

  /** The other direction, every file found under its name, survives an update
      exactly when it is not a clashing rename. */
  lemma FullExactlyWithoutClash(s: Cache, path: Path, file: File, id: Address)
    requires FullyIndexed(s) && id !in s.objects
    ensures FullyIndexed(Update(s, path, file, id).1) <==> !Clashes(s, path, file)
  {
    UpdateKeeps(s, path, file, id);
    hide Indexed;
    if path.dir in s.directories && IsService(file) {
      if path !in s.files {
        if file.name.value !in s.entries {
          NewFileKeepsFull(s, path, file, id);
        }
      } else {
        var p := s.files[path];
        NameTakenOut(s, path);
        var s1 := RemoveName(Ref(s, p), s.objects[p].name);
        hide RemoveName, Ref;
        assert file.name.value in s1.entries <==> Clashes(s, path, file) by {
          NameBelongs(s, file.name.value, p);
        }
        if file.name.value in s1.entries {
          assert NameRefs(Unref(s1, p), p) == 0;
        } else {
          RenamedStaysFull(s1, p, file);
        }
      }
    }
  }

  lemma NameBelongs(s: Cache, name: string, p: Address)
    requires Indexed(s, None) && p in s.objects
    ensures name in s.entries && s.entries[name] == p ==> s.objects[p].name == name
  {
    assert name in s.entries ==> NameAgrees(s, name);
  }

  lemma RenamedStaysFull(s: Cache, p: Address, file: File)
    requires p in s.objects && IsService(file) && file.name.value !in s.entries
    requires forall q :: q in s.objects && q != p ==> NameRefs(s, q) == 1
    ensures forall q :: q in Rename(s, p, file).objects ==> NameRefs(Rename(s, p, file), q) == 1
  {
    var s' := Rename(s, p, file);
    forall q | q in s'.objects
      ensures NameRefs(s', q) == 1
    {
      assert q != p ==> NameRefs(s, q) == 1;
    }
  }

  const FILE_A := Path("d", "a.service")
  const FILE_B := Path("d", "b.service")

  function Naming(name: string, mtime: int): File {
    Readable(mtime, Some(name), Some("/bin/x"), None, None)
  }

  function Two(): Cache {
    Cache(map["A" := 1, "B" := 2], {"d"}, map[FILE_A := 1, FILE_B := 2],
          map[1 := Entry("A", "/bin/x", None, None, FILE_A, 1, 2), 2 := Entry("B", "/bin/x", None, None, FILE_B, 1, 2)])
  }

  /** A directory with two service files. */
  const ADDED := DirectoryAdded("d")
  const SEEN_A := Visited(FILE_A, Naming("A", 1), 1)
  const SEEN_B := Visited(FILE_B, Naming("B", 1), 2)

  function One(): Cache {
    Cache(map["A" := 1], {"d"}, map[FILE_A := 1], map[1 := Entry("A", "/bin/x", None, None, FILE_A, 1, 2)])
  }

  lemma OneIsSeen()
    ensures Step(Step(START, ADDED), SEEN_A) == One()
  {
    assert IsServiceFile(FILE_A.filename);
  }

  lemma TwoAreSeen()
    ensures Step(One(), SEEN_B) == Two()
  {
    assert "A"[0] != "B"[0] && FILE_A.filename[0] != FILE_B.filename[0];
    assert IsServiceFile(FILE_B.filename);
  }

  lemma TwoIsReached()
    ensures IsRun([ADDED] + [SEEN_A] + [SEEN_B]) && After([ADDED] + [SEEN_A] + [SEEN_B]) == Two()
  {
    assert [] + [ADDED] == [ADDED];
    OneIsSeen();
    TwoAreSeen();
    hide Step, IsServiceFile;
    RunSnoc([], ADDED);
    RunSnoc([ADDED], SEEN_A);
    RunSnoc([ADDED] + [SEEN_A], SEEN_B);
  }

  lemma RunSnoc(log: seq<Event>, e: Event)
    requires IsRun(log) && Enabled(After(log), e)
    ensures IsRun(log + [e]) && After(log + [e]) == Step(After(log), e)
  {
    assert (log + [e])[..|log|] == log;
    hide Step, Enabled;
  }

  /** The clash does happen: the first file is rewritten to claim the second's
      name, and is found under no name any more. */
  lemma ClashingRenameLosesName()
    ensures var s := Step(Two(), Visited(FILE_A, Naming("B", 2), 3));
      FILE_A in s.files && s.files[FILE_A] == 1 && 1 in s.objects && NameRefs(s, 1) == 0 && "A" !in s.entries
  {
    assert IsServiceFile(FILE_A.filename);
    var s := RemoveName(Ref(Two(), 1), "A");
    assert s.entries == map["B" := 2];
  }

  /** What an update does to the names, whatever comes of it. */
  lemma UpdatedNames(s: Cache, p: Address, file: File)
    requires Indexed(s, None) && p in s.objects && IsService(file)
    ensures var o, s' := s.objects[p], Update(s, s.objects[p].path, file, p).1;
      var names := s.entries - {o.name};
      && s'.entries == (if file.name.value in names then names else names[file.name.value := p])
      && s'.objects.Keys == s.objects.Keys
      && forall q :: q in s.objects && q != p ==> s'.objects[q].name == s.objects[q].name
  {
    var o := s.objects[p];
    assert CountAgrees(s, p, None);
    if o.name in s.entries {
      assert NameAgrees(s, o.name);
    }
    assert FileRefs(s, p) == 1;
    assert FileAgrees(s, o.path);
    RefKeeps(s, p);
    RemoveNameShape(Ref(s, p), o.name, Some(p));
    RemoveNameKeeps(Ref(s, p), o.name, Some(p));
    assert CountAgrees(RemoveName(Ref(s, p), o.name), p, Some(p));
    hide RemoveName, Indexed;
  }

  /** A file that has lost its name still remembers it.  Another entry loses its
      name to an update of the file if and only if the file remembers just that
      name, whatever name it now claims. */
  lemma OrphanTakesNameAway(s: Cache, p: Address, file: File, q: Address)
    requires Indexed(s, None) && p in s.objects && q in s.objects && q != p && NameRefs(s, q) == 1
    ensures NameRefs(Update(s, s.objects[p].path, file, p).1, q) == 0 <==>
      (IsService(file) && s.objects[p].name == s.objects[q].name)
  {
    if IsService(file) {
      UpdatedNames(s, p, file);
    } else {
      NotAService(s, s.objects[p].path, file, p);
    }
    hide Update, Indexed, IsService;
  }

  lemma NotAService(s: Cache, path: Path, file: File, id: Address)
    requires !IsService(file)
    ensures Update(s, path, file, id) == (false, s)
  {
  }

  /** The same for a check of the file, which also takes the name away when the
      file is gone, and looks into it only when it has become newer. */
  lemma CheckTakesNameAway(s: Cache, p: Address, file: File, q: Address)
    requires Indexed(s, None) && p in s.objects && q in s.objects && q != p && NameRefs(s, q) == 1
    ensures NameRefs(Check(s, p, file).1, q) == 0 <==>
      (s.objects[p].name == s.objects[q].name &&
        (file.Missing? || (file.mtime > s.objects[p].mtime && IsService(file))))
  {
    if file.Missing? {
      MissingTakesNameAway(s, p, q);
    } else if file.mtime > s.objects[p].mtime && file.Readable? {
      OrphanTakesNameAway(s, p, file, q);
    }
    hide Update, Indexed, RemoveName, RemoveFile;
  }

  lemma MissingTakesNameAway(s: Cache, p: Address, q: Address)
    requires Indexed(s, None) && p in s.objects && q in s.objects && q != p && NameRefs(s, q) == 1
    ensures NameRefs(Check(s, p, Missing).1, q) == 0 <==> s.objects[p].name == s.objects[q].name
  {
    var o := s.objects[p];
    RemoveNameShape(s, o.name, None);
    RemoveNameKeeps(s, o.name, None);
    RemoveFileKeeps(RemoveName(s, o.name), p);
    hide RemoveName, RemoveFile, Indexed;
  }

  const FILE_C := Path("d", "c.service")

  function Bereft(): Cache {
    Cache(map["B" := 2], {"d"}, map[FILE_A := 1, FILE_B := 2],
          map[1 := Entry("A", "/bin/x", None, None, FILE_A, 1, 1), 2 := Entry("B", "/bin/x", None, None, FILE_B, 1, 2)])
  }

  lemma BereftIsReached()
    ensures Step(Two(), CLASHED) == Bereft()
  {
    assert "A"[0] != "B"[0];
    assert IsServiceFile(FILE_A.filename);
    var taken := RemoveName(Ref(Two(), 1), "A");
    assert taken.entries == map["B" := 2];
    assert Unref(taken, 1).objects == Bereft().objects;
  }

  function Three(): Cache {
    Bereft().(entries := map["B" := 2, "A" := 3], files := Bereft().files[FILE_C := 3],
              objects := Bereft().objects[3 := Entry("A", "/bin/x", None, None, FILE_C, 1, 2)])
  }

  lemma ThreeIsReached()
    ensures Step(Bereft(), SEEN_C) == Three()
  {
    assert "A"[0] != "B"[0];
    assert FILE_C.filename[0] != FILE_A.filename[0] && FILE_C.filename[0] != FILE_B.filename[0];
    assert IsServiceFile(FILE_C.filename);
  }

  /** Two services, a clashing rename, and a third file that takes over the name. */
  const CLASHED := Visited(FILE_A, Naming("B", 2), 3)
  const SEEN_C := Visited(FILE_C, Naming("A", 1), 3)
  const THEFT := [ADDED] + [SEEN_A] + [SEEN_B] + [CLASHED] + [SEEN_C]

  lemma TheftIsPrepared()
    ensures IsRun(THEFT) && After(THEFT) == Three()
  {
    TwoIsReached();
    BereftIsReached();
    ThreeIsReached();
    hide Step;
    RunSnoc([ADDED] + [SEEN_A] + [SEEN_B], CLASHED);
    RunSnoc([ADDED] + [SEEN_A] + [SEEN_B] + [CLASHED], SEEN_C);
  }

  /** It happens: in a state that is reached, visiting the first file again, not
      even changed since, leaves the third file without its name. */
  lemma NameIsTakenAway()
    ensures IsRun(THEFT) && NameRefs(After(THEFT), 3) == 1
    ensures NameRefs(Step(After(THEFT), Visited(FILE_A, Naming("B", 2), 4)), 3) == 0
  {
    TheftIsPrepared();
    RunKeeps(THEFT);
    assert "A"[0] != "B"[0] && IsServiceFile(FILE_A.filename);
    CheckTakesNameAway(Three(), 1, Naming("B", 2), 3);
    hide After, IsRun, Check, Indexed;
  }
}

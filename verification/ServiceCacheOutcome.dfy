/** What the daemon makes of a service file (bus/activation.c): which files give a
    service, under which name it is found, and what the entry then says. */
module ServiceCacheOutcome {
  import opened BusTypes
  import opened Collections
  import opened ServiceCacheTheory

  /** The entry says what the file says. */
  predicate Describes(o: Entry, path: Path, file: File) {
    && file.Readable? && file.name == Some(o.name) && file.exec == Some(o.exec)
    && o.user == file.user && o.systemdService == file.systemdService && o.mtime == file.mtime && o.path == path
  }

  /** The two required lines are there, and the name is not taken by another file;
      the name a known file had does not stand in its way. */
  predicate Taken(s: Cache, path: Path, file: File) {
    && path.dir in s.directories
    && file.Readable? && file.name.Some? && file.exec.Some?
    && (file.name.value !in s.entries ||
        (path in s.files && s.files[path] in s.objects && s.objects[s.files[path]].name == file.name.value))
  }

  /** The same entries, but for their counts and the one at `p`. */
  predicate OthersStay(s: Cache, s': Cache, p: Address) {
    forall q :: q in s.objects && q != p ==>
      q in s'.objects && s'.objects[q].(refcount := 0) == s.objects[q].(refcount := 0)
  }

  lemma NewFileOutcome(s: Cache, path: Path, file: File, id: Address)
    requires Indexed(s, None) && path !in s.files && id !in s.objects
    ensures var (ok, s') := Update(s, path, file, id);
      && (ok <==> Taken(s, path, file))
      && (ok ==>
            && s'.entries == s.entries[file.name.value := id] && s'.files == s.files[path := id]
            && id in s'.objects && Describes(s'.objects[id], path, file) && OthersStay(s, s', id))
      && (!ok ==> s' == s) && s'.directories == s.directories
  {
  }

  lemma CountOf(s: Cache, p: Address, held: Option<Address>)
    requires Indexed(s, held) && p in s.objects
    ensures CountAgrees(s, p, held)
  {
  }

  /** What an update of a known file works on: its old name is out, and the entry
      is held by the directory and by the running code. */
  lemma OldNameIsOut(s: Cache, path: Path)
    requires Indexed(s, None) && path in s.files
    ensures var p := s.files[path];
      && p in s.objects && s.objects[p].path == path
      && var s1 := RemoveName(Ref(s, p), s.objects[p].name);
         && s1.entries == s.entries - {s.objects[p].name} && s1.files == s.files && s1.directories == s.directories
         && p in s1.objects && s1.objects[p].refcount > 1
         && s1.objects[p].(refcount := 0) == s.objects[p].(refcount := 0) && OthersStay(s, s1, p)
  {
    var p := s.files[path];
    assert FileAgrees(s, path) && CountAgrees(s, p, None);
    RefKeeps(s, p);
    RemoveNameShape(Ref(s, p), s.objects[p].name, Some(p));
    RemoveNameKeeps(Ref(s, p), s.objects[p].name, Some(p));
    hide Indexed, RemoveName;
    var s1 := RemoveName(Ref(s, p), s.objects[p].name);
    assert FileRefs(s1, p) == 1;
    CountOf(s1, p, Some(p));
  }

  lemma KnownFileOutcome(s: Cache, path: Path, file: File)
    requires Indexed(s, None) && path in s.files
    ensures var p := s.files[path];
      var (ok, s') := Update(s, path, file, p);
      && p in s.objects && p in s'.objects
      && (ok <==> Taken(s, path, file))
      && (ok ==>
            Describes(s'.objects[p], path, file) && file.name.value in s'.entries && s'.entries[file.name.value] == p)
      && (!ok ==> s'.objects[p].(refcount := 0) == s.objects[p].(refcount := 0))
      && s'.files == s.files && s'.directories == s.directories && OthersStay(s, s', p)
  {
    OldNameIsOut(s, path);
    hide Indexed, RemoveName, Ref;
  }

  /** Names other than the old and the new one of the file lead where they led. */
  lemma OtherNamesStay(s: Cache, path: Path, file: File, id: Address, name: string)
    requires Indexed(s, None) && (path in s.files ==> id == s.files[path]) && (path !in s.files ==> id !in s.objects)
    requires file.Readable? ==> file.name != Some(name)
    requires path in s.files && s.files[path] in s.objects ==> s.objects[s.files[path]].name != name
    ensures var s' := Update(s, path, file, id).1;
      (name in s'.entries <==> name in s.entries) && (name in s.entries ==> s'.entries[name] == s.entries[name])
  {
    if path in s.files && IsService(file) {
      assert FileAgrees(s, path);
      UpdatedNames(s, id, file);
      hide Update, Indexed;
    }
  }

  /** Checking a file that is gone forgets it; one that has become newer is read
      again; anything else changes nothing. */
  lemma CheckOutcome(s: Cache, p: Address, file: File)
    requires Indexed(s, None) && p in s.objects
    ensures var o := s.objects[p];
      var (found, s') := Check(s, p, file);
      && found == (if file.Missing? then None else Some(p))
      && (file.Missing? ==>
            && s'.entries == s.entries - {o.name} && s'.files == s.files - {o.path}
            && p !in s'.objects && OthersStay(s, s', p))
      && (!file.Missing? && file.mtime > o.mtime && Taken(s, o.path, file) ==>
            && p in s'.objects && Describes(s'.objects[p], o.path, file)
            && file.name.value in s'.entries && s'.entries[file.name.value] == p
            && s'.files == s.files && OthersStay(s, s', p))
      && (!file.Missing? && (file.mtime <= o.mtime || !IsService(file)) ==> s' == s)
  {
    var o := s.objects[p];
    FileOfEntry(s, p);
    if file.Missing? {
      MissingOutcome(s, p);
    } else {
      KnownFileOutcome(s, o.path, file);
    }
    hide Indexed, Update, RemoveName, RemoveFile;
    if !file.Missing? && !IsService(file) {
      NotAService(s, o.path, file, p);
    }
  }

  lemma FileOfEntry(s: Cache, p: Address)
    requires Indexed(s, None) && p in s.objects
    ensures s.objects[p].path in s.files && s.files[s.objects[p].path] == p
  {
    assert CountAgrees(s, p, None);
    if s.objects[p].name in s.entries {
      assert NameAgrees(s, s.objects[p].name);
    }
  }

  lemma MissingOutcome(s: Cache, p: Address)
    requires Indexed(s, None) && p in s.objects
    ensures var (o, s') := (s.objects[p], Check(s, p, Missing).1);
      && s'.entries == s.entries - {o.name} && s'.files == s.files - {o.path}
      && p !in s'.objects && OthersStay(s, s', p)
  {
    var o := s.objects[p];
    RemoveNameShape(s, o.name, None);
    RemoveNameKeeps(s, o.name, None);
    var s1 := RemoveName(s, o.name);
    hide Indexed, RemoveName;
    assert NameRefs(s1, p) == 0;
    RemoveFileKeeps(s1, p);
    hide RemoveFile;
  }

  /** One name of a directory listing: only files that end in ".service" count, a
      known one is checked and an unknown one taken in. */
  lemma VisitOutcome(s: Cache, path: Path, file: File, id: Address)
    requires Indexed(s, None) && id !in s.objects
    ensures var s' := Visit(s, path, file, id);
      && ((path.dir !in s.directories || forall stem :: path.filename != stem + ".service") ==> s' == s)
      && ((exists stem :: path.filename == stem + ".service") && path !in s.files ==>
            && (path in s'.files <==> Taken(s, path, file))
            && (Taken(s, path, file) ==>
                  && s'.files[path] in s'.objects && Describes(s'.objects[s'.files[path]], path, file)
                  && file.name.value in s'.entries && s'.entries[file.name.value] == s'.files[path]))
      && ((exists stem :: path.filename == stem + ".service") && path in s.files && path.dir in s.directories ==>
            (path in s'.files <==> !file.Missing?))
  {
    SuffixMeans(path.filename);
    if path in s.files {
      assert FileAgrees(s, path);
      CheckOutcome(s, s.files[path], file);
      if !file.Missing? {
        KnownFileOutcome(s, path, file);
      }
    } else {
      NewFileOutcome(s, path, file, id);
    }
    hide Indexed, Update;
  }

  lemma SuffixMeans(f: string)
    ensures IsServiceFile(f) <==> exists stem :: f == stem + ".service"
  {
    if IsServiceFile(f) {
      assert f == f[..|f| - |SUFFIX|] + ".service";
    }
  }
}

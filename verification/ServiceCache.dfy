/** The service-file part of bus/activation.c over its hash tables. */
module ServiceCache {
  import opened BusTypes
  import opened Collections
  import opened ServiceCacheTheory

  /** One name of a directory listing: what the file holds, and the address of
      the entry that may be made for it. */
  datatype Listed = Listed(filename: string, file: File, id: Address)

  class BusServiceCache {
    /** BusActivation.entries, by the name provided */
    var entries: map<string, Address>
    /** BusActivation.directories */
    var directories: set<string>
    /** BusServiceDirectory.entries of all directories, by file name */
    var files: map<Path, Address>
    /** The live BusActivationEntry objects. */
    var objects: map<Address, Entry>

    function Snapshot(): Cache
      reads this
    {
      Cache(entries, directories, files, objects)
    }

    ghost predicate Valid()
      reads this
    {
      Indexed(Snapshot(), None)
    }

    constructor ()
      ensures Valid() && Snapshot() == START
    {
      entries, directories, files, objects := map[], {}, map[], map[];
    }

    method AddDirectory(d: string)
      requires Valid()
      modifies `directories
      ensures Valid() && Snapshot() == Step(old(Snapshot()), DirectoryAdded(d))
    {
      StepKeeps(Snapshot(), DirectoryAdded(d));
      if d !in directories {
        directories := directories + {d};
      }
    }

    /** bus_activation_entry_unref */
    method EntryUnref(p: Address)
      requires p in objects
      modifies `objects
      ensures Snapshot() == Unref(old(Snapshot()), p)
    {
      var o := objects[p].(refcount := objects[p].refcount - 1);
      objects := objects[p := o];
      if o.refcount > 0 {
        return;
      }
      assert old(objects)[p := o] - {p} == old(objects) - {p};
      objects := objects - {p};
    }

    method HashRemoveName(name: string)
      requires name in entries ==> entries[name] in objects
      modifies `entries, `objects
      ensures Snapshot() == RemoveName(old(Snapshot()), name)
    {
      if name in entries {
        var p := entries[name];
        entries := entries - {name};
        EntryUnref(p);
      }
    }

    method HashRemoveFile(path: Path)
      requires path in files ==> files[path] in objects
      modifies `files, `objects
      ensures Snapshot() == RemoveFile(old(Snapshot()), path)
    {
      if path in files {
        var p := files[path];
        files := files - {path};
        EntryUnref(p);
      }
    }

    /** update_desktop_file_entry */
    method UpdateDesktopFileEntry(path: Path, file: File, id: Address) returns (ok: bool)
      requires Valid() && path.dir in directories && (path !in files ==> id !in objects)
      modifies `entries, `files, `objects
      ensures Valid() && (ok, Snapshot()) == Update(old(Snapshot()), path, file, id)
    {
      UpdateKeeps(Snapshot(), path, file, id);
      hide Indexed, RemoveName;
      if !IsService(file) {
        return false;
      }
      if path !in files {
        if file.name.value in entries {
          return false;
        }
        AddNew(path, file, id);
        return true;
      }
      ok := UpdateKnown(path, file);
    }

    /** The branch for a new file: one reference is made for each table. */
    method AddNew(path: Path, file: File, id: Address)
      requires IsService(file)
      modifies `entries, `files, `objects
      ensures Snapshot() == AddEntry(old(Snapshot()), path, file, id)
    {
      var entry := Entry(file.name.value, file.exec.value, file.user, file.systemdService, path, file.mtime, 1);
      entries := entries[entry.name := id];
      entry := entry.(refcount := entry.refcount + 1);
      files := files[path := id];
      entry := entry.(refcount := entry.refcount + 1);
      objects := objects[id := entry.(refcount := entry.refcount - 1)];
    }

    /** The branch for a file that has an entry already. */
    method UpdateKnown(path: Path, file: File) returns (ok: bool)
      requires Valid() && path in files && IsService(file)
      modifies `entries, `objects
      ensures (ok, Snapshot()) == Update(old(Snapshot()), path, file, 0)
    {
      var p := files[path];
      assert FileAgrees(Snapshot(), path);
      RefKeeps(Snapshot(), p);
      RemoveNameShape(Ref(Snapshot(), p), objects[p].name, Some(p));
      RefIsUsed(RemoveName(Ref(Snapshot(), p), objects[p].name), p) by {
        RemoveNameKeeps(Ref(Snapshot(), p), objects[p].name, Some(p));
      }
      var name := objects[p].name;
      assert name in entries ==> NameAgrees(Snapshot(), name);
      hide Indexed, RemoveName, Rename;
      objects := objects[p := objects[p].(refcount := objects[p].refcount + 1)];
      HashRemoveName(name);
      if file.name.value in entries {
        EntryUnref(p);
        return false;
      }
      TakeOver(p, file);
      return true;
    }

    /** The end of that branch: the names get a reference of their own, the
        local one is dropped. */
    method TakeOver(p: Address, file: File)
      requires p in objects && objects[p].refcount > 0 && IsService(file)
      modifies `entries, `objects
      ensures Snapshot() == Rename(old(Snapshot()), p, file)
    {
      var o := objects[p];
      objects := objects[p := o.(name := file.name.value, exec := file.exec.value, user := file.user,
                                 systemdService := file.systemdService, mtime := file.mtime)];
      entries := entries[file.name.value := p];
      objects := objects[p := objects[p].(refcount := objects[p].refcount + 1)];
      EntryUnref(p);
      assert objects == Rename(old(Snapshot()), p, file).objects;
    }

    /** check_service_file: the entry, or nothing if its file is gone. */
    method CheckServiceFile(p: Address, file: File) returns (updated: Option<Address>)
      requires Valid() && p in objects
      modifies `entries, `files, `objects
      ensures Valid() && (updated, Snapshot()) == Check(old(Snapshot()), p, file)
    {
      CheckKeeps(Snapshot(), p, file);
      var o := objects[p];
      EntryIsFiled(Snapshot(), p);
      RemoveNameShape(Snapshot(), o.name, None);
      hide Indexed, RemoveName, RemoveFile, Update;
      if file.Missing? {
        HashRemoveName(o.name);
        HashRemoveFile(o.path);
        return None;
      }
      if file.mtime > o.mtime && file.Readable? {
        var ok := UpdateDesktopFileEntry(o.path, file, p);
      }
      return Some(p);
    }

    /** update_directory over a listing. */
    method UpdateDirectory(d: string, listing: seq<Listed>)
      requires Valid() && d in directories && AllNew(Snapshot(), listing)
      modifies `entries, `files, `objects
      ensures Valid() && Snapshot() == VisitAll(old(Snapshot()), d, listing)
    {
      ghost var after := VisitAll(Snapshot(), d, listing);
      var i := 0;
      hide Indexed, Update, Check;
      while i < |listing|
        invariant 0 <= i <= |listing| && directories == old(directories)
        invariant Valid() && AllNew(Snapshot(), listing[i..]) && VisitAll(Snapshot(), d, listing[i..]) == after
      {
        var path := Path(d, listing[i].filename);
        VisitNext(Snapshot(), d, listing[i..]);
        assert listing[i..][1..] == listing[i + 1..];
        if IsServiceFile(listing[i].filename) {
          if path in files {
            FileLeads(Snapshot(), path);
            var updated := CheckServiceFile(files[path], listing[i].file);
          } else {
            var ok := UpdateDesktopFileEntry(path, listing[i].file, listing[i].id);
          }
        }
        i := i + 1;
      }
    }

    /** activation_find_entry.  `file` is what the path of a known entry holds,
        `listings` what is in each directory, in the order they are read. */
    method FindEntry(name: string, file: File, listings: seq<(string, seq<Listed>)>) returns (found: Option<Address>)
      requires Valid() && AllNewIn(Snapshot(), listings)
      modifies `entries, `files, `objects
      ensures Valid() && (found.Some? ==> found.value in objects)
      ensures name !in old(entries) ==>
        Snapshot() == VisitDirectories(old(Snapshot()), listings) && (found.Some? <==> name in entries)
      ensures name !in old(entries) && found.Some? ==> objects[found.value].name == name
      ensures name in old(entries) ==>
        (found, Snapshot()) == Check(old(Snapshot()), old(entries)[name], file)
    {
      if name in entries {
        assert NameAgrees(Snapshot(), name);
        CheckKeepsEntry(Snapshot(), entries[name], file);
        hide Indexed, Check;
        found := CheckServiceFile(entries[name], file);
        return;
      }
      UpdateServiceCache(listings);
      if name in entries {
        assert NameAgrees(Snapshot(), name);
        return Some(entries[name]);
      }
      return None;
    }

    /** update_service_cache */
    method UpdateServiceCache(listings: seq<(string, seq<Listed>)>)
      requires Valid() && AllNewIn(Snapshot(), listings)
      modifies `entries, `files, `objects
      ensures Valid() && Snapshot() == VisitDirectories(old(Snapshot()), listings)
    {
      ghost var after := VisitDirectories(Snapshot(), listings);
      var i := 0;
      hide Indexed;
      while i < |listings|
        invariant 0 <= i <= |listings| && directories == old(directories)
        invariant Valid() && AllNewIn(Snapshot(), listings[i..]) && VisitDirectories(Snapshot(), listings[i..]) == after
      {
        NextDirectory(Snapshot(), listings[i..]);
        assert listings[i..][1..] == listings[i + 1..];
        UpdateDirectory(listings[i].0, listings[i].1);
        i := i + 1;
      }
    }
  }

  function VisitAll(s: Cache, d: string, listing: seq<Listed>): Cache
    decreases |listing|
  {
    if listing == [] then s
    else VisitAll(Visit(s, Path(d, listing[0].filename), listing[0].file, listing[0].id), d, listing[1..])
  }

  /** One visit for each name of the listing, in its order. */
  function VisitsOf(d: string, listing: seq<Listed>): seq<Event> {
    seq(|listing|, i requires 0 <= i < |listing| =>
      Visited(Path(d, listing[i].filename), listing[i].file, listing[i].id))
  }

  /** Reading a directory is a run of visits, so that everything shown of runs
      holds of it. */
  lemma {:induction false} ListingIsVisited(log: seq<Event>, d: string, listing: seq<Listed>)
    ensures VisitAll(After(log), d, listing) == After(log + VisitsOf(d, listing))
    decreases |listing|
  {
    hide Visit;
    if listing == [] {
      assert log + VisitsOf(d, listing) == log;
    } else {
      var first := VisitsOf(d, listing)[0];
      assert VisitsOf(d, listing) == [first] + VisitsOf(d, listing[1..]);
      assert log + VisitsOf(d, listing) == log + [first] + VisitsOf(d, listing[1..]);
      assert (log + [first])[..|log|] == log;
      ListingIsVisited(log + [first], d, listing[1..]);
    }
  }

  function VisitDirectories(s: Cache, listings: seq<(string, seq<Listed>)>): Cache
    decreases |listings|
  {
    if listings == [] then s else VisitDirectories(VisitAll(s, listings[0].0, listings[0].1), listings[1..])
  }

  function AllVisits(listings: seq<(string, seq<Listed>)>): seq<Event> {
    if listings == [] then [] else VisitsOf(listings[0].0, listings[0].1) + AllVisits(listings[1..])
  }

  /** Reading the service directories anew is the run of all their visits. */
  lemma {:induction false} DirectoriesAreVisited(log: seq<Event>, listings: seq<(string, seq<Listed>)>)
    ensures VisitDirectories(After(log), listings) == After(log + AllVisits(listings))
    decreases |listings|
  {
    hide VisitAll, VisitsOf;
    if listings == [] {
      assert log + AllVisits(listings) == log;
    } else {
      var first := VisitsOf(listings[0].0, listings[0].1);
      ListingIsVisited(log, listings[0].0, listings[0].1);
      assert log + AllVisits(listings) == log + first + AllVisits(listings[1..]);
      DirectoriesAreVisited(log + first, listings[1..]);
    }
  }

  /** The addresses of the listing are unused, and each is used once. */
  ghost predicate AllNew(s: Cache, listing: seq<Listed>) {
    && (forall i :: 0 <= i < |listing| ==> listing[i].id !in s.objects)
    && (forall i, j :: 0 <= i < j < |listing| ==> listing[i].id != listing[j].id)
  }

  ghost function AllListed(listings: seq<(string, seq<Listed>)>): seq<Listed> {
    if listings == [] then [] else listings[0].1 + AllListed(listings[1..])
  }

  ghost predicate AllNewIn(s: Cache, listings: seq<(string, seq<Listed>)>) {
    AllNew(s, AllListed(listings)) && forall i :: 0 <= i < |listings| ==> listings[i].0 in s.directories
  }

  lemma RefIsUsed(s: Cache, p: Address)
    requires Indexed(s, Some(p))
    ensures p in s.objects && s.objects[p].refcount > 0
  {
    assert CountAgrees(s, p, Some(p));
  }

  /** A live entry is in the table of its directory. */
  lemma EntryIsFiled(s: Cache, p: Address)
    requires Indexed(s, None) && p in s.objects
    ensures s.objects[p].path in s.files && s.files[s.objects[p].path] == p && s.objects[p].path.dir in s.directories
    ensures s.objects[p].name in s.entries ==> s.entries[s.objects[p].name] in s.objects
  {
    assert CountAgrees(s, p, None);
    if s.objects[p].name in s.entries {
      assert NameAgrees(s, s.objects[p].name);
    }
    assert FileRefs(s, p) == 1;
    assert FileAgrees(s, s.objects[p].path);
  }

  lemma FileLeads(s: Cache, path: Path)
    requires Indexed(s, None) && path in s.files
    ensures s.files[path] in s.objects
  {
    assert FileAgrees(s, path);
  }

  lemma UpdateShape(s: Cache, path: Path, file: File, id: Address)
    requires Indexed(s, None)
    ensures var s' := Update(s, path, file, id).1;
      s'.objects.Keys <= s.objects.Keys + {id} && s'.directories == s.directories
    ensures path in s.files ==> Update(s, path, file, id).1.objects.Keys == s.objects.Keys
  {
    if path in s.files {
      KnownUpdateShape(s, path);
    }
    hide Indexed, RemoveName;
  }

  /** Taking the old name out and dropping the local reference frees nothing. */
  lemma KnownUpdateShape(s: Cache, path: Path)
    requires Indexed(s, None) && path in s.files
    ensures s.files[path] in s.objects
    ensures var p := s.files[path];
      var s1 := RemoveName(Ref(s, p), s.objects[p].name);
      && s1.objects.Keys == s.objects.Keys && s1.directories == s.directories
      && p in s1.objects && Unref(s1, p).objects.Keys == s.objects.Keys
  {
    var p := s.files[path];
    assert FileAgrees(s, path);
    RefKeeps(s, p);
    RemoveNameShape(Ref(s, p), s.objects[p].name, Some(p));
    RemoveNameKeeps(Ref(s, p), s.objects[p].name, Some(p));
    StillHeld(RemoveName(Ref(s, p), s.objects[p].name), p);
    hide Indexed, RemoveName, NameRefs;
  }

  lemma StillHeld(s: Cache, p: Address)
    requires Indexed(s, Some(p))
    requires FileRefs(s, p) == 1
    ensures s.objects[p].refcount > 1
  {
    assert CountAgrees(s, p, Some(p));
  }

  /** The entry found for a known name is live; it has the name asked for,
      unless its file was meanwhile rewritten to claim another, free name. */
  lemma CheckKeepsEntry(s: Cache, p: Address, file: File)
    requires Indexed(s, None) && p in s.objects
    ensures var (found, s') := Check(s, p, file);
      && (found == None <==> file.Missing?)
      && (found.Some? ==> found == Some(p) && p in s'.objects)
      && (found.Some? ==>
            (s'.objects[p].name == s.objects[p].name <==>
             !(file.Readable? && file.mtime > s.objects[p].mtime && IsService(file)
               && file.name.value != s.objects[p].name && file.name.value !in s.entries)))
  {
    if !file.Missing? && file.mtime > s.objects[p].mtime && file.Readable? {
      EntryIsFiled(s, p);
      UpdateShape(s, s.objects[p].path, file, p);
      RefKeeps(s, p);
      RemoveNameShape(Ref(s, p), s.objects[p].name, Some(p));
      hide Indexed, RemoveName;
    }
  }

  lemma VisitNext(s: Cache, d: string, listing: seq<Listed>)
    requires Indexed(s, None) && AllNew(s, listing) && listing != []
    ensures var s' := Visit(s, Path(d, listing[0].filename), listing[0].file, listing[0].id);
      VisitAll(s, d, listing) == VisitAll(s', d, listing[1..]) && AllNew(s', listing[1..]) && Indexed(s', None)
      && s'.directories == s.directories && s'.objects.Keys <= s.objects.Keys + {listing[0].id}
  {
    var path := Path(d, listing[0].filename);
    StepKeeps(s, Visited(path, listing[0].file, listing[0].id));
    UpdateShape(s, path, listing[0].file, listing[0].id);
    if path in s.files && s.files[path] in s.objects {
      CheckShape(s, s.files[path], listing[0].file);
    }
    hide Indexed, Update, Check;
  }

  lemma CheckShape(s: Cache, p: Address, file: File)
    requires Indexed(s, None) && p in s.objects
    ensures var s' := Check(s, p, file).1; s'.objects.Keys <= s.objects.Keys && s'.directories == s.directories
  {
    var o := s.objects[p];
    EntryIsFiled(s, p);
    UpdateShape(s, o.path, file, p);
    RemoveNameShape(s, o.name, None);
    hide Indexed, RemoveName, Update;
  }

  lemma {:induction false} AllVisited(s: Cache, d: string, listing: seq<Listed>)
    requires Indexed(s, None) && AllNew(s, listing)
    ensures var s' := VisitAll(s, d, listing);
      && Indexed(s', None) && s'.directories == s.directories
      && forall p :: p in s'.objects ==> p in s.objects || exists i :: 0 <= i < |listing| && listing[i].id == p
    decreases |listing|
  {
    hide Indexed, Visit;
    if listing != [] {
      var s1 := Visit(s, Path(d, listing[0].filename), listing[0].file, listing[0].id);
      VisitNext(s, d, listing);
      AllVisited(s1, d, listing[1..]);
      forall p | p in VisitAll(s, d, listing).objects && p !in s.objects
        ensures exists i :: 0 <= i < |listing| && listing[i].id == p
      {
        if p !in s1.objects {
          var i :| 0 <= i < |listing[1..]| && listing[1..][i].id == p;
          assert listing[i + 1].id == p;
        } else {
          assert listing[0].id == p;
        }
      }
    }
  }

  lemma NextDirectory(s: Cache, listings: seq<(string, seq<Listed>)>)
    requires Indexed(s, None) && AllNewIn(s, listings) && listings != []
    ensures AllNew(s, listings[0].1)
    ensures var s' := VisitAll(s, listings[0].0, listings[0].1);
      AllNewIn(s', listings[1..]) && s'.directories == s.directories
  {
    hide Indexed, VisitAll;
    var first, rest := listings[0].1, AllListed(listings[1..]);
    var all := AllListed(listings);
    assert all == first + rest;
    hide AllListed;
    assert forall i :: 0 <= i < |first| ==> all[i] == first[i];
    AllVisited(s, listings[0].0, first);
    var s' := VisitAll(s, listings[0].0, first);
    forall j | 0 <= j < |rest|
      ensures rest[j].id !in s'.objects && forall i :: 0 <= i < j ==> rest[i].id != rest[j].id
    {
      assert all[|first| + j] == rest[j];
      assert forall i :: 0 <= i < j ==> all[|first| + i] == rest[i];
      assert forall i :: 0 <= i < |first| ==> all[i].id != all[|first| + j].id;
    }
  }
}

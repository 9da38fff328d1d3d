/** What a transaction store means over its whole life: closing and reopening
    it changes nothing a caller can see, and the file with its free slots behaves
    like a plain map from ids to a status and an error text. */
module TidStoreRuns {
  import opened Collections
  import opened TidStoreTheory

  // ---- reopening --------------------------------------------------------------------------

  /** The id and the entry the constructor reads from slot `k`. */
  function ReadId(s: Store, k: int): Id {
    Slice(s.file, Offset(s.idSize, k), s.idSize)
  }

  function ReadEntry(s: Store, k: int): StoreEntry {
    StoreEntry(Offset(s.idSize, k), Slice(s.file, Offset(s.idSize, k) + s.idSize, 1)[0])
  }

  /** In a file that is long enough these are the first bytes of the record. */
  lemma ReadsRecord(s: Store, k: int)
    requires Sized(s) && 0 <= k < s.slots
    ensures ReadId(s, k) == RecordAt(s, Offset(s.idSize, k))[..s.idSize]
    ensures ReadEntry(s, k).status == RecordAt(s, Offset(s.idSize, k))[s.idSize]
  {
    OffsetInFile(s, Offset(s.idSize, k));
    hide Offset;
  }

  predicate IsFree(s: Store, k: int) {
    s.idSize > 0 && ReadId(s, k)[0] == 0
  }

  /** The table and the free slots after reading `n` records. */
  function ReadTable(s: Store, n: nat): map<Id, StoreEntry> {
    if n == 0 then map[]
    else if IsFree(s, n - 1) then ReadTable(s, n - 1)
    else ReadTable(s, n - 1)[ReadId(s, n - 1) := ReadEntry(s, n - 1)]
  }

  function ReadFree(s: Store, n: nat): seq<int> {
    if n == 0 then []
    else ReadFree(s, n - 1) + if IsFree(s, n - 1) then [Offset(s.idSize, n - 1)] else []
  }

  /** The constructor on a file that is already there and long enough for one record. */
  function Reload(s: Store): Store {
    if s.slots < 0 then s.(table := map[], free := [])
    else s.(table := ReadTable(s, s.slots), free := ReadFree(s, s.slots))
  }

  lemma AllInRange(s: Store)
    requires Consistent(s)
    ensures forall id :: id in s.table ==> Offset(s.idSize, 0) <= s.table[id].index < Offset(s.idSize, s.slots)
    ensures forall o :: o in s.free ==> Offset(s.idSize, 0) <= o < Offset(s.idSize, s.slots)
  {
    forall id | id in s.table
      ensures Offset(s.idSize, 0) <= s.table[id].index < Offset(s.idSize, s.slots)
    {
      assert UsedAgrees(s, id);
      OffsetInFile(s, s.table[id].index);
    }
    forall o | o in s.free
      ensures Offset(s.idSize, 0) <= o < Offset(s.idSize, s.slots)
    {
      assert FreeAgrees(s, o);
      OffsetInFile(s, o);
    }
  }

  /** The part of the table that lies before `bound` in the file. */
  function Below(t: map<Id, StoreEntry>, bound: int): map<Id, StoreEntry> {
    map id | id in t && t[id].index < bound :: t[id]
  }

  lemma BelowNext(t: map<Id, StoreEntry>, low: int, high: int, free: bool, id: Id, e: StoreEntry)
    requires !free ==> id in t && t[id] == e && low <= e.index < high
    requires forall other :: other in t && low <= t[other].index < high ==> !free && other == id
    requires low < high
    ensures Below(t, high) == if free then Below(t, low) else Below(t, low)[id := e]
  {
  }

  lemma NothingBelow(s: Store)
    requires Consistent(s)
    ensures Below(s.table, Offset(s.idSize, 0)) == map[]
  {
    AllInRange(s);
    hide Consistent;
  }

  lemma {:induction false} ReadTableIsTable(s: Store, n: nat)
    requires Consistent(s) && n <= s.slots
    ensures ReadTable(s, n) == Below(s.table, Offset(s.idSize, n))
  {
    hide Consistent, Offset, IsFree, ReadId, ReadEntry, Below;
    if n == 0 {
      NothingBelow(s);
    } else {
      ReadTableIsTable(s, n - 1);
      ReadOneRecord(s, n - 1);
      BelowNext(s.table, Offset(s.idSize, n - 1), Offset(s.idSize, n), IsFree(s, n - 1), ReadId(s, n - 1),
        ReadEntry(s, n - 1));
    }
  }

  /** Between one slot and the next there is just the entry of that slot. */
  lemma ReadOneRecord(s: Store, k: nat)
    requires Consistent(s) && k < s.slots
    ensures !IsFree(s, k) ==>
      ReadId(s, k) in s.table && s.table[ReadId(s, k)] == ReadEntry(s, k) &&
        ReadEntry(s, k).index == Offset(s.idSize, k)
    ensures Offset(s.idSize, k) < Offset(s.idSize, k + 1)
    ensures forall id :: id in s.table && Offset(s.idSize, k) <= s.table[id].index < Offset(s.idSize, k + 1) ==>
      !IsFree(s, k) && id == ReadId(s, k)
  {
    var o := Offset(s.idSize, k);
    assert IsOffset(s, o);
    assert RecordAgrees(s, o);
    ReadsRecord(s, k);
    OffsetsApart(s.idSize, k, k + 1);
    if !IsFree(s, k) {
      assert UsedAgrees(s, ReadId(s, k));
    }
    forall id | id in s.table && o <= s.table[id].index < Offset(s.idSize, k + 1)
      ensures !IsFree(s, k) && id == ReadId(s, k)
    {
      assert UsedAgrees(s, id);
      OnlyOffset(s, s.table[id].index, k);
    }
  }

  lemma OnlyOffset(s: Store, o: int, k: nat)
    requires IsOffset(s, o) && Offset(s.idSize, k) <= o < Offset(s.idSize, k + 1)
    ensures o == Offset(s.idSize, k)
  {
    var j :| 0 <= j < s.slots && o == Offset(s.idSize, j);
    if j < k {
      OffsetsApart(s.idSize, j, k);
    } else if j > k {
      if j > k + 1 {
        OffsetsApart(s.idSize, k + 1, j);
      }
    }
  }

  /** The part of the free slots that lies before `bound`, each once. */
  ghost predicate IsPart(part: seq<int>, free: seq<int>, bound: int) {
    NoDuplicates(part) && forall o :: o in part <==> o in free && o < bound
  }

  lemma PartNext(part: seq<int>, free: seq<int>, low: int, high: int)
    requires IsPart(part, free, low) && low < high
    requires forall o :: o in free && low <= o < high ==> o == low
    ensures IsPart(part + if low in free then [low] else [], free, high)
  {
    var longer := part + if low in free then [low] else [];
    forall o
      ensures o in longer <==> o in free && o < high
    {
      assert o in longer <==> o in part || (low in free && o == low);
    }
  }

  lemma NothingBefore(s: Store)
    requires Consistent(s)
    ensures IsPart([], s.free, Offset(s.idSize, 0))
  {
    AllInRange(s);
    hide Consistent;
  }

  lemma {:induction false} ReadFreeIsFree(s: Store, n: nat)
    requires Consistent(s) && n <= s.slots
    ensures IsPart(ReadFree(s, n), s.free, Offset(s.idSize, n))
  {
    hide Consistent, Offset, IsFree, IsPart;
    if n == 0 {
      NothingBefore(s);
    } else {
      ReadFreeIsFree(s, n - 1);
      FreeOrNot(s, n - 1);
      PartNext(ReadFree(s, n - 1), s.free, Offset(s.idSize, n - 1), Offset(s.idSize, n));
    }
  }

  lemma FreeOrNot(s: Store, k: nat)
    requires Consistent(s) && k < s.slots
    ensures Offset(s.idSize, k) in s.free <==> IsFree(s, k)
    ensures Offset(s.idSize, k) < Offset(s.idSize, k + 1)
    ensures forall o :: o in s.free && Offset(s.idSize, k) <= o < Offset(s.idSize, k + 1) ==> o == Offset(s.idSize, k)
  {
    var o := Offset(s.idSize, k);
    assert IsOffset(s, o);
    assert RecordAgrees(s, o);
    ReadsRecord(s, k);
    OffsetsApart(s.idSize, k, k + 1);
    if o in s.free {
      assert FreeAgrees(s, o);
    }
    forall p | p in s.free && o <= p < Offset(s.idSize, k + 1)
      ensures p == o
    {
      assert FreeAgrees(s, p);
      OnlyOffset(s, p, k);
    }
  }

  /** Reopening gives the same table and the same free slots, in file order. */
  lemma ReopenKeeps(s: Store)
    requires Consistent(s)
    ensures Reload(s).table == s.table && Reload(s).file == s.file && Reload(s).slots == s.slots == Decode(s.file[..4])
    ensures forall o :: o in Reload(s).free <==> o in s.free
    ensures Consistent(Reload(s))
  {
    ReadTableIsTable(s, s.slots);
    ReadFreeIsFree(s, s.slots);
    DecodeEncode(s.slots);
    AllInRange(s);
    var s' := Reload(s);
    assert s'.table == s.table;
    SameOffsets(s, s');
    SameMemoryStaysConsistent(s, s');
  }

  lemma SameMemoryStaysConsistent(s: Store, s': Store)
    requires Consistent(s) && s' == s.(free := s'.free) && NoDuplicates(s'.free)
    requires forall o :: o in s'.free <==> o in s.free
    ensures Consistent(s')
  {
    SameOffsets(s, s');
    forall id | id in s'.table
      ensures UsedAgrees(s', id)
    {
      assert UsedAgrees(s, id);
    }
    forall o | o in s'.free
      ensures FreeAgrees(s', o)
    {
      assert FreeAgrees(s, o);
    }
    forall o | IsOffset(s', o)
      ensures RecordAgrees(s', o)
    {
      assert RecordAgrees(s, o);
    }
  }

  lemma SameOffsets(s: Store, s': Store)
    requires s'.idSize == s.idSize && s'.slots == s.slots && s'.file == s.file
    ensures forall o :: IsOffset(s, o) <==> IsOffset(s', o)
    ensures forall o :: RecordAt(s, o) == RecordAt(s', o)
  {
    forall o
      ensures IsOffset(s, o) <==> IsOffset(s', o)
    {
      if IsOffset(s, o) {
        var k :| 0 <= k < s.slots && o == Offset(s.idSize, k);
        assert o == Offset(s'.idSize, k);
      }
      if IsOffset(s', o) {
        var k :| 0 <= k < s.slots && o == Offset(s'.idSize, k);
        assert o == Offset(s.idSize, k);
      }
    }
  }

  // ---- the error text --------------------------------------------------------------------

  /** The bytes up to the first NUL. */
  function Text(bytes: seq<Byte>): (r: seq<Byte>)
    ensures |r| <= |bytes|
  {
    if bytes == [] || bytes[0] == 0 then [] else [bytes[0]] + Text(bytes[1..])
  }

  function Truncated(m: seq<Byte>): seq<Byte> {
    if |m| <= REMAINDER_SIZE then m else m[..REMAINDER_SIZE]
  }

  function Remainder(s: Store, id: Id): seq<Byte>
    requires id in s.table
  {
    RecordAt(s, s.table[id].index)[s.idSize + 1..]
  }

  /** NUL ends a text, whatever an earlier message left behind it. */
  lemma {:induction false} TextStopsAtNul(m: seq<Byte>, tail: seq<Byte>)
    ensures Text(m + [0] + tail) == Text(m)
  {
    if m == [] {
      assert m + [0] + tail == [0] + tail;
    } else {
      assert (m + [0] + tail)[1..] == m[1..] + [0] + tail;
      TextStopsAtNul(m[1..], tail);
    }
  }

  lemma {:induction false} TextWithoutNul(m: seq<Byte>)
    requires 0 !in m
    ensures Text(m) == m
  {
    if m != [] {
      TextWithoutNul(m[1..]);
    }
  }

  lemma TextOfZeros(n: nat)
    ensures Text(Zeros(n)) == []
  {
  }

  /** What is read back from a record after a message was written over it. */
  lemma WrittenText(s: Store, record: seq<Byte>, status: Byte, m: seq<Byte>)
    requires |record| == RecordSize(s.idSize)
    ensures var r := WriteAt(record, s.idSize, StatusBytes(status, Some(m)));
      |r| == |record| && Text(r[s.idSize + 1..]) == Text(Truncated(m))
    ensures var r := WriteAt(record, s.idSize, StatusBytes(status, Some(m)));
      0 !in m ==> Text(r[s.idSize + 1..]) == Truncated(m)
    ensures var r := WriteAt(record, s.idSize, StatusBytes(status, Some(m)));
      r[s.idSize + 1..] == Truncated(m) <==> |m| >= REMAINDER_SIZE
  {
    var r := WriteAt(record, s.idSize, StatusBytes(status, Some(m)));
    if 0 !in m {
      TextWithoutNul(Truncated(m));
    }
    if |m| < REMAINDER_SIZE {
      assert r[s.idSize + 1..] == m + [0] + record[s.idSize + 2 + |m|..];
      TextStopsAtNul(m, record[s.idSize + 2 + |m|..]);
    } else {
      assert r[s.idSize + 1..] == Truncated(m);
    }
  }

  // ---- the store is a map ------------------------------------------------------------------

  datatype Unit = Unit(status: Byte, text: seq<Byte>)

  /** What callers can learn about each id. */
  function View(s: Store): map<Id, Unit> {
    map id | id in s.table :: UnitOf(s, id)
  }

  function UnitOf(s: Store, id: Id): Unit
    requires id in s.table
  {
    Unit(s.table[id].status, Text(Remainder(s, id)))
  }

  datatype Event =
    | Created(id: Id)
    | Deleted(id: Id)
    | StatusSet(id: Id, status: Byte, message: Option<seq<Byte>>)
    | Reopened

  function Step(s: Store, e: Event): Store {
    match e
    case Created(id) => CreateEntry(s, id).1
    case Deleted(id) => DeleteEntry(s, id)
    case StatusSet(id, status, m) => SetStatus(s, id, status, m).1
    case Reopened => Reload(s)
  }

  /** The same, on a plain map. */
  function MapStep(idSize: nat, v: map<Id, Unit>, e: Event): map<Id, Unit> {
    match e
    case Created(id) => if |id| != idSize || id in v then v else v[id := Unit(CREATED, [])]
    case Deleted(id) => v - {id}
    case StatusSet(id, status, m) =>
      if id !in v then v
      else v[id := Unit(status, if m.None? then v[id].text else Text(Truncated(m.value)))]
    case Reopened => v
  }

  /** Ids do not start with NUL, and the file stays below 2 GiB. */
  predicate Enabled(s: Store, e: Event) {
    e.Created? && |e.id| == s.idSize ==> e.id != [] && e.id[0] != 0 && HasRoom(s, e.id)
  }

  lemma CreateOnMap(s: Store, id: Id)
    requires Consistent(s) && Enabled(s, Created(id)) && |id| == s.idSize && id !in s.table
    ensures View(CreateEntry(s, id).1) == View(s)[id := Unit(CREATED, [])]
  {
    var s', o := CreateEntry(s, id).1, if s.free != [] then s.free[|s.free| - 1] else |s.file|;
    if s.free != [] {
      ReuseShape(s, id);
      FreeSlotsUnused(s);
    } else {
      ExtendShape(s, id);
      forall other | other in s.table
        ensures s.table[other].index != o
      {
        assert UsedAgrees(s, other);
      }
    }
    hide Consistent, CreateEntry, Reuse, Extend, Sized, OthersKept, UsedAgrees;
    OneUnitChanged(s, s', o, id);
    assert FreshRecord(id)[s.idSize + 1..] == Zeros(REMAINDER_SIZE);
    TextOfZeros(REMAINDER_SIZE);
  }

  lemma OneUnitChanged(s: Store, s': Store, o: int, id: Id)
    requires Consistent(s) && OthersKept(s, s', o) && id in s'.table && s'.table[id].index == o
    requires s'.table == s.table[id := s'.table[id]]
    requires forall other :: other in s.table && other != id ==> s.table[other].index != o
    ensures View(s') == View(s)[id := Unit(s'.table[id].status, Text(RecordAt(s', o)[s'.idSize + 1..]))]
  {
    hide Consistent, OthersKept, UnitOf, RecordAt, Text;
    UnitsKept(s, s', o, id);
    UnitIs(s', id);
    forall other | other in View(s')
      ensures other != id ==> other in View(s) && View(s')[other] == View(s)[other]
    {
    }
  }

  lemma UnitIs(s: Store, id: Id)
    requires id in s.table
    ensures UnitOf(s, id) == Unit(s.table[id].status, Text(RecordAt(s, s.table[id].index)[s.idSize + 1..]))
  {
  }

  lemma SameRemainder(s: Store, id: Id)
    requires id in s.table
    ensures Remainder(s, id) == RecordAt(s, s.table[id].index)[s.idSize + 1..]
  {
  }

  /** Units whose record did not change look the same. */
  lemma UnitsKept(s: Store, s': Store, o: int, id: Id)
    requires Consistent(s) && OthersKept(s, s', o)
    requires forall other :: other in s.table && other != id ==>
      other in s'.table && s'.table[other] == s.table[other] && s.table[other].index != o
    ensures forall other :: other in s.table && other != id ==> UnitOf(s', other) == UnitOf(s, other)
  {
    forall other | other in s.table && other != id
      ensures UnitOf(s', other) == UnitOf(s, other)
    {
      UnitKept(s, s', o, other);
    }
  }

  lemma UnitKept(s: Store, s': Store, o: int, id: Id)
    requires Consistent(s) && OthersKept(s, s', o)
    requires id in s.table && id in s'.table && s'.table[id] == s.table[id] && s.table[id].index != o
    ensures UnitOf(s', id) == UnitOf(s, id)
  {
    assert UsedAgrees(s, id);
    hide Sized, RecordAt;
  }

  lemma DeleteOnMap(s: Store, id: Id)
    requires Consistent(s) && id in s.table
    ensures View(DeleteEntry(s, id)) == View(s) - {id}
  {
    DeleteShape(s, id);
    SlotsAreDisjoint(s, id);
    hide Consistent, DeleteEntry, OthersKept, UnitOf, Sized;
    var s' := DeleteEntry(s, id);
    UnitsKept(s, s', s.table[id].index, id);
    forall other | other in View(s')
      ensures other in View(s) && other != id && View(s')[other] == View(s)[other]
    {
    }
  }

  lemma SetStatusOnMap(s: Store, id: Id, status: Byte, m: Option<seq<Byte>>)
    requires Consistent(s) && id in s.table
    ensures View(SetStatus(s, id, status, m).1) == MapStep(s.idSize, View(s), StatusSet(id, status, m))
  {
    var s', o := SetStatus(s, id, status, m).1, s.table[id].index;
    SetStatusShape(s, id, status, m);
    SlotsAreDisjoint(s, id);
    SameRemainder(s, id);
    hide Consistent, SetStatus, Sized, OthersKept, Remainder, RecordAt;
    OneUnitChanged(s, s', o, id);
    if m.Some? {
      WrittenText(s, RecordAt(s, o), status, m.value);
    } else {
      assert RecordAt(s', o)[s.idSize + 1..] == RecordAt(s, o)[s.idSize + 1..];
    }
  }

  lemma StepOnMap(s: Store, e: Event)
    requires Consistent(s) && Enabled(s, e)
    ensures Consistent(Step(s, e)) && Step(s, e).idSize == s.idSize && View(Step(s, e)) == MapStep(s.idSize, View(s), e)
  {
    match e
    case Created(id) =>
      CreateKeeps(s, id);
      if |id| == s.idSize && id !in s.table {
        CreateOnMap(s, id);
      }
      hide Consistent;
    case Deleted(id) =>
      DeleteKeeps(s, id);
      if id in s.table {
        DeleteOnMap(s, id);
      } else {
        assert View(s) - {id} == View(s);
      }
      hide Consistent;
    case StatusSet(id, status, m) =>
      SetStatusKeeps(s, id, status, m);
      if id in s.table {
        SetStatusOnMap(s, id, status, m);
      }
      hide Consistent;
    case Reopened =>
      ReopenKeeps(s);
      ReloadView(s);
      hide Consistent;
  }

  lemma ReloadView(s: Store)
    requires Reload(s).table == s.table && Reload(s).file == s.file && Reload(s).slots == s.slots
    ensures View(Reload(s)) == View(s)
  {
    SameOffsets(s, Reload(s));
  }

  /** A store that was just created. */
  function Fresh(idSize: nat): Store {
    Store(idSize, Encode(0), map[], [], 0)
  }

  lemma FreshIsConsistent(idSize: nat)
    requires idSize > 0
    ensures Consistent(Fresh(idSize)) && View(Fresh(idSize)) == map[]
  {
    assert Encode(0)[..4] == Encode(0);
  }

  function After(idSize: nat, log: seq<Event>): Store {
    if log == [] then Fresh(idSize) else Step(After(idSize, log[..|log| - 1]), log[|log| - 1])
  }

  predicate IsRun(idSize: nat, log: seq<Event>) {
    log == [] || (IsRun(idSize, log[..|log| - 1]) && Enabled(After(idSize, log[..|log| - 1]), log[|log| - 1]))
  }

  function MapAfter(idSize: nat, log: seq<Event>): map<Id, Unit> {
    if log == [] then map[] else MapStep(idSize, MapAfter(idSize, log[..|log| - 1]), log[|log| - 1])
  }

  /** Over every run, reopening included, the store behaves like the map: same
      ids, same status, and as text the last message given since the id was
      created, cut to 80 bytes. */
  lemma {:induction false} StoreIsMap(idSize: nat, log: seq<Event>)
    requires idSize > 0 && IsRun(idSize, log)
    ensures Consistent(After(idSize, log)) && After(idSize, log).idSize == idSize
    ensures View(After(idSize, log)) == MapAfter(idSize, log)
  {
    if log == [] {
      FreshIsConsistent(idSize);
    } else {
      StoreIsMap(idSize, log[..|log| - 1]);
      StepOnMap(After(idSize, log[..|log| - 1]), log[|log| - 1]);
    }
    hide Consistent;
  }

  /** The last message given for an id since its entry was created, cut to the
      size of the field. */
  function LastMessage(idSize: nat, log: seq<Event>, id: Id): seq<Byte> {
    if log == [] then []
    else
      var before, e := log[..|log| - 1], log[|log| - 1];
      if e == Created(id) && id !in MapAfter(idSize, before) then []
      else if e.StatusSet? && e.id == id && e.message.Some? && id in MapAfter(idSize, before)
      then Truncated(e.message.value)
      else LastMessage(idSize, before, id)
  }

  predicate NulFree(log: seq<Event>) {
    forall k :: 0 <= k < |log| && log[k].StatusSet? && log[k].message.Some? ==> 0 !in log[k].message.value
  }

  lemma {:induction false} MapKeepsLastMessage(idSize: nat, log: seq<Event>, id: Id)
    requires NulFree(log) && id in MapAfter(idSize, log)
    ensures MapAfter(idSize, log)[id].text == LastMessage(idSize, log, id)
  {
    if log != [] {
      var before, e := log[..|log| - 1], log[|log| - 1];
      if id in MapAfter(idSize, before) {
        MapKeepsLastMessage(idSize, before, id);
      }
      if e.StatusSet? && e.message.Some? {
        TextWithoutNul(Truncated(e.message.value));
      }
    }
  }

  /** Over every run whose messages hold no NUL, the text read back up to the
      first NUL is the last message, even after a longer one or in a reused slot. */
  lemma LastMessageReadsBack(idSize: nat, log: seq<Event>, id: Id)
    requires idSize > 0 && IsRun(idSize, log) && NulFree(log) && id in After(idSize, log).table
    ensures Text(Remainder(After(idSize, log), id)) == LastMessage(idSize, log, id)
  {
    StoreIsMap(idSize, log);
    var s := After(idSize, log);
    assert View(s)[id] == UnitOf(s, id);
    MapKeepsLastMessage(idSize, log, id);
    hide After, MapAfter, Consistent, LastMessage, IsRun, NulFree;
  }

  /** Used and free slots divide the file between them. */
  lemma SlotsPartition(s: Store, k: nat)
    requires Consistent(s) && k < s.slots
    ensures Offset(s.idSize, k) in s.free <==> !exists id :: id in s.table && s.table[id].index == Offset(s.idSize, k)
  {
    ReadOneRecord(s, k);
    FreeOrNot(s, k);
  }

  /** Reopening finds a new entry again exactly when its id does not start with NUL. */
  lemma SurvivesReopen(s: Store, id: Id)
    requires Consistent(s) && |id| == s.idSize && id !in s.table && HasRoom(s, id)
    ensures id in Reload(CreateEntry(s, id).1).table <==> id[0] != 0
  {
    CreateMakes(s, id);
    hide Consistent, CreateEntry;
    if id[0] != 0 {
      CreateKeeps(s, id);
      ReopenKeeps(CreateEntry(s, id).1);
    } else {
      NeverReadAgain(CreateEntry(s, id).1, CreateEntry(s, id).1.slots, id);
    }
  }

  lemma {:induction false} NeverReadAgain(s: Store, n: int, id: Id)
    requires |id| == s.idSize > 0 && id[0] == 0 && n >= 0
    ensures id !in ReadTable(s, n)
  {
    hide IsFree, ReadId, ReadEntry;
    if n > 0 {
      NulIsFree(s, n - 1, id);
      NeverReadAgain(s, n - 1, id);
    }
  }

  lemma NulIsFree(s: Store, k: int, id: Id)
    requires |id| == s.idSize > 0 && id[0] == 0
    ensures IsFree(s, k) || ReadId(s, k) != id
  {
  }

  // ---- GetStatus ----------------------------------------------------------------------------

  /** GetStatus hands out the whole remainder of a rolled-back unit; None is the
      exception for an unknown id. */
  function GetStatus(s: Store, id: Id): Option<(Byte, seq<Byte>)> {
    if id !in s.table then None
    else Some((s.table[id].status, if s.table[id].status == ROLLED_BACK then Remainder(s, id) else []))
  }

  /** It returns the message just stored exactly when that fills the field;
      otherwise the NUL, and what earlier messages left behind it, come along. */
  lemma ReadsBackExactlyLongMessages(s: Store, id: Id, m: seq<Byte>)
    requires Consistent(s) && id in s.table
    ensures GetStatus(SetStatus(s, id, ROLLED_BACK, Some(m)).1, id) == Some((ROLLED_BACK, Truncated(m))) <==>
      |m| >= REMAINDER_SIZE
  {
    SetStatusShape(s, id, ROLLED_BACK, Some(m));
    WrittenText(s, RecordAt(s, s.table[id].index), ROLLED_BACK, m);
  }

  /** A short message does not come back as it was given. */
  lemma ShortMessageIsPadded()
    ensures var s := CreateEntry(Fresh(24), [65] + Zeros(23)).1;
      GetStatus(SetStatus(s, [65] + Zeros(23), ROLLED_BACK, Some([69])).1, [65] + Zeros(23)) !=
        Some((ROLLED_BACK, [69]))
  {
    FreshIsConsistent(24);
    CreateKeeps(Fresh(24), [65] + Zeros(23));
    ReadsBackExactlyLongMessages(CreateEntry(Fresh(24), [65] + Zeros(23)).1, [65] + Zeros(23), [69]);
  }
}

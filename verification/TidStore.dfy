/** TidStore.cs over its file, table and stack of free slots, and the handlers
    of StepByStepServer.cs over the store they share. */
module TidStore {
  import opened Collections
  import opened TidStoreTheory
  import opened TidStoreRuns
  import opened TidHandlerTheory

  const TID_SIZE: nat := 24
  const GUID_SIZE: nat := 32

  /** The loop of the constructor can read the id and the status of `n` records. */
  predicate Readable(idSize: nat, file: seq<Byte>, n: int) {
    n <= 0 || Offset(idSize, n - 1) + idSize + 1 <= |file|
  }

  class TransactionStore {
    const idSize: nat
    var file: seq<Byte>
    var table: map<Id, StoreEntry>
    /** The stack of free slots, its top last. */
    var freeEntries: seq<int>
    var slots: int

    function Snapshot(): Store
      reads this
    {
      Store(idSize, file, table, freeEntries, slots)
    }

    ghost predicate Valid()
      reads this
    {
      Consistent(Snapshot())
    }

    /** A store on a file that did not exist. */
    constructor (bgRFC: bool)
      ensures idSize == if bgRFC then GUID_SIZE else TID_SIZE
      ensures Valid() && Snapshot() == Fresh(idSize)
    {
      idSize := if bgRFC then GUID_SIZE else TID_SIZE;
      file, table, freeEntries, slots := Encode(0), map[], [], 0;
      new;
      FreshIsConsistent(idSize);
    }

    method Write(at: nat, bytes: seq<Byte>)
      requires at <= |file|
      modifies `file
      ensures file == WriteAt(old(file), at, bytes)
    {
      file := WriteAt(file, at, bytes);
    }

    /** What the constructor does with a file that exists; false stands for the
        exception on a file that ends too early. */
    method Load() returns (ok: bool)
      modifies this
      ensures |old(file)| < idSize + REMAINDER_SIZE ==>
        ok && Snapshot() == Store(idSize, WriteAt(old(file), 0, Encode(0)), map[], [], 0)
      ensures |old(file)| >= idSize + REMAINDER_SIZE ==>
        && file == old(file) && slots == Decode(file[..4])
        && (ok <==> Readable(idSize, file, slots))
        && (ok ==> Snapshot() == Reload(old(Snapshot()).(slots := slots)))
    {
      if |file| < idSize + REMAINDER_SIZE {
        table, freeEntries, slots := map[], [], 0;
        Write(0, Encode(slots));
        return true;
      }
      slots := Decode(file[..4]);
      ok, table, freeEntries := ReadRecords(Snapshot());
    }

    /** The loop of the constructor over the records of the file. */
    static method ReadRecords(s: Store) returns (ok: bool, table: map<Id, StoreEntry>, free: seq<int>)
      ensures ok <==> Readable(s.idSize, s.file, s.slots)
      ensures ok && s.slots >= 0 ==> table == ReadTable(s, s.slots) && free == ReadFree(s, s.slots)
      ensures s.slots < 0 ==> table == map[] && free == []
    {
      table, free := map[], [];
      var position, i := 4, 0;
      hide Offset, Slice;
      FirstPosition(s.idSize);
      while i < s.slots
        invariant 0 <= i && (s.slots >= 0 ==> i <= s.slots) && (s.slots < 0 ==> i == 0)
        invariant position == Offset(s.idSize, i) && position >= 4 && Readable(s.idSize, s.file, i)
        invariant table == ReadTable(s, i) && free == ReadFree(s, i)
      {
        NextPosition(s.idSize, i);
        if position + s.idSize + 1 > |s.file| {
          if i < s.slots - 1 {
            OffsetsApart(s.idSize, i, s.slots - 1);
          }
          return false, table, free;
        }
        ReadsBytes(s, i);
        var id := s.file[position..position + s.idSize];
        if id != [] && id[0] == 0 {
          free := free + [position];
        } else {
          table := table[id := StoreEntry(position, s.file[position + s.idSize])];
        }
        position := position + RecordSize(s.idSize);
        i := i + 1;
      }
      return true, table, free;
    }

    /** Closing the store and opening it again. */
    method Reopen()
      requires Valid()
      modifies this
      ensures Valid() && Snapshot() == Step(old(Snapshot()), Reopened)
    {
      ReopenKeeps(Snapshot());
      ReadableWhenConsistent(Snapshot());
      hide Consistent, Reload, Readable, WriteAt, Decode;
      var ok := Load();
    }

    /** CreateEntry; None stands for the exception on an id of the wrong length. */
    method Create(id: Id) returns (status: Option<Byte>)
      requires Valid() && (|id| == idSize ==> HasRoom(Snapshot(), id))
      modifies `file, `table, `freeEntries, `slots
      ensures (status, Snapshot()) == CreateEntry(old(Snapshot()), id)
      ensures Valid() <==> (|id| != idSize || id in old(table) || id[0] != 0)
    {
      CreateKeeps(Snapshot(), id);
      if |id| != idSize {
        return None;
      }
      if id in table {
        return Some(table[id].status);
      }
      FreeInFile(Snapshot());
      hide Consistent, WriteAt, FreshRecord;
      var index := TakeSlot();
      table := table[id := StoreEntry(index, CREATED)];
      WriteRecord(index, id);
      return Some(CREATED);
    }

    /** A free slot if there is one, else a new one at the end of the file. */
    method TakeSlot() returns (index: nat)
      requires |file| >= 4 && forall o :: o in freeEntries ==> 0 <= o <= |file|
      modifies `file, `freeEntries, `slots
      ensures index <= |file| == |old(file)|
      ensures old(freeEntries) != [] ==>
        index == old(freeEntries)[|old(freeEntries)| - 1] && freeEntries == old(freeEntries)[..|old(freeEntries)| - 1]
        && file == old(file) && slots == old(slots)
      ensures old(freeEntries) == [] ==>
        index == |file| && freeEntries == [] && slots == old(slots) + 1 && file == WriteAt(old(file), 0, Encode(slots))
    {
      if |freeEntries| > 0 {
        var top := freeEntries[|freeEntries| - 1];
        assert top in freeEntries;
        index := top;
        freeEntries := freeEntries[..|freeEntries| - 1];
      } else {
        index := |file|;
        slots := slots + 1;
        HeaderKeepsLength(file, Encode(slots));
        Write(0, Encode(slots));
      }
    }

    /** The three writes for a new entry. */
    method WriteRecord(index: nat, id: Id)
      requires index <= |file| && |id| == idSize
      modifies `file
      ensures file == WriteAt(old(file), index, FreshRecord(id))
    {
      hide WriteAt, Zeros;
      WriteThreeTimes(file, index, id, [CREATED], Zeros(REMAINDER_SIZE));
      Write(index, id);
      Write(index + idSize, [CREATED]);
      Write(index + idSize + 1, Zeros(REMAINDER_SIZE));
    }

    method Delete(id: Id)
      requires Valid()
      modifies `file, `table, `freeEntries
      ensures Valid() && Snapshot() == DeleteEntry(old(Snapshot()), id)
    {
      DeleteKeeps(Snapshot(), id);
      if id in table {
        SetStatusWrites(Snapshot(), id, CREATED, None);
        hide Consistent, WriteAt, RecordAt;
        var index := table[id].index;
        table := table - {id};
        Write(index, Zeros(idSize));
        freeEntries := freeEntries + [index];
      }
    }

    /** SetStatus; false stands for the exception on an unknown id. */
    method UpdateStatus(id: Id, status: Byte, message: Option<seq<Byte>>) returns (ok: bool)
      requires Valid()
      modifies `file, `table
      ensures Valid() && (ok, Snapshot()) == SetStatus(old(Snapshot()), id, status, message)
      ensures ok <==> id in old(table)
    {
      hide Consistent, WriteAt, StatusBytes, SetStatus;
      ghost var s := Snapshot();
      StatusIsWritten(s, id, status, message);
      if id !in table {
        return false;
      }
      var at := table[id].index + idSize;
      table := table[id := table[id].(status := status)];
      WriteStatus(at, status, message);
      assert Snapshot() == SetStatus(s, id, status, message).1;
      return true;
    }

    /** The writes of SetStatus, one after the other. */
    method WriteStatus(at: nat, status: Byte, message: Option<seq<Byte>>)
      requires at <= |file|
      modifies `file
      ensures file == WriteAt(old(file), at, StatusBytes(status, message))
    {
      ghost var before, bytes := file, StatusBytes(status, message);
      WriteTwice(before, at, [status], bytes[1..]);
      assert bytes == [status] + bytes[1..];
      Write(at, [status]);
      match message {
        case None =>
          assert bytes[1..] == [];
        case Some(err) =>
          var result := if |err| < REMAINDER_SIZE then |err| else REMAINDER_SIZE;
          WriteTwice(file, at + 1, err[..result], [0]);
          Write(at + 1, err[..result]);
          if result < REMAINDER_SIZE {
            assert bytes[1..] == err[..result] + [0];
            Write(at + 1 + result, [0]);
          }
      }
    }

    /** GetStatus */
    method FindStatus(id: Id) returns (found: Option<(Byte, seq<Byte>)>)
      requires Valid()
      ensures found == GetStatus(Snapshot(), id)
    {
      if id !in table {
        return None;
      }
      RemainderBytes(Snapshot(), id);
      hide Consistent, Remainder;
      var e := table[id];
      if e.status != ROLLED_BACK {
        return Some((e.status, []));
      }
      return Some((e.status, file[e.index + idSize + 1..e.index + idSize + 1 + REMAINDER_SIZE]));
    }

    /** The decoding of PrintOverview: the bytes before the first NUL. */
    static method DecodeText(buffer: seq<Byte>) returns (text: seq<Byte>)
      ensures text == Text(buffer)
    {
      var result := 0;
      while result < |buffer| && buffer[result] != 0
        invariant 0 <= result <= |buffer|
        invariant Text(buffer) == buffer[..result] + Text(buffer[result..])
      {
        TextNext(buffer, result);
        result := result + 1;
      }
      assert buffer[..result] + [] == buffer[..result];
      return buffer[..result];
    }
  }

  datatype UnitState = NotFound | InProcess | Committed | RolledBack | Confirmed

  /** MyTidHandler and MyUnitIDHandler differ in the length of their ids only. */
  class UnitHandler {
    const store: TransactionStore

    constructor (bgRFC: bool)
      ensures fresh(store) && store.Valid() && store.Snapshot() == Fresh(store.idSize)
    {
      store := new TransactionStore(bgRFC);
    }

    /** CheckTransactionID, CheckUnitID; None when the exception for a bad id passes through. */
    method Check(id: Id) returns (execute: Option<bool>)
      requires store.Valid() && (|id| == store.idSize ==> HasRoom(store.Snapshot(), id))
      modifies store
      ensures store.Snapshot() == Handle(old(store.Snapshot()), CheckCalled(id))
      ensures store.Valid() <==> (|id| != store.idSize || id in old(store.table) || id[0] != 0)
      ensures execute == if |id| == store.idSize then Some(Executes(old(store.Snapshot()), id)) else None
    {
      hide Consistent;
      var status := store.Create(id);
      match status {
        case None => return None;
        case Some(code) => return Some(code == CREATED || code == ROLLED_BACK);
      }
    }

    method Commit(id: Id)
      requires store.Valid()
      modifies store
      ensures store.Valid() && store.Snapshot() == Handle(old(store.Snapshot()), CommitCalled(id))
    {
      hide Consistent;
      var ok := store.UpdateStatus(id, COMMITTED, None);
    }

    /** Rollback; an unknown id makes the exception pass through. */
    method Rollback(id: Id) returns (ok: bool)
      requires store.Valid()
      modifies store
      ensures store.Valid() && store.Snapshot() == Handle(old(store.Snapshot()), RollbackCalled(id))
      ensures ok <==> id in old(store.table)
    {
      hide Consistent;
      ok := store.UpdateStatus(id, ROLLED_BACK, None);
    }

    method SetError(id: Id, message: seq<Byte>)
      requires store.Valid()
      modifies store
      ensures store.Valid() && store.Snapshot() == Handle(old(store.Snapshot()), ErrorCalled(id, message))
    {
      hide Consistent;
      var ok := store.UpdateStatus(id, ROLLED_BACK, Some(message));
    }

    /** ConfirmTransactionID, ConfirmUnitID: every known unit goes, unless it was rolled back. */
    method Confirm(id: Id)
      requires store.Valid()
      modifies store
      ensures store.Valid() && store.Snapshot() == Handle(old(store.Snapshot()), ConfirmCalled(id))
      ensures id in store.table <==> id in old(store.table) && old(store.table)[id].status == ROLLED_BACK
    {
      DeleteForgets(store.Snapshot(), id);
      var found := store.FindStatus(id);
      hide Consistent;
      match found {
        case None =>
        case Some(unit) =>
          if unit.0 == ROLLED_BACK {
            return;
          }
          store.Delete(id);
      }
    }

    /** GetUnitState */
    method GetUnitState(id: Id) returns (state: UnitState)
      requires store.Valid()
      ensures state.NotFound? <==> id !in store.table
      ensures state.Committed? <==> id in store.table && store.table[id].status == COMMITTED
      ensures state.RolledBack? <==> id in store.table && store.table[id].status == ROLLED_BACK
      ensures state.Confirmed? <==> id in store.table && store.table[id].status == CONFIRMED
    {
      var found := store.FindStatus(id);
      match found {
        case None => return NotFound;
        case Some(unit) =>
          return if unit.0 == CONFIRMED then Confirmed
                 else if unit.0 == COMMITTED then Committed
                 else if unit.0 == ROLLED_BACK then RolledBack
                 else InProcess;
      }
    }
  }

  lemma FirstPosition(idSize: nat)
    ensures Offset(idSize, 0) == 4
  {
  }

  lemma ReadsBytes(s: Store, i: nat)
    requires var o := Offset(s.idSize, i); o >= 4 && o + s.idSize + 1 <= |s.file|
    ensures var o := Offset(s.idSize, i);
      ReadId(s, i) == s.file[o..o + s.idSize] && ReadEntry(s, i) == StoreEntry(o, s.file[o + s.idSize])
  {
    hide Offset;
  }

  lemma TextNext(buffer: seq<Byte>, i: nat)
    requires i < |buffer| && buffer[i] != 0
    ensures buffer[..i] + Text(buffer[i..]) == buffer[..i + 1] + Text(buffer[i + 1..])
  {
    assert buffer[i..][1..] == buffer[i + 1..];
    assert buffer[..i + 1] == buffer[..i] + [buffer[i]];
  }

  lemma NextPosition(idSize: nat, i: int)
    ensures Offset(idSize, i + 1) == Offset(idSize, i) + RecordSize(idSize)
  {
    assert (i + 1) * RecordSize(idSize) == i * RecordSize(idSize) + RecordSize(idSize);
  }

  lemma HeaderKeepsLength(file: seq<Byte>, header: seq<Byte>)
    requires |header| <= |file|
    ensures |WriteAt(file, 0, header)| == |file|
  {
  }

  lemma WriteThreeTimes(file: seq<Byte>, at: nat, a: seq<Byte>, b: seq<Byte>, c: seq<Byte>)
    requires at <= |file|
    ensures |WriteAt(file, at, a)| >= at + |a|
    ensures |WriteAt(WriteAt(file, at, a), at + |a|, b)| >= at + |a| + |b|
    ensures WriteAt(WriteAt(WriteAt(file, at, a), at + |a|, b), at + |a| + |b|, c) == WriteAt(file, at, a + b + c)
  {
    WriteTwice(file, at, a, b);
    WriteTwice(file, at, a + b, c);
  }

  lemma FreeInFile(s: Store)
    requires Consistent(s)
    ensures |s.file| >= 4 && forall o :: o in s.free ==> 0 <= o <= |s.file|
  {
    SlotsFit(s.slots, RecordSize(s.idSize));
    forall o | o in s.free
      ensures 0 <= o <= |s.file|
    {
      assert FreeAgrees(s, o);
      OffsetInFile(s, o);
    }
  }

  lemma ReadableWhenConsistent(s: Store)
    requires Consistent(s)
    ensures Readable(s.idSize, s.file, s.slots) && s.idSize > 0
    ensures |s.file| < s.idSize + REMAINDER_SIZE ==>
      s.slots == 0 && WriteAt(s.file, 0, Encode(0)) == s.file && s.table == map[] && s.free == []
    ensures |s.file| < s.idSize + REMAINDER_SIZE ==> Reload(s) == s
    ensures |s.file| >= 4 && Decode(s.file[..4]) == s.slots
  {
    DecodeEncode(s.slots);
    SlotsFit(s.slots, RecordSize(s.idSize));
    AllInRange(s);
    if s.slots > 0 {
      OffsetsApart(s.idSize, s.slots - 1, s.slots);
      OffsetsApart(s.idSize, 0, s.slots);
    } else {
      EmptyWhenNoSlots(s);
    }
  }

  lemma EmptyWhenNoSlots(s: Store)
    requires Consistent(s) && s.slots == 0
    ensures s.file == Encode(0) && WriteAt(s.file, 0, Encode(0)) == s.file && s.table == map[] && s.free == []
    ensures Reload(s) == s
  {
    if |s.free| > 0 {
      FreeHasSlot(s, s.free[0]);
    }
    AllInRange(s);
    assert s.file == s.file[..4];
    hide Consistent;
    assert s.table == map[];
  }

  lemma FreeHasSlot(s: Store, o: int)
    requires Consistent(s) && o in s.free
    ensures s.slots > 0
  {
    assert FreeAgrees(s, o);
  }

  lemma RemainderBytes(s: Store, id: Id)
    requires Consistent(s) && id in s.table
    ensures var at := s.table[id].index + s.idSize + 1;
      0 <= at && at + REMAINDER_SIZE <= |s.file| && Remainder(s, id) == s.file[at..at + REMAINDER_SIZE]
  {
    UsedIsOffset(s, id);
    OffsetInFile(s, s.table[id].index);
    hide Consistent, Sized, IsOffset;
  }

  lemma StatusIsWritten(s: Store, id: Id, status: Byte, message: Option<seq<Byte>>)
    requires Consistent(s)
    ensures Consistent(SetStatus(s, id, status, message).1)
    ensures id !in s.table ==> SetStatus(s, id, status, message) == (false, s)
    ensures id in s.table ==>
      var at := s.table[id].index + s.idSize;
      && 0 <= at <= |s.file|
      && SetStatus(s, id, status, message) ==
           (true, s.(table := s.table[id := s.table[id].(status := status)],
                     file := WriteAt(s.file, at, StatusBytes(status, message))))
  {
    SetStatusKeeps(s, id, status, message);
    if id in s.table {
      SetStatusWrites(s, id, status, message);
    }
    hide Consistent, WriteAt, StatusBytes;
  }

  lemma DeleteForgets(s: Store, id: Id)
    requires Consistent(s)
    ensures id !in DeleteEntry(s, id).table
  {
    if id in s.table {
      DeleteShape(s, id);
    }
  }
}

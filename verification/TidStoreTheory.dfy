/** The transaction store of the NCo tutorial (TidStore.cs), on values.

    The store is a file: a four-byte count of slots, then one record per slot
    made of an id, a status byte and 80 bytes for an error text.  A record whose
    id starts with NUL is free.  An id is the sequence of its ASCII bytes. */
module TidStoreTheory {
  import opened Collections

  type Id = seq<Byte>

  // TidStatus
  const CREATED: Byte := 1
  const EXECUTED: Byte := 2
  const COMMITTED: Byte := 3
  const ROLLED_BACK: Byte := 4
  const CONFIRMED: Byte := 5

  const REMAINDER_SIZE := 80

  /** StoreEntry; the id is the key it is filed under. */
  datatype StoreEntry = StoreEntry(index: int, status: Byte)

  /** The last element of `free` is the top of the stack. */
  datatype Store = Store(idSize: nat, file: seq<Byte>, table: map<Id, StoreEntry>, free: seq<int>, slots: int)

  function RecordSize(idSize: nat): nat { idSize + 1 + REMAINDER_SIZE }

  function Offset(idSize: nat, k: int): int { 4 + k * RecordSize(idSize) }

  lemma OffsetsApart(idSize: nat, j: int, k: int)
    requires j < k
    ensures Offset(idSize, j) + RecordSize(idSize) <= Offset(idSize, k)
  {
    OneMoreFits(j, k, RecordSize(idSize));
  }

  lemma {:induction false} OneMoreFits(j: int, k: int, size: nat)
    requires j < k
    ensures j * size + size <= k * size
    decreases k - j
  {
    if j + 1 < k {
      OneMoreFits(j, k - 1, size);
    }
    assert (k - 1) * size + size == k * size;
  }

  function Zeros(n: nat): (r: seq<Byte>)
    ensures |r| == n
  {
    seq(n, i => 0)
  }

  // ---- bytes of the file -------------------------------------------------------------------

  /** Seeking to `at` and writing `bytes`. */
  function WriteAt(file: seq<Byte>, at: nat, bytes: seq<Byte>): seq<Byte>
    requires at <= |file|
  {
    file[..at] + bytes + (if at + |bytes| < |file| then file[at + |bytes|..] else [])
  }

  lemma WriteTwice(file: seq<Byte>, at: nat, a: seq<Byte>, b: seq<Byte>)
    requires at <= |file|
    ensures |WriteAt(file, at, a)| >= at + |a|
    ensures WriteAt(WriteAt(file, at, a), at + |a|, b) == WriteAt(file, at, a + b)
  {
  }

  /** Writing within one record changes no other one. */
  lemma WriteInRecord(file: seq<Byte>, size: nat, o: nat, at: nat, bytes: seq<Byte>)
    requires 4 <= o <= at && at + |bytes| <= o + size <= |file|
    ensures |WriteAt(file, at, bytes)| == |file| && WriteAt(file, at, bytes)[..4] == file[..4]
    ensures WriteAt(file, at, bytes)[o..o + size] == WriteAt(file[o..o + size], at - o, bytes)
  {
    var left, right := WriteAt(file, at, bytes)[o..o + size], WriteAt(file[o..o + size], at - o, bytes);
    forall i | 0 <= i < size
      ensures left[i] == right[i]
    {
      WrittenByte(file, at, bytes, o + i);
      WrittenByte(file[o..o + size], at - o, bytes, i);
    }
  }

  lemma WrittenByte(file: seq<Byte>, at: nat, bytes: seq<Byte>, i: nat)
    requires at + |bytes| <= |file| && i < |file|
    ensures |WriteAt(file, at, bytes)| == |file|
    ensures WriteAt(file, at, bytes)[i] == if at <= i < at + |bytes| then bytes[i - at] else file[i]
  {
  }

  lemma WriteElsewhere(file: seq<Byte>, at: nat, bytes: seq<Byte>, p: nat, size: nat)
    requires at <= |file| && p + size <= |file| && (p + size <= at || at + |bytes| <= p)
    ensures p + size <= |WriteAt(file, at, bytes)| && WriteAt(file, at, bytes)[p..p + size] == file[p..p + size]
  {
    var written := WriteAt(file, at, bytes);
    forall i | p <= i < p + size
      ensures i < |written| && written[i] == file[i]
    {
    }
    assert |written[p..p + size]| == size;
  }

  /** BinaryWriter.Write(int) for a number that is not negative. */
  function Encode(n: int): (r: seq<Byte>)
    ensures |r| == 4
  {
    var low, high := n % 65536, n / 65536;
    [(low % 256) as Byte, (low / 256) as Byte, (high % 256) as Byte, (high / 256 % 256) as Byte]
  }

  /** BinaryReader.ReadInt32 */
  function Decode(b: seq<Byte>): int
    requires |b| == 4
  {
    var n: int := b[0] as int + 256 * (b[1] as int) + 65536 * (b[2] as int + 256 * (b[3] as int));
    if n > MAX_INT then n - 0x1_0000_0000 else n
  }

  lemma DecodeEncode(n: int)
    requires 0 <= n <= MAX_INT
    ensures Decode(Encode(n)) == n
  {
  }

  // ---- the invariant -------------------------------------------------------------------------

  ghost predicate IsOffset(s: Store, o: int) {
    exists k :: 0 <= k < s.slots && o == Offset(s.idSize, k)
  }

  function RecordAt(s: Store, o: int): (r: seq<Byte>)
    ensures |r| == RecordSize(s.idSize)
  {
    Slice(s.file, o, RecordSize(s.idSize))
  }

  /** The `n` bytes from position `at` on, if they are there. */
  function Slice(file: seq<Byte>, at: int, n: nat): (r: seq<Byte>)
    ensures |r| == n
  {
    if 0 <= at && at + n <= |file| then file[at..at + n] else Zeros(n)
  }

  /** The file is as long as the slots need and begins with their number. */
  predicate Sized(s: Store) {
    s.idSize > 0 && 0 <= s.slots <= MAX_INT && |s.file| == Offset(s.idSize, s.slots) && s.file[..4] == Encode(s.slots)
  }

  lemma NotNegative(a: nat, b: nat)
    ensures a * b >= 0
  {
  }

  lemma OffsetInFile(s: Store, o: int)
    requires Sized(s) && IsOffset(s, o)
    ensures 4 <= o && o + RecordSize(s.idSize) <= |s.file|
  {
    var k :| 0 <= k < s.slots && o == Offset(s.idSize, k);
    OffsetsApart(s.idSize, k, s.slots);
    NotNegative(k, RecordSize(s.idSize));
    hide RecordSize, Encode;
  }

  lemma OffsetsDisjoint(s: Store, o: int, p: int)
    requires IsOffset(s, o) && IsOffset(s, p) && o != p
    ensures o + RecordSize(s.idSize) <= p || p + RecordSize(s.idSize) <= o
  {
    var j :| 0 <= j < s.slots && o == Offset(s.idSize, j);
    var k :| 0 <= k < s.slots && p == Offset(s.idSize, k);
    if j < k {
      OffsetsApart(s.idSize, j, k);
    } else {
      OffsetsApart(s.idSize, k, j);
    }
  }

  /** A used slot: the record carries the id and the status of the table entry. */
  ghost predicate UsedAgrees(s: Store, id: Id)
    requires id in s.table
  {
    var r := RecordAt(s, s.table[id].index);
    && |id| == s.idSize && s.idSize > 0 && id[0] != 0 && IsOffset(s, s.table[id].index)
    && r[..s.idSize] == id && r[s.idSize] == s.table[id].status
  }

  /** What the record says is what the memory says. */
  ghost predicate RecordAgrees(s: Store, o: int)
  {
    var r := RecordAt(s, o);
    if r[0] == 0 then o in s.free
    else r[..s.idSize] in s.table && s.table[r[..s.idSize]].index == o
  }

  ghost predicate FreeAgrees(s: Store, o: int) {
    IsOffset(s, o) && RecordAt(s, o)[0] == 0
  }

  /** Every slot is either free or in use by exactly one id, and both the table
      and the stack of free slots say what the file says. */
  ghost predicate Consistent(s: Store) {
    && Sized(s)
    && (forall id :: id in s.table ==> UsedAgrees(s, id))
    && (forall o :: o in s.free ==> FreeAgrees(s, o))
    && (forall o :: IsOffset(s, o) ==> RecordAgrees(s, o))
    && NoDuplicates(s.free)
  }

  // ---- operations ------------------------------------------------------------------------------

  /** The first write of a record for `id` in the slot at `o`. */
  function FreshRecord(id: Id): seq<Byte> {
    id + [CREATED] + Zeros(REMAINDER_SIZE)
  }

  predicate HasRoom(s: Store, id: Id) {
    id in s.table || s.free != [] || |s.file| + RecordSize(s.idSize) <= MAX_INT
  }

  /** CreateEntry: the status of the entry, or None for an id of the wrong length. */
  function CreateEntry(s: Store, id: Id): (result: (Option<Byte>, Store)) {
    if |id| != s.idSize then (None, s)
    else if id in s.table then (Some(s.table[id].status), s)
    else if s.free != [] then (Some(CREATED), Reuse(s, id))
    else (Some(CREATED), Extend(s, id))
  }

  function Reuse(s: Store, id: Id): Store
    requires s.free != []
  {
    var o := s.free[|s.free| - 1];
    if 0 <= o <= |s.file| then
      s.(free := s.free[..|s.free| - 1], table := s.table[id := StoreEntry(o, CREATED)],
         file := WriteAt(s.file, o, FreshRecord(id)))
    else s
  }

  function Extend(s: Store, id: Id): Store {
    var file := WriteAt(s.file, 0, Encode(s.slots + 1));
    s.(slots := s.slots + 1, table := s.table[id := StoreEntry(|s.file|, CREATED)],
       file := if |s.file| <= |file| then WriteAt(file, |s.file|, FreshRecord(id)) else file)
  }

  function DeleteEntry(s: Store, id: Id): Store {
    if id in s.table && 0 <= s.table[id].index <= |s.file| then
      s.(table := s.table - {id}, free := s.free + [s.table[id].index],
         file := WriteAt(s.file, s.table[id].index, Zeros(s.idSize)))
    else s
  }

  /** What SetStatus writes after the id. */
  function StatusBytes(status: Byte, message: Option<seq<Byte>>): (r: seq<Byte>)
    ensures 1 <= |r| <= 1 + REMAINDER_SIZE && r[0] == status
  {
    match message
    case None => [status]
    case Some(m) =>
      if |m| < REMAINDER_SIZE then [status] + m + [0] else [status] + m[..REMAINDER_SIZE]
  }

  /** SetStatus: false stands for the exception thrown for an unknown id. */
  function SetStatus(s: Store, id: Id, status: Byte, message: Option<seq<Byte>>): (result: (bool, Store)) {
    if id in s.table && 0 <= s.table[id].index + s.idSize <= |s.file| then
      (true, s.(table := s.table[id := s.table[id].(status := status)],
                file := WriteAt(s.file, s.table[id].index + s.idSize, StatusBytes(status, message))))
    else (false, s)
  }

  // ---- every operation keeps the store consistent --------------------------------------------------

  /** All records but the one at `o` are byte for byte the same. */
  ghost predicate OthersKept(s: Store, s': Store, o: int) {
    s'.idSize == s.idSize && s.slots <= s'.slots &&
    forall p :: IsOffset(s, p) && p != o ==> RecordAt(s', p) == RecordAt(s, p)
  }

  /** A write inside the record at `o`. */
  lemma WriteKeepsOthers(s: Store, s': Store, o: int, at: int, bytes: seq<Byte>)
    requires Sized(s) && IsOffset(s, o) && s'.idSize == s.idSize && s'.slots == s.slots
    requires o <= at && at + |bytes| <= o + RecordSize(s.idSize)
    requires 0 <= at <= |s.file| && s'.file == WriteAt(s.file, at, bytes)
    ensures Sized(s') && OthersKept(s, s', o) && IsOffset(s', o)
    ensures RecordAt(s', o) == WriteAt(RecordAt(s, o), at - o, bytes)
  {
    OffsetInFile(s, o);
    WriteInRecord(s.file, RecordSize(s.idSize), o, at, bytes);
    forall p | IsOffset(s, p) && p != o
      ensures RecordAt(s', p) == RecordAt(s, p)
    {
      OffsetInFile(s, p);
      OffsetsDisjoint(s, o, p);
      WriteElsewhere(s.file, at, bytes, p, RecordSize(s.idSize));
    }
  }

  lemma TwoIdsTwoSlots(s: Store, id: Id, other: Id)
    requires Sized(s) && id in s.table && other in s.table && UsedAgrees(s, id) && UsedAgrees(s, other) && id != other
    ensures s.table[id].index != s.table[other].index
  {
  }

  lemma FreeSlotUnused(s: Store, id: Id, o: int)
    requires Sized(s) && id in s.table && UsedAgrees(s, id) && FreeAgrees(s, o)
    ensures s.table[id].index != o
  {
  }

  /** Table entries do not share slots, nor use free ones. */
  lemma SlotsAreDisjoint(s: Store, id: Id)
    requires Consistent(s) && id in s.table
    ensures s.table[id].index !in s.free
    ensures forall other :: other in s.table && other != id ==> s.table[other].index != s.table[id].index
  {
    assert UsedAgrees(s, id);
    if s.table[id].index in s.free {
      FreeSlotUnused(s, id, s.table[id].index);
    }
    hide RecordAgrees, UsedAgrees, FreeAgrees;
    forall other | other in s.table && other != id
      ensures s.table[other].index != s.table[id].index
    {
      TwoIdsTwoSlots(s, id, other);
    }
  }

  /** A consistent store after one slot `o` has changed hands: the rest of the
      table, of the free slots and of the file is as before. */
  lemma RestKept(s: Store, s': Store, o: int, id: Id)
    requires Consistent(s) && Sized(s') && OthersKept(s, s', o)
    requires forall p :: IsOffset(s', p) ==> p == o || IsOffset(s, p)
    requires forall other :: other in s'.table && other != id ==>
      other in s.table && s'.table[other] == s.table[other] && s.table[other].index != o
    requires forall other :: other in s.table && other != id ==> other in s'.table
    requires id in s.table ==> s.table[id].index == o
    requires forall p :: p != o ==> (p in s'.free <==> p in s.free)
    ensures forall other :: other in s'.table && other != id ==> UsedAgrees(s', other)
    ensures forall p :: p in s'.free && p != o ==> FreeAgrees(s', p)
    ensures forall p :: IsOffset(s', p) && p != o ==> RecordAgrees(s', p)
  {
    forall p | IsOffset(s, p)
      ensures IsOffset(s', p)
    {
      var k :| 0 <= k < s.slots && p == Offset(s.idSize, k);
      assert p == Offset(s'.idSize, k);
    }
    forall other | other in s'.table && other != id
      ensures UsedAgrees(s', other)
    {
      assert UsedAgrees(s, other);
      assert RecordAt(s', s.table[other].index) == RecordAt(s, s.table[other].index);
    }
    forall p | p in s'.free && p != o
      ensures FreeAgrees(s', p)
    {
      assert FreeAgrees(s, p);
      assert RecordAt(s', p) == RecordAt(s, p);
    }
    forall p | IsOffset(s', p) && p != o
      ensures RecordAgrees(s', p)
    {
      assert RecordAgrees(s, p);
      assert RecordAt(s', p) == RecordAt(s, p);
    }
  }

  lemma ReuseShape(s: Store, id: Id)
    requires Consistent(s) && |id| == s.idSize && s.free != []
    ensures var s', o := Reuse(s, id), s.free[|s.free| - 1];
      && s' == s.(free := s.free[..|s.free| - 1], table := s.table[id := StoreEntry(o, CREATED)], file := s'.file)
      && Sized(s') && OthersKept(s, s', o) && IsOffset(s, o) && IsOffset(s', o) && RecordAt(s', o) == FreshRecord(id)
  {
    var s', o := Reuse(s, id), s.free[|s.free| - 1];
    assert FreeAgrees(s, o);
    OffsetInFile(s, o);
    WriteKeepsOthers(s, s', o, o, FreshRecord(id));
  }

  lemma ReuseKeeps(s: Store, id: Id)
    requires Consistent(s) && |id| == s.idSize && id[0] != 0 && id !in s.table && s.free != []
    ensures Consistent(Reuse(s, id))
  {
    var s', o := Reuse(s, id), s.free[|s.free| - 1];
    ReuseShape(s, id);
    FreeSlotsUnused(s);
    assert s.free == s'.free + [o] && NoDuplicates(s'.free);
    assert s.idSize > 0;
    hide Consistent, Reuse, Sized, OthersKept, IsOffset, UsedAgrees, RecordAgrees, FreeAgrees, RecordAt, FreshRecord;
    FreshRecordAgrees(s', o, id);
    StaysConsistent(s, s', o, id);
  }

  lemma FreshRecordAgrees(s: Store, o: int, id: Id)
    requires |id| == s.idSize > 0 && id[0] != 0 && id in s.table && s.table[id] == StoreEntry(o, CREATED)
    requires IsOffset(s, o) && RecordAt(s, o) == FreshRecord(id)
    ensures UsedAgrees(s, id) && RecordAgrees(s, o)
  {
    hide IsOffset, RecordAt;
    assert FreshRecord(id)[..s.idSize] == id;
  }

  lemma FreeSlotsUnused(s: Store)
    requires Consistent(s)
    ensures forall id :: id in s.table ==> s.table[id].index !in s.free
  {
    forall id | id in s.table
      ensures s.table[id].index !in s.free
    {
      SlotsAreDisjoint(s, id);
    }
  }

  lemma StaysConsistent(s: Store, s': Store, o: int, id: Id)
    requires Consistent(s) && Sized(s') && OthersKept(s, s', o)
    requires forall p :: IsOffset(s', p) ==> p == o || IsOffset(s, p)
    requires forall other :: other in s'.table && other != id ==>
      other in s.table && s'.table[other] == s.table[other] && s.table[other].index != o
    requires forall other :: other in s.table && other != id ==> other in s'.table
    requires id in s.table ==> s.table[id].index == o
    requires forall p :: p != o ==> (p in s'.free <==> p in s.free)
    requires id in s'.table ==> UsedAgrees(s', id)
    requires o in s'.free ==> FreeAgrees(s', o)
    requires RecordAgrees(s', o) && NoDuplicates(s'.free)
    ensures Consistent(s')
  {
    RestKept(s, s', o, id);
    hide RecordAgrees, UsedAgrees, FreeAgrees, Sized, IsOffset, OthersKept;
  }

  lemma ExtendBytes(s: Store, id: Id)
    requires |s.file| >= 4 && |id| == s.idSize
    ensures Extend(s, id).file == Encode(s.slots + 1) + s.file[4..] + FreshRecord(id)
  {
  }

  lemma ExtendSized(s: Store, id: Id)
    requires Sized(s) && |id| == s.idSize && |s.file| + RecordSize(s.idSize) <= MAX_INT
    ensures |s.file| >= 4 && Sized(Extend(s, id)) && |s.file| == Offset(s.idSize, s.slots)
  {
    SlotsFit(s.slots, RecordSize(s.idSize));
    ExtendBytes(s, id);
  }

  lemma SlotsFit(slots: nat, size: nat)
    requires size > 0
    ensures 0 <= slots <= slots * size && (slots + 1) * size == slots * size + size
  {
    assert slots * (size - 1) >= 0;
  }

  lemma ExtendOffsets(s: Store, id: Id)
    requires s.slots >= 0
    ensures forall p :: IsOffset(Extend(s, id), p) <==> (p == Offset(s.idSize, s.slots) || IsOffset(s, p))
  {
    forall p
      ensures IsOffset(Extend(s, id), p) <==> (p == Offset(s.idSize, s.slots) || IsOffset(s, p))
    {
      if IsOffset(s, p) {
        var k :| 0 <= k < s.slots && p == Offset(s.idSize, k);
        assert p == Offset(Extend(s, id).idSize, k);
      }
      if p == Offset(s.idSize, s.slots) {
        assert p == Offset(Extend(s, id).idSize, s.slots);
      }
    }
  }

  lemma ExtendShape(s: Store, id: Id)
    requires Sized(s) && |id| == s.idSize && |s.file| + RecordSize(s.idSize) <= MAX_INT
    ensures var s', o := Extend(s, id), |s.file|;
      && Sized(s') && OthersKept(s, s', o) && IsOffset(s', o) && !IsOffset(s, o) && RecordAt(s', o) == FreshRecord(id)
      && s' == s.(slots := s.slots + 1, table := s.table[id := StoreEntry(o, CREATED)], file := s'.file)
      && forall p :: IsOffset(s', p) ==> p == o || IsOffset(s, p)
  {
    var s', o, size := Extend(s, id), |s.file|, RecordSize(s.idSize);
    ExtendSized(s, id);
    ExtendBytes(s, id);
    ExtendOffsets(s, id);
    hide Offset, Extend;
    assert s'.file[o..o + size] == FreshRecord(id);
    forall p | IsOffset(s, p)
      ensures p != o && RecordAt(s', p) == RecordAt(s, p)
    {
      OffsetInFile(s, p);
      assert s'.file[p..p + size] == s.file[p..p + size];
    }
  }

  lemma ExtendKeeps(s: Store, id: Id)
    requires Consistent(s) && |id| == s.idSize && id[0] != 0 && id !in s.table
    requires |s.file| + RecordSize(s.idSize) <= MAX_INT
    ensures Consistent(Extend(s, id)) && OthersKept(s, Extend(s, id), |s.file|)
  {
    var s', o := Extend(s, id), |s.file|;
    ExtendShape(s, id);
    forall other | other in s.table
      ensures s.table[other].index != o
    {
      assert UsedAgrees(s, other);
    }
    assert forall p :: p in s.free ==> FreeAgrees(s, p);
    assert s.idSize > 0;
    hide Consistent, Extend, Sized, OthersKept, IsOffset, UsedAgrees, RecordAgrees, FreeAgrees, RecordAt, FreshRecord;
    FreshRecordAgrees(s', o, id);
    StaysConsistent(s, s', o, id);
  }

  lemma DeleteShape(s: Store, id: Id)
    requires Consistent(s) && id in s.table
    ensures var s', o := DeleteEntry(s, id), s.table[id].index;
      && s' == s.(table := s.table - {id}, free := s.free + [o], file := s'.file)
      && Sized(s') && OthersKept(s, s', o) && IsOffset(s, o) && IsOffset(s', o)
      && RecordAt(s', o)[..s.idSize] == Zeros(s.idSize) && RecordAt(s', o)[s.idSize..] == RecordAt(s, o)[s.idSize..]
  {
    var s', o := DeleteEntry(s, id), s.table[id].index;
    assert UsedAgrees(s, id);
    OffsetInFile(s, o);
    WriteKeepsOthers(s, s', o, o, Zeros(s.idSize));
  }

  lemma DeleteKeeps(s: Store, id: Id)
    requires Consistent(s)
    ensures Consistent(DeleteEntry(s, id))
  {
    if id in s.table {
      var s', o := DeleteEntry(s, id), s.table[id].index;
      DeleteShape(s, id);
      SlotsAreDisjoint(s, id);
      assert UsedAgrees(s, id);
      assert NoDuplicates(s'.free);
      hide Consistent, DeleteEntry, Sized, OthersKept;
      assert RecordAt(s', o)[0] == Zeros(s.idSize)[0];
      StaysConsistent(s, s', o, id);
    }
  }

  lemma SetStatusWrites(s: Store, id: Id, status: Byte, message: Option<seq<Byte>>)
    requires Consistent(s) && id in s.table
    ensures var o := s.table[id].index;
      && Sized(s) && IsOffset(s, o) && 0 <= o && o + RecordSize(s.idSize) <= |s.file|
      && SetStatus(s, id, status, message) ==
           (true, s.(table := s.table[id := StoreEntry(o, status)],
                     file := WriteAt(s.file, o + s.idSize, StatusBytes(status, message))))
  {
    hide Consistent, WriteAt, StatusBytes, RecordAt, UsedAgrees, Offset, IsOffset;
    assert Sized(s) && IsOffset(s, s.table[id].index) by {
      UsedIsOffset(s, id);
    }
    OffsetInFile(s, s.table[id].index);
    hide Sized;
  }

  lemma UsedIsOffset(s: Store, id: Id)
    requires Consistent(s) && id in s.table
    ensures Sized(s) && IsOffset(s, s.table[id].index)
  {
    assert UsedAgrees(s, id);
    hide Sized, IsOffset;
  }

  lemma SetStatusShape(s: Store, id: Id, status: Byte, message: Option<seq<Byte>>)
    requires Consistent(s) && id in s.table
    ensures var (ok, s') := SetStatus(s, id, status, message);
      var o, bytes := s.table[id].index, StatusBytes(status, message);
      && ok && s' == s.(table := s.table[id := StoreEntry(o, status)], file := s'.file)
      && Sized(s') && OthersKept(s, s', o) && IsOffset(s, o) && IsOffset(s', o)
      && RecordAt(s', o) == WriteAt(RecordAt(s, o), s.idSize, bytes)
  {
    var s', o := SetStatus(s, id, status, message).1, s.table[id].index;
    SetStatusWrites(s, id, status, message);
    hide Consistent, Sized, OthersKept, StatusBytes, SetStatus, RecordAt, IsOffset;
    WriteKeepsOthers(s, s', o, o + s.idSize, StatusBytes(status, message));
  }

  lemma SetStatusKeeps(s: Store, id: Id, status: Byte, message: Option<seq<Byte>>)
    requires Consistent(s)
    ensures Consistent(SetStatus(s, id, status, message).1)
    ensures SetStatus(s, id, status, message).0 <==> id in s.table
  {
    if id in s.table {
      var s', o := SetStatus(s, id, status, message).1, s.table[id].index;
      SetStatusShape(s, id, status, message);
      SlotsAreDisjoint(s, id);
      assert UsedAgrees(s, id);
      assert RecordAgrees(s, o);
      hide Consistent, SetStatus, Sized, OthersKept;
      assert RecordAt(s', o)[..s.idSize] == RecordAt(s, o)[..s.idSize];
      StaysConsistent(s, s', o, id);
    }
  }

  /** A new entry keeps the store consistent if and only if its id does not start
      with NUL. */
  lemma CreateKeeps(s: Store, id: Id)
    requires Consistent(s) && (|id| == s.idSize ==> HasRoom(s, id))
    ensures Consistent(CreateEntry(s, id).1) <==> (|id| != s.idSize || id in s.table || id[0] != 0)
  {
    if |id| == s.idSize && id !in s.table {
      if id[0] == 0 {
        CreateMakes(s, id);
        assert !UsedAgrees(CreateEntry(s, id).1, id);
      } else if s.free != [] {
        ReuseKeeps(s, id);
      } else {
        ExtendKeeps(s, id);
      }
    }
    hide OthersKept, Reuse, Extend, Sized;
  }

  lemma CreateMakes(s: Store, id: Id)
    requires Consistent(s) && |id| == s.idSize && id !in s.table
    ensures var s' := CreateEntry(s, id).1;
      id in s'.table && s'.slots >= 0 && s'.idSize == s.idSize && s.idSize > 0
  {
    if s.free != [] {
      ReuseShape(s, id);
    }
  }
}

/** The tRFC and bgRFC handlers of StepByStepServer.cs: a unit that has been
    committed is not executed a second time. */
module TidHandlerTheory {
  import opened Collections
  import opened TidStoreTheory
  import opened TidStoreRuns

  datatype Call =
    | CheckCalled(id: Id)
    | CommitCalled(id: Id)
    | RollbackCalled(id: Id)
    | ConfirmCalled(id: Id)
    | ErrorCalled(id: Id, message: seq<Byte>)
    | StoreReopened

  /** CheckTransactionID and CheckUnitID: whether the unit has to be executed. */
  function Executes(s: Store, id: Id): bool {
    CreateEntry(s, id).0 == Some(CREATED) || CreateEntry(s, id).0 == Some(ROLLED_BACK)
  }

  /** ConfirmTransactionID and ConfirmUnitID keep the units that failed. */
  predicate Forgets(s: Store, id: Id) {
    match GetStatus(s, id)
    case None => false
    case Some(found) => found.0 != ROLLED_BACK
  }

  function Handle(s: Store, c: Call): Store {
    match c
    case CheckCalled(id) => Step(s, Created(id))
    case CommitCalled(id) => Step(s, StatusSet(id, COMMITTED, None))
    case RollbackCalled(id) => Step(s, StatusSet(id, ROLLED_BACK, None))
    case ConfirmCalled(id) => if Forgets(s, id) then Step(s, Deleted(id)) else s
    case ErrorCalled(id, m) => Step(s, StatusSet(id, ROLLED_BACK, Some(m)))
    case StoreReopened => Step(s, Reopened)
  }

  /** The same, on a plain map. */
  function MapHandle(idSize: nat, v: map<Id, Unit>, c: Call): map<Id, Unit> {
    match c
    case CheckCalled(id) => MapStep(idSize, v, Created(id))
    case CommitCalled(id) => MapStep(idSize, v, StatusSet(id, COMMITTED, None))
    case RollbackCalled(id) => MapStep(idSize, v, StatusSet(id, ROLLED_BACK, None))
    case ConfirmCalled(id) => if id in v && v[id].status != ROLLED_BACK then v - {id} else v
    case ErrorCalled(id, m) => MapStep(idSize, v, StatusSet(id, ROLLED_BACK, Some(m)))
    case StoreReopened => v
  }

  predicate CanHandle(s: Store, c: Call) {
    c.CheckCalled? ==> Enabled(s, Created(c.id))
  }

  lemma HandleOnMap(s: Store, c: Call)
    requires Consistent(s) && CanHandle(s, c)
    ensures Consistent(Handle(s, c)) && Handle(s, c).idSize == s.idSize
    ensures View(Handle(s, c)) == MapHandle(s.idSize, View(s), c)
  {
    hide Consistent, Step, Reload;
    match c
    case CheckCalled(id) => StepOnMap(s, Created(id));
    case CommitCalled(id) => StepOnMap(s, StatusSet(id, COMMITTED, None));
    case RollbackCalled(id) => StepOnMap(s, StatusSet(id, ROLLED_BACK, None));
    case ConfirmCalled(id) => if Forgets(s, id) { StepOnMap(s, Deleted(id)); }
    case ErrorCalled(id, m) => StepOnMap(s, StatusSet(id, ROLLED_BACK, Some(m)));
    case StoreReopened => StepOnMap(s, Reopened);
  }

  /** Whether to execute can be read off the map. */
  lemma ExecutesOnMap(s: Store, id: Id)
    requires |id| == s.idSize
    ensures Executes(s, id) <==> (id !in View(s) || View(s)[id].status == CREATED || View(s)[id].status == ROLLED_BACK)
  {
  }

  function AfterCalls(idSize: nat, log: seq<Call>): Store {
    if log == [] then Fresh(idSize) else Handle(AfterCalls(idSize, log[..|log| - 1]), log[|log| - 1])
  }

  predicate IsCallRun(idSize: nat, log: seq<Call>) {
    log == [] || (IsCallRun(idSize, log[..|log| - 1]) &&
      CanHandle(AfterCalls(idSize, log[..|log| - 1]), log[|log| - 1]))
  }

  function MapAfterCalls(idSize: nat, log: seq<Call>): map<Id, Unit> {
    if log == [] then map[] else MapHandle(idSize, MapAfterCalls(idSize, log[..|log| - 1]), log[|log| - 1])
  }

  lemma {:induction false} CallsOnMap(idSize: nat, log: seq<Call>)
    requires idSize > 0 && IsCallRun(idSize, log)
    ensures Consistent(AfterCalls(idSize, log)) && AfterCalls(idSize, log).idSize == idSize
    ensures View(AfterCalls(idSize, log)) == MapAfterCalls(idSize, log)
  {
    hide Consistent, Handle, MapHandle, CanHandle, View;
    if log == [] {
      FreshIsConsistent(idSize);
    } else {
      CallsOnMap(idSize, log[..|log| - 1]);
      HandleOnMap(AfterCalls(idSize, log[..|log| - 1]), log[|log| - 1]);
    }
  }

  /** A unit that was checked stays known while it is not confirmed. */
  lemma {:induction false} CheckedIsKnown(idSize: nat, log: seq<Call>, i: nat, id: Id)
    requires i < |log| && log[i] == CheckCalled(id) && |id| == idSize
    requires forall k :: i < k < |log| ==> log[k] != ConfirmCalled(id)
    ensures id in MapAfterCalls(idSize, log)
    decreases |log|
  {
    if i < |log| - 1 {
      CheckedIsKnown(idSize, log[..|log| - 1], i, id);
    }
  }

  /** What may make a committed unit be executed again. */
  predicate Reconsiders(c: Call, id: Id) {
    c == ConfirmCalled(id) || c == RollbackCalled(id) || (c.ErrorCalled? && c.id == id)
  }

  lemma {:induction false} CommittedStays(idSize: nat, log: seq<Call>, i: nat, j: nat, id: Id)
    requires i < j < |log| && log[i] == CheckCalled(id) && |id| == idSize && log[j] == CommitCalled(id)
    requires forall k :: i < k < j ==> log[k] != ConfirmCalled(id)
    requires forall k :: j < k < |log| ==> !Reconsiders(log[k], id)
    ensures id in MapAfterCalls(idSize, log) && MapAfterCalls(idSize, log)[id].status == COMMITTED
    decreases |log|
  {
    if j < |log| - 1 {
      CommittedStays(idSize, log[..|log| - 1], i, j, id);
      assert !Reconsiders(log[|log| - 1], id);
    } else {
      CheckedIsKnown(idSize, log[..|log| - 1], i, id);
    }
  }

  /** Once a commit follows a check, no later check asks for the unit to be
      executed, whatever happens to other units and however often the store is
      closed and reopened, until the unit is confirmed, rolled back or has an
      error set. */
  lemma CommittedIsNotExecutedAgain(idSize: nat, log: seq<Call>, i: nat, j: nat, id: Id)
    requires idSize > 0 && IsCallRun(idSize, log)
    requires i < j < |log| && log[i] == CheckCalled(id) && |id| == idSize && log[j] == CommitCalled(id)
    requires forall k :: i < k < j ==> log[k] != ConfirmCalled(id)
    requires forall k :: j < k < |log| ==> !Reconsiders(log[k], id)
    ensures !Executes(AfterCalls(idSize, log), id)
  {
    CallsOnMap(idSize, log);
    CommittedStays(idSize, log, i, j, id);
    ExecutesOnMap(AfterCalls(idSize, log), id);
    hide Consistent, View, Executes;
  }

  /** A unit rolled back or with an error set is asked for again, even after a
      confirmation, until it is committed. */
  lemma FailedIsExecutedAgain(idSize: nat, log: seq<Call>, j: nat, id: Id)
    requires idSize > 0 && IsCallRun(idSize, log) && |id| == idSize
    requires j < |log| && (log[j] == RollbackCalled(id) || (log[j].ErrorCalled? && log[j].id == id))
    requires forall k :: j < k < |log| ==> log[k] != CommitCalled(id)
    ensures Executes(AfterCalls(idSize, log), id)
  {
    CallsOnMap(idSize, log);
    FailedStays(idSize, log, j, id);
    ExecutesOnMap(AfterCalls(idSize, log), id);
    hide Consistent, View, Executes;
  }

  lemma {:induction false} FailedStays(idSize: nat, log: seq<Call>, j: nat, id: Id)
    requires j < |log| && (log[j] == RollbackCalled(id) || (log[j].ErrorCalled? && log[j].id == id))
    requires forall k :: j < k < |log| ==> log[k] != CommitCalled(id)
    ensures id in MapAfterCalls(idSize, log) ==> MapAfterCalls(idSize, log)[id].status in {CREATED, ROLLED_BACK}
    decreases |log|
  {
    if j < |log| - 1 {
      FailedStays(idSize, log[..|log| - 1], j, id);
    }
  }

  /** An error set for a known unit is what its status then says, also across
      confirmations and reopening, until the unit is committed, rolled back again
      or given another error. */
  lemma ErrorIsReported(idSize: nat, log: seq<Call>, j: nat, id: Id, message: seq<Byte>)
    requires idSize > 0 && IsCallRun(idSize, log)
    requires j < |log| && log[j] == ErrorCalled(id, message) && id in AfterCalls(idSize, log[..j]).table
    requires forall k :: j < k < |log| ==>
      log[k] == CheckCalled(id) || log[k] == ConfirmCalled(id) || !About(log[k], id)
    ensures var s := AfterCalls(idSize, log);
      id in s.table && s.table[id].status == ROLLED_BACK && Text(Remainder(s, id)) == Text(Truncated(message))
  {
    RunPrefix(idSize, log, j);
    CallsOnMap(idSize, log[..j]);
    assert id in View(AfterCalls(idSize, log[..j]));
    CallsOnMap(idSize, log);
    ErrorStays(idSize, log, j, id, message);
    assert View(AfterCalls(idSize, log))[id] == UnitOf(AfterCalls(idSize, log), id);
    hide Consistent, AfterCalls, MapAfterCalls, IsCallRun;
  }

  predicate About(c: Call, id: Id) {
    !c.StoreReopened? && c.id == id
  }

  lemma {:induction false} RunPrefix(idSize: nat, log: seq<Call>, n: nat)
    requires IsCallRun(idSize, log) && n <= |log|
    ensures IsCallRun(idSize, log[..n])
  {
    if n < |log| {
      RunPrefix(idSize, log[..|log| - 1], n);
      assert log[..|log| - 1][..n] == log[..n];
    } else {
      assert log[..n] == log;
    }
  }

  lemma {:induction false} ErrorStays(idSize: nat, log: seq<Call>, j: nat, id: Id, message: seq<Byte>)
    requires j < |log| && log[j] == ErrorCalled(id, message) && id in MapAfterCalls(idSize, log[..j])
    requires forall k :: j < k < |log| ==>
      log[k] == CheckCalled(id) || log[k] == ConfirmCalled(id) || !About(log[k], id)
    ensures id in MapAfterCalls(idSize, log)
    ensures MapAfterCalls(idSize, log)[id] == Unit(ROLLED_BACK, Text(Truncated(message)))
    decreases |log|
  {
    var before, last := log[..|log| - 1], log[|log| - 1];
    if j < |log| - 1 {
      assert before[..j] == log[..j];
      ErrorStays(idSize, before, j, id, message);
      assert last == CheckCalled(id) || last == ConfirmCalled(id) || !About(last, id);
    } else {
      assert before == log[..j];
    }
  }
}

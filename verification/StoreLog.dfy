// The reference for storage/inmemory/value_store.go: an unbounded log with one entry per
// revision, and what each operation answers about it.
module StoreLog {
  import opened Basics

  // Entry i of a log is revision i + 1.
  datatype Entry<T> = Written(value: T) | Deleted

  datatype StoreError = NotFound | Conflict | OutOfRange

  datatype Revised<T> = Revised(value: T, revision: int)

  datatype Event<T> = PutEvent(current: Revised<T>, previous: Option<Revised<T>>)
      | DeleteEvent(previous: Option<Revised<T>>)

  const CAPACITY := 64

  // Deletions follow values only.
  predicate WellFormedLog<T>(log: seq<Entry<T>>) {
    forall i | 0 <= i < |log| && log[i].Deleted? :: i > 0 && log[i - 1].Written?
  }

  // A value is active.
  predicate Exists<T>(log: seq<Entry<T>>) {
    log != [] && log[|log| - 1].Written?
  }

  predicate WrittenAt<T>(log: seq<Entry<T>>, r: int) {
    1 <= r <= |log| && log[r - 1].Written?
  }

  function RevisedAt<T>(log: seq<Entry<T>>, r: int): Option<Revised<T>> {
    if WrittenAt(log, r) then Some(Revised(log[r - 1].value, r)) else None
  }

  // Compare-and-swap guard; revision 0 asks that no value be active.
  predicate MayPut<T>(log: seq<Entry<T>>, expected: Option<int>) {
    match expected
    case None => true
    case Some(r) => if r == 0 then !Exists(log) else r == |log|
  }

  function DeleteError<T>(log: seq<Entry<T>>, expected: Option<int>): Option<StoreError> {
    if log == [] then Some(NotFound)
    else if expected.Some? && expected.value != |log| then Some(Conflict)
    else if !Exists(log) then Some(NotFound)
    else None
  }

  // Reads see the newest 64 revisions.
  function ReadLog<T>(log: seq<Entry<T>>, at: Option<int>): Result<Revised<T>, StoreError> {
    var r := if at.Some? then at.value else |log|;
    if r > |log| then Err(OutOfRange)
    else if log == [] && r != 0 then Err(OutOfRange)
    else if r > |log| - CAPACITY && WrittenAt(log, r) then Ok(Revised(log[r - 1].value, r))
    else Err(NotFound)
  }

  // The event a watcher receives when revision r is written.
  function LiveEvent<T>(log: seq<Entry<T>>, r: int): Event<T>
    requires 1 <= r <= |log|
  {
    if log[r - 1].Written? then PutEvent(Revised(log[r - 1].value, r), RevisedAt(log, r - 1))
    else DeleteEvent(RevisedAt(log, r - 1))
  }

  // The events of revisions from up to, but not including, to.
  function LiveEvents<T>(log: seq<Entry<T>>, from: int, to: int): seq<Event<T>>
    requires 1 <= from <= to <= |log| + 1
  {
    seq(to - from, i requires 0 <= i < to - from => LiveEvent(log, from + i))
  }

  // Walks over the ring stop one slot short of its capacity.
  predicate InWalk<T>(log: seq<Entry<T>>, r: int) { |log| - (CAPACITY - 1) < r <= |log| }

  // First revision a watch delivers: the next one when none is replayed.
  function ReplayStart<T>(log: seq<Entry<T>>, at: Option<int>): Result<int, StoreError> {
    if at.None? then Ok(|log| + 1)
    else if at.value <= 0 then Ok(if Exists(log) then |log| else |log| + 1)
    else if InWalk(log, at.value) && WrittenAt(log, at.value) then Ok(at.value)
    else if |log| < CAPACITY - 1 then Err(NotFound)
    else Ok(|log| + 1)
  }

  // First revision of the run of values that ends at r, looking back no further than low.
  function RunStart<T>(log: seq<Entry<T>>, r: int, low: int): (s: int)
    requires WrittenAt(log, r) && low < r
    ensures low < s <= r
    ensures forall i | s <= i <= r :: WrittenAt(log, i)
    ensures s - 1 == low || !WrittenAt(log, s - 1)
    decreases r - low
  {
    if r - 1 > low && WrittenAt(log, r - 1) then RunStart(log, r - 1, low) else r
  }

  // Where a history ends: a revision, or nothing to report (an empty list), or an error.
  function HistoryEnd<T>(log: seq<Entry<T>>, at: Option<int>): Result<Option<int>, StoreError> {
    if log == [] then Err(NotFound)
    else if at.None? then if Exists(log) then Ok(Some(|log|)) else Err(NotFound)
    else if InWalk(log, at.value) && WrittenAt(log, at.value) then Ok(Some(at.value))
    else if |log| < CAPACITY - 1 then Err(NotFound)
    else if |log| >= CAPACITY && log[|log| - CAPACITY].Deleted? then Err(NotFound)
    else Ok(None)
  }

  datatype Snapshot<T> = Snapshot(revision: int, value: Option<T>)

  function SnapshotAt<T>(log: seq<Entry<T>>, r: int, includeValues: bool): Snapshot<T>
    requires WrittenAt(log, r)
  {
    Snapshot(r, if includeValues then Some(log[r - 1].value) else None)
  }

  function HistoryOf<T>(log: seq<Entry<T>>, end: Option<int>, includeValues: bool): seq<Snapshot<T>>
    requires end.Some? ==> WrittenAt(log, end.value) && InWalk(log, end.value)
  {
    if end.None? then [] else
      var s := RunStart(log, end.value, WalkFloor(log));
      seq(end.value + 1 - s, i requires 0 <= i < end.value + 1 - s => SnapshotAt(log, s + i, includeValues))
  }

  // The oldest revision no walk reaches.
  function WalkFloor<T>(log: seq<Entry<T>>): int {
    if |log| - (CAPACITY - 1) < 0 then 0 else |log| - (CAPACITY - 1)
  }

  // Writing does not change the events of earlier revisions.
  lemma EventsStable<T>(log: seq<Entry<T>>, more: seq<Entry<T>>, from: int, to: int)
    requires 1 <= from <= to <= |log| + 1
    ensures LiveEvents(log + more, from, to) == LiveEvents(log, from, to)
  {
    forall i | 0 <= i < to - from
      ensures LiveEvents(log + more, from, to)[i] == LiveEvents(log, from, to)[i]
    {
      var r := from + i;
      assert (log + more)[r - 1] == log[r - 1];
      assert r > 1 ==> (log + more)[r - 2] == log[r - 2];
      assert RevisedAt(log + more, r - 1) == RevisedAt(log, r - 1);
      assert LiveEvent(log + more, r) == LiveEvent(log, r);
    }
  }

  lemma OneMoreEvent<T>(log: seq<Entry<T>>, from: int)
    requires log != [] && 1 <= from <= |log|
    ensures LiveEvents(log, from, |log| + 1) == LiveEvents(log, from, |log|) + [LiveEvent(log, |log|)]
  {
  }
}

// storage/inmemory/value_store.go: the 64-slot ring, its revision counter and its watches.
module ValueStores {
  import opened Basics
  import opened StoreLog
  import StoreLaws

  datatype Element<T> = Element(revision: int, entry: Entry<T>)

  function Next(i: nat): (j: nat) requires i < CAPACITY ensures j < CAPACITY { (i + 1) % CAPACITY }

  function Prev(i: nat): (j: nat) requires i < CAPACITY ensures j < CAPACITY { (i + CAPACITY - 1) % CAPACITY }

  lemma SlotNumber(r: int, q: int, c: int)
    requires 0 <= c < CAPACITY && r == CAPACITY * q + c
    ensures r % CAPACITY == c
  {
  }

  lemma Steps(r: int)
    ensures Next(r % CAPACITY) == (r + 1) % CAPACITY
    ensures Prev(r % CAPACITY) == (r - 1) % CAPACITY
  {
    var q, c := r / CAPACITY, r % CAPACITY;
    assert r == CAPACITY * q + c;
    if c == CAPACITY - 1 { SlotNumber(r + 1, q + 1, 0); } else { SlotNumber(r + 1, q, c + 1); }
    if c == 0 { SlotNumber(r - 1, q - 1, CAPACITY - 1); } else { SlotNumber(r - 1, q, c - 1); }
  }

  lemma DistinctSlots(a: int, b: int)
    requires a < b < a + CAPACITY
    ensures a % CAPACITY != b % CAPACITY
  {
  }

  class ValueStore<T> {
    const ring: array<Option<Element<T>>>
    var cursor: nat
    var revision: int
    // Events handed to each registered callback so far.
    var watches: map<nat, seq<Event<T>>>
    var nextWatch: nat
    ghost var log: seq<Entry<T>>
    // First revision handed to each callback.
    ghost var since: map<nat, int>

    // Slot r % 64 holds revision r, for each of the newest 64 numbers r.
    ghost predicate RingHolds()
      reads this, ring
    {
      && ring.Length == CAPACITY
      && forall r | |log| - CAPACITY < r <= |log| ::
           ring[r % CAPACITY] == if r >= 1 then Some(Element(r, log[r - 1])) else None
    }

    ghost predicate WatchesHold()
      reads this
    {
      && since.Keys == watches.Keys
      && (forall id | id in watches :: id < nextWatch && 1 <= since[id] <= |log| + 1)
      && (forall id | id in watches :: watches[id] == LiveEvents(log, since[id], |log| + 1))
    }

    ghost predicate Valid()
      reads this, ring
    {
      && WellFormedLog(log)
      && revision == |log|
      && cursor == |log| % CAPACITY
      && RingHolds()
      && WatchesHold()
    }

    constructor ()
      ensures Valid() && fresh(ring)
      ensures log == [] && watches == map[]
    {
      ring := new Option<Element<T>>[CAPACITY](_ => None);
      cursor, revision := 0, 0;
      watches, nextWatch := map[], 0;
      log, since := [], map[];
    }

    // What the slot at revision r's place holds.
    lemma SlotOf(r: int)
      requires Valid() && |log| - CAPACITY < r <= |log|
      ensures 0 <= r % CAPACITY < CAPACITY == ring.Length
      ensures r < 1 ==> ring[r % CAPACITY].None?
      ensures r >= 1 ==> ring[r % CAPACITY] == Some(Element(r, log[r - 1]))
    {
    }

    // Writes the next revision. The watches have yet to hear of it.
    method Write(entry: Entry<T>)
      requires Valid() && (entry.Deleted? ==> Exists(log))
      modifies this`cursor, this`revision, this`log, ring
      ensures log == old(log) + [entry] && WellFormedLog(log)
      ensures revision == |log| && cursor == |log| % CAPACITY && RingHolds()
    {
      revision := revision + 1;
      Steps(|log|);
      ghost var n := |log| + 1;
      var next := Next(cursor);
      ring[next] := Some(Element(revision, entry));
      cursor := next;
      log := log + [entry];
      forall r | n - CAPACITY < r < n
        ensures ring[r % CAPACITY] == if r >= 1 then Some(Element(r, log[r - 1])) else None
      {
        DistinctSlots(r, n);
        assert ring[r % CAPACITY] == old(ring[r % CAPACITY]);
      }
    }

    // Hands the event of the newest revision to every registered callback, in any order.
    method Notify(ev: Event<T>)
      requires log != [] && ev == LiveEvent(log, |log|)
      requires WatchesBehind()
      modifies this`watches
      ensures WatchesHold()
    {
      hide LiveEvents, LiveEvent;
      var todo := watches.Keys;
      while todo != {}
        invariant todo <= watches.Keys == old(watches.Keys)
        invariant forall id | id in watches ::
                    watches[id] == old(watches)[id] + if id in todo then [] else [ev]
        decreases todo
      {
        var id :| id in todo;
        watches := watches[id := watches[id] + [ev]];
        todo := todo - {id};
      }
      forall id | id in watches
        ensures watches[id] == LiveEvents(log, since[id], |log| + 1)
      {
        OneMoreEvent(log, since[id]);
      }
    }

    ghost predicate WatchesBehind()
      reads this
    {
      && log != []
      && since.Keys == watches.Keys
      && (forall id | id in watches :: id < nextWatch && 1 <= since[id] <= |log|)
      && (forall id | id in watches :: watches[id] == LiveEvents(log, since[id], |log|))
    }

    // What the watches held before a write is what they hold of the log with it.
    twostate lemma WatchesKept(entry: Entry<T>)
      requires old(WatchesHold()) && log == old(log) + [entry]
      requires watches == old(watches) && since == old(since) && nextWatch == old(nextWatch)
      ensures WatchesBehind()
    {
      forall id | id in watches
        ensures watches[id] == LiveEvents(log, since[id], |log|)
      {
        EventsStable(old(log), [entry], since[id], |log|);
      }
    }

    method Put(value: T, expected: Option<int>) returns (res: Result<int, StoreError>)
      requires Valid()
      modifies this, ring
      ensures Valid()
      ensures nextWatch == old(nextWatch) && since == old(since)
      ensures log == StoreLaws.After(old(log), StoreLaws.Put(value, expected))
      ensures if MayPut(old(log), expected) then log == old(log) + [Written(value)] && res == Ok(|log|)
              else log == old(log) && res == Err(Conflict) && watches == old(watches)
    {
      SlotOf(|log|);
      if expected.Some? {
        if expected.value == 0 {
          if revision != 0 && !ring[cursor].value.entry.Deleted? {
            return Err(Conflict);
          }
        } else if expected.value != revision {
          return Err(Conflict);
        }
      }
      var previous := ring[cursor];
      Write(Written(value));
      WatchesKept(Written(value));
      Notify(PutEvent(Revised(value, revision), PreviousOf(previous)));
      return Ok(revision);
    }

    // A deleted or missing previous element is not reported.
    static function PreviousOf(slot: Option<Element<T>>): Option<Revised<T>> {
      if slot.Some? && slot.value.entry.Written?
      then Some(Revised(slot.value.entry.value, slot.value.revision)) else None
    }

    method Delete(expected: Option<int>) returns (err: Option<StoreError>)
      requires Valid()
      modifies this, ring
      ensures Valid()
      ensures nextWatch == old(nextWatch) && since == old(since)
      ensures log == StoreLaws.After(old(log), StoreLaws.Delete(expected))
      ensures err == DeleteError(old(log), expected)
      ensures if err.None? then log == old(log) + [Deleted] else log == old(log) && watches == old(watches)
    {
      if revision == 0 {
        return Some(NotFound);
      }
      if expected.Some? && expected.value != revision {
        return Some(Conflict);
      }
      SlotOf(|log|);
      if ring[cursor].value.entry.Deleted? {
        return Some(NotFound);
      }
      var previous := ring[cursor];
      Write(Deleted);
      WatchesKept(Deleted);
      Notify(DeleteEvent(PreviousOf(previous)));
      return None;
    }

    method Get(at: Option<int>) returns (res: Result<Revised<T>, StoreError>)
      requires Valid()
      ensures res == ReadLog(log, at)
    {
      if revision == 0 {
        return if at.Some? && at.value != 0 then Err(OutOfRange) else Err(NotFound);
      }
      SlotOf(|log|);
      var found: Option<Element<T>> := None;
      if at.Some? {
        if revision == at.value {
          found := ring[cursor];
        } else if at.value > revision {
          return Err(OutOfRange);
        } else {
          ghost var r := |log| - 1;
          Steps(|log|);
          var elem := Prev(cursor);
          while elem != cursor
            invariant |log| - CAPACITY <= r < |log| && elem == r % CAPACITY
            invariant found.None?
            invariant forall i | r < i < |log| && WrittenAt(log, i) :: i != at.value
            decreases r + CAPACITY - |log|
          {
            DistinctOrSame(r);
            SlotOf(r);
            if ring[elem].None? {
              break;
            }
            var v := ring[elem].value;
            if !v.entry.Deleted? && v.revision == at.value {
              found := Some(v);
              break;
            }
            Steps(r);
            elem := Prev(elem);
            r := r - 1;
          }
        }
      } else {
        found := ring[cursor];
      }
      if found.None? || found.value.entry.Deleted? {
        return Err(NotFound);
      }
      return Ok(Revised(found.value.entry.value, found.value.revision));
    }

    // Walking back from the cursor, the walk is at the cursor again only after all 64 slots.
    lemma DistinctOrSame(r: int)
      requires Valid() && |log| - CAPACITY <= r < |log|
      ensures r % CAPACITY == cursor <==> r == |log| - CAPACITY
    {
    }

    // Where a backward walk for revision at stops: at it, at an unused slot (None), or past the
    // oldest slot it looks at, which is the slot after the cursor.
    method WalkBack(at: int) returns (stop: Option<nat>, ghost r: int)
      requires Valid() && log != []
      ensures stop.None? <==> |log| < CAPACITY - 1 && !(InWalk(log, at) && WrittenAt(log, at))
      ensures stop.Some? ==> stop.value == r % CAPACITY
      ensures stop.Some? && InWalk(log, at) && WrittenAt(log, at) ==> r == at
      ensures stop.Some? && !(InWalk(log, at) && WrittenAt(log, at)) ==> r == |log| - (CAPACITY - 1)
    {
      var current := cursor;
      r := |log|;
      while current != Next(cursor)
        invariant |log| - (CAPACITY - 1) <= r <= |log| && current == r % CAPACITY
        invariant r >= 0
        invariant forall i | r < i <= |log| :: !(WrittenAt(log, i) && i == at)
        decreases r + CAPACITY - |log|
      {
        AfterCursor(r);
        SlotOf(r);
        if ring[current].None? {
          return None, r;
        }
        var elem := ring[current].value;
        if !elem.entry.Deleted? && elem.revision == at {
          return Some(current), r;
        }
        Steps(r);
        current := Prev(current);
        r := r - 1;
      }
      AfterCursor(r);
      return Some(current), r;
    }

    // The slot after the cursor is the place of the next revision and of the one 63 back.
    lemma AfterCursor(r: int)
      requires Valid() && |log| - (CAPACITY - 1) <= r <= |log| + 1
      ensures r % CAPACITY == Next(cursor) <==> r == |log| - (CAPACITY - 1) || r == |log| + 1
    {
    }

    // Replays from a revision on and registers for what follows.
    method Watch(at: Option<int>) returns (res: Result<nat, StoreError>, events: seq<Event<T>>)
      requires Valid()
      modifies this`watches, this`nextWatch, this`since
      ensures Valid()
      ensures res.Err? <==> ReplayStart(log, at).Err?
      ensures res.Err? ==> res.error == ReplayStart(log, at).error && watches == old(watches) && since == old(since)
      ensures res.Ok? ==>
                && events == LiveEvents(log, ReplayStart(log, at).value, |log| + 1) && |events| < CAPACITY
                && res.value == old(nextWatch) && res.value !in old(watches)
                && watches == old(watches)[res.value := []] && since == old(since)[res.value := |log| + 1]
    {
      hide RingHolds, WatchesHold, WellFormedLog, LiveEvents;
      events := [];
      var current := cursor;
      ghost var r := |log|;
      Steps(|log|);
      if at.Some? {
        if at.value > 0 {
          if revision == 0 {
            return Err(NotFound), [];
          }
          var stop;
          stop, r := WalkBack(at.value);
          if stop.None? {
            return Err(NotFound), [];
          }
          current := stop.value;
          AfterCursor(r);
          if r == |log| - (CAPACITY - 1) { r := |log| + 1; }
        }
      } else {
        current := Next(current);
        r := |log| + 1;
      }
      events := Replay(current, r, at);
      ReplayLength(ReplayStart(log, at).value);
      var id := Register();
      res := Ok(id);
    }

    lemma ReplayLength(start: int)
      ensures 1 <= start <= |log| + 1 ==> |LiveEvents(log, start, |log| + 1)| == |log| + 1 - start
    {
    }

    // Adds a callback that hears of every write from now on.
    method Register() returns (id: nat)
      requires Valid()
      modifies this`watches, this`nextWatch, this`since
      ensures Valid()
      ensures id == old(nextWatch) && id !in old(watches)
      ensures watches == old(watches)[id := []] && since == old(since)[id := |log| + 1]
    {
      id := nextWatch;
      watches, since := watches[id := []], since[id := |log| + 1];
      nextWatch := nextWatch + 1;
      assert LiveEvents(log, |log| + 1, |log| + 1) == [];
    }

    // Walks forward from the slot of revision r to the cursor, writing the events.
    method Replay(from: nat, ghost first: int, at: Option<int>) returns (events: seq<Event<T>>)
      requires Valid() && |log| - (CAPACITY - 1) < first <= |log| + 1 && from == first % CAPACITY
      requires at.None? ==> first == |log| + 1
      requires at.Some? && at.value <= 0 ==> first == |log|
      requires at.Some? && at.value > 0 && first <= |log| ==> first >= 1
      ensures var start := if at.Some? && at.value <= 0 && !Exists(log) then |log| + 1 else first;
              start >= 1 && events == LiveEvents(log, start, |log| + 1)
    {
      hide RingHolds, WatchesHold, WellFormedLog, LiveEvents, LiveEvent;
      events := [];
      NoEvents();
      var current := from;
      ghost var r := first;
      ghost var start := if at.Some? && at.value <= 0 && !Exists(log) then |log| + 1 else first;
      Steps(first);
      SlotOf(first - 1);
      var previous := PreviousOf(ring[Prev(current)]);
      AfterCursor(r);
      while current != Next(cursor)
        invariant first <= r <= |log| + 1 && current == r % CAPACITY
        invariant current == Next(cursor) <==> r == |log| + 1
        invariant r >= start || (r == |log| && start == |log| + 1)
        invariant events == LiveEvents(log, start, if r < start then start else r)
        invariant previous == RevisedAt(log, r - 1)
        decreases |log| + 1 - r
      {
        SlotOf(r);
        events, previous := ReplaySlot(ring[current], at, events, previous, r, start);
        Steps(r);
        current := Next(current);
        r := r + 1;
        AfterCursor(r);
      }
    }

    // One slot of the walk: the event of the revision it holds.
    method ReplaySlot(slot: Option<Element<T>>, at: Option<int>, events: seq<Event<T>>, previous: Option<Revised<T>>,
                      ghost r: int, ghost start: int)
      returns (events': seq<Event<T>>, previous': Option<Revised<T>>)
      requires r <= |log| && 1 <= start <= |log| + 1
      requires slot == if r >= 1 then Some(Element(r, log[r - 1])) else None
      requires r >= start || (r == |log| && start == |log| + 1)
      requires at.Some? && at.value <= 0 ==> r == |log|
      requires r < start <==> at.Some? && at.value <= 0 && !Exists(log)
      requires events == LiveEvents(log, start, if r < start then start else r)
      requires previous == RevisedAt(log, r - 1)
      ensures events' == LiveEvents(log, start, if r + 1 < start then start else r + 1)
      ensures previous' == RevisedAt(log, r)
    {
      hide LiveEvents;
      events', previous' := events, previous;
      if slot.Some? {
        Extend(start, r);
        if slot.value.entry.Deleted? {
          if at.None? || at.value > 0 {
            events' := events + [DeleteEvent(previous)];
          }
          previous' := None;
        } else {
          events' := events + [PutEvent(Revised(slot.value.entry.value, slot.value.revision), previous)];
          previous' := Some(Revised(slot.value.entry.value, slot.value.revision));
        }
      }
    }

    lemma NoEvents()
      ensures forall r | 1 <= r <= |log| + 1 :: LiveEvents(log, r, r) == []
    {
    }

    lemma Extend(start: int, r: int)
      ensures 1 <= start <= r <= |log| ==>
              LiveEvents(log, start, r + 1) == LiveEvents(log, start, r) + [LiveEvent(log, r)]
    {
    }

    // The forwarding goroutine's exit removes its callback.
    method Unwatch(id: nat)
      requires Valid()
      modifies this`watches, this`since
      ensures Valid() && watches == old(watches) - {id} && since == old(since) - {id}
    {
      watches, since := watches - {id}, since - {id};
    }

    method History(at: Option<int>, includeValues: bool) returns (res: Result<seq<Snapshot<T>>, StoreError>)
      requires Valid()
      ensures res == match HistoryEnd(log, at) {
                case Err(e) => Err(e)
                case Ok(end) => Ok(HistoryOf(log, end, includeValues)) }
    {
      if revision == 0 {
        return Err(NotFound);
      }
      var current := cursor;
      ghost var r := |log|;
      Steps(|log|);
      if at.Some? {
        var stop;
        stop, r := WalkBack(at.value);
        if stop.None? {
          return Err(NotFound);
        }
        current := stop.value;
      }
      SlotOf(r);
      if ring[current].Some? && ring[current].value.entry.Deleted? {
        return Err(NotFound);
      }
      var revisions := Collect(current, r, includeValues);
      if r <= WalkFloor(log) { assert Reverse(revisions) == []; }
      return Ok(Reverse(revisions));
    }

    lemma RunCollected(end: int, r: int, revisions: seq<Snapshot<T>>, includeValues: bool)
      requires WalkFloor(log) <= r < end <= |log| && |revisions| == end - r
      requires forall i | r < i <= end :: WrittenAt(log, i)
      requires r == WalkFloor(log) || !WrittenAt(log, r)
      requires forall i | 0 <= i < |revisions| :: revisions[i] == SnapshotAt(log, end - i, includeValues)
      ensures Reverse(revisions) == HistoryOf(log, Some(end), includeValues)
    {
    }

    // Walks back from revision end, newest first, until a deletion or the end of the walk.
    method Collect(from: nat, ghost end: int, includeValues: bool) returns (revisions: seq<Snapshot<T>>)
      requires Valid() && WalkFloor(log) <= end <= |log| && from == end % CAPACITY
      requires end >= 1 ==> log[end - 1].Written?
      ensures end > WalkFloor(log) ==> Reverse(revisions) == HistoryOf(log, Some(end), includeValues)
      ensures end <= WalkFloor(log) ==> revisions == []
    {
      hide RingHolds, WatchesHold, WellFormedLog, RunStart, HistoryOf, Reverse;
      revisions := [];
      var current := from;
      ghost var r := end;
      AfterCursor(r);
      while current != Next(cursor)
        invariant WalkFloor(log) <= r <= end && current == r % CAPACITY && |revisions| == end - r
        invariant current == Next(cursor) <==> r == |log| - (CAPACITY - 1)
        invariant forall i | r < i <= end :: WrittenAt(log, i)
        invariant forall i | 0 <= i < |revisions| :: revisions[i] == SnapshotAt(log, end - i, includeValues)
        decreases r + CAPACITY - |log|
      {
        SlotOf(r);
        if ring[current].None? {
          break;
        }
        var elem := ring[current].value;
        if elem.entry.Deleted? {
          break;
        }
        revisions := revisions + [Snapshot(elem.revision, if includeValues then Some(elem.entry.value) else None)];
        Steps(r);
        current := Prev(current);
        r := r - 1;
        AfterCursor(r);
      }
      if end > WalkFloor(log) { RunCollected(end, r, revisions, includeValues); }
    }
  }

  function Reverse<T>(s: seq<T>): seq<T> {
    seq(|s|, i requires 0 <= i < |s| => s[|s| - 1 - i])
  }
}

// What the answers of StoreLog mean together: over runs of writes, between reads and writes, and
// between reads and the events of watches.
module StoreLaws {
  import opened Basics
  import opened StoreLog

  // ----- Runs of writes -----

  datatype Write<T> = Put(value: T, expected: Option<int>) | Delete(expected: Option<int>)

  // A write that is refused changes nothing.
  function After<T>(log: seq<Entry<T>>, w: Write<T>): seq<Entry<T>> {
    match w
    case Put(value, expected) => if MayPut(log, expected) then log + [Written(value)] else log
    case Delete(expected) => if DeleteError(log, expected).None? then log + [Deleted] else log
  }

  function AfterAll<T>(log: seq<Entry<T>>, writes: seq<Write<T>>): seq<Entry<T>>
    decreases |writes|
  {
    if writes == [] then log else AfterAll(After(log, writes[0]), writes[1..])
  }

  lemma {:induction false} AfterAllExtends<T>(log: seq<Entry<T>>, writes: seq<Write<T>>)
    requires WellFormedLog(log)
    ensures log <= AfterAll(log, writes) && |AfterAll(log, writes)| <= |log| + |writes|
    ensures WellFormedLog(AfterAll(log, writes))
    decreases |writes|
  {
    if writes != [] { AfterAllExtends(After(log, writes[0]), writes[1..]); }
  }

  // ----- Reads -----

  // A revision reads the same as when it was current while fewer than 64 writes follow it, and is
  // gone afterwards.
  lemma ReadStable<T>(log: seq<Entry<T>>, more: seq<Entry<T>>)
    requires Exists(log)
    ensures ReadLog(log, None) == Ok(Revised(log[|log| - 1].value, |log|))
    ensures ReadLog(log + more, Some(|log|)) == if |more| < 64 then ReadLog(log, None) else Err(NotFound)
  {
    assert |more| < 64 ==> (log + more)[|log| - 1] == log[|log| - 1];
  }

  // A deleted revision has no value.
  lemma ReadNothing<T>(log: seq<Entry<T>>, more: seq<Entry<T>>)
    requires !Exists(log)
    ensures ReadLog(log, None) == Err(NotFound)
    ensures log != [] ==> ReadLog(log + more, Some(|log|)) == Err(NotFound)
  {
    assert log != [] && |more| < 64 ==> (log + more)[|log| - 1] == log[|log| - 1];
  }

  // A revision yet to come is out of range. Revisions start at 1; before anything was written only
  // revision 0 is in range.
  lemma ReadOutside<T>(log: seq<Entry<T>>, r: int)
    requires r < 1 || r > |log|
    ensures ReadLog(log, Some(r)) == Err(if r > |log| || (log == [] && r != 0) then OutOfRange else NotFound)
  {
  }

  // What was put is read back at its revision, whatever fewer than 64 writes are tried afterwards.
  lemma PutIsReadBack<T>(log: seq<Entry<T>>, value: T, expected: Option<int>, writes: seq<Write<T>>)
    requires WellFormedLog(log) && MayPut(log, expected) && |writes| < 64
    ensures var all := AfterAll(After(log, Put(value, expected)), writes);
            ReadLog(all, Some(|log| + 1)) == Ok(Revised(value, |log| + 1))
  {
    var put := After(log, Put(value, expected));
    AfterAllExtends(put, writes);
    var all := AfterAll(put, writes);
    assert all == put + all[|put|..];
    ReadStable(put, all[|put|..]);
  }

  // ----- Reads and writes -----

  // A Put succeeds without a revision, at revision 0 when a read finds nothing, and otherwise at the
  // revision the store is at, which is that of a read that finds something.
  lemma PutExactly<T>(log: seq<Entry<T>>, value: T, expected: Option<int>)
    ensures MayPut(log, expected) <==>
              || expected.None?
              || (expected == Some(0) && ReadLog(log, None).Err?)
              || (expected != Some(0) && expected.value == |log|)
    ensures ReadLog(log, None).Ok? ==> ReadLog(log, None).value.revision == |log| && |log| > 0
    ensures MayPut(log, expected) ==> ReadLog(After(log, Put(value, expected)), None) == Ok(Revised(value, |log| + 1))
    ensures !MayPut(log, expected) ==> After(log, Put(value, expected)) == log
  {
  }

  // A Delete succeeds exactly if a read finds something, at the revision given, if any.
  lemma DeleteExactly<T>(log: seq<Entry<T>>, expected: Option<int>)
    ensures DeleteError(log, expected).None? <==>
              ReadLog(log, None).Ok? && (expected.Some? ==> expected.value == ReadLog(log, None).value.revision)
    ensures DeleteError(log, expected) == Some(Conflict) <==> log != [] && expected.Some? && expected.value != |log|
    ensures DeleteError(log, expected).None? || DeleteError(log, expected).value in {NotFound, Conflict}
    ensures DeleteError(log, expected).None? ==> ReadLog(After(log, Delete(expected)), None) == Err(NotFound)
    ensures DeleteError(log, expected).Some? ==> After(log, Delete(expected)) == log
  {
  }

  // Of two writers that give the same revision the second fails if the first succeeded.
  lemma OneWriterWins<T>(log: seq<Entry<T>>, first: Write<T>, second: Write<T>, r: int)
    requires first.expected == second.expected == Some(r) && After(log, first) != log
    ensures After(After(log, first), second) == After(log, first)
  {
  }

  // ----- Histories -----

  // A history of a revision ends there exactly if that revision reads as a value among the newest 63.
  lemma HistoryEndsAtRead<T>(log: seq<Entry<T>>, at: Option<int>)
    ensures HistoryEnd(log, at).Ok? && HistoryEnd(log, at).value.Some? <==>
              ReadLog(log, at).Ok? && ReadLog(log, at).value.revision > |log| - 63
    ensures HistoryEnd(log, at).Ok? && HistoryEnd(log, at).value.Some? ==>
              HistoryEnd(log, at).value.value == ReadLog(log, at).value.revision
    ensures HistoryEnd(log, at).Err? ==> HistoryEnd(log, at).error == NotFound
    // Otherwise there is an error, but for an unreadable revision of a longer log, which gives an empty
    // list unless the oldest slot of a full ring is a deletion.
    ensures HistoryEnd(log, at) == Ok(None) <==>
              && at.Some? && |log| >= 63
              && !(ReadLog(log, at).Ok? && ReadLog(log, at).value.revision > |log| - 63)
              && !(|log| >= 64 && log[|log| - 64].Deleted?)
  {
  }

  // It lists, in ascending order and without a gap, what each revision read as when it was current,
  // back to a deletion, the beginning, or the 63rd newest.
  lemma HistoryIsReads<T>(log: seq<Entry<T>>, end: int, includeValues: bool)
    requires WrittenAt(log, end) && InWalk(log, end)
    ensures var h := HistoryOf(log, Some(end), includeValues);
            && h != [] && h[|h| - 1].revision == end
            && (forall i | 0 <= i < |h| ::
                  var r := end + 1 - |h| + i;
                  && h[i].revision == r && 1 <= r <= |log| && r > |log| - 63
                  && ReadLog(log[..r], None).Ok?
                  && h[i].value == if includeValues then Some(ReadLog(log[..r], None).value.value) else None)
            && var before := end - |h|;
               before == 0 || before == |log| - 63 || ReadLog(log[..before], None).Err?
  {
    var h, s := HistoryOf(log, Some(end), includeValues), RunStart(log, end, WalkFloor(log));
    assert |h| == end + 1 - s;
    forall i | 0 <= i < |h|
      ensures h[i] == SnapshotAt(log, s + i, includeValues) && WrittenAt(log, s + i)
    {
    }
  }

  // ----- Events -----

  // What a read gave before and gives after the write.
  function Seen<T>(read: Result<Revised<T>, StoreError>): Option<Revised<T>> {
    match read case Ok(v) => Some(v) case Err(_) => None
  }

  // The event of a revision carries what a read gives right after it and what it gave right before.
  lemma EventsAreReads<T>(log: seq<Entry<T>>, r: int)
    requires 1 <= r <= |log|
    ensures var ev := LiveEvent(log, r);
            && ev.previous == Seen(ReadLog(log[..r - 1], None))
            && (ev.PutEvent? <==> ReadLog(log[..r], None).Ok?)
            && (ev.PutEvent? ==> Some(ev.current) == Seen(ReadLog(log[..r], None)) && ev.current.revision == r)
            && (ev.previous.Some? ==> ev.previous.value.revision == r - 1)
  {
  }

  // A watch without a revision replays nothing; at 0 it replays the event of the current value, if
  // there is one; at a revision that reads as a value among the newest 63, every event since. At any
  // other revision it fails while fewer than 63 were written, and replays nothing later.
  lemma ReplayExactly<T>(log: seq<Entry<T>>, at: Option<int>)
    ensures var start := ReplayStart(log, at);
            var readable := ReadLog(log, at).Ok? && ReadLog(log, at).value.revision > |log| - 63;
            && (at.None? ==> start == Ok(|log| + 1))
            && (at.Some? && at.value <= 0 ==> start == Ok(if ReadLog(log, None).Ok? then |log| else |log| + 1))
            && (at.Some? && at.value > 0 && readable ==> start == Ok(at.value))
            && (at.Some? && at.value > 0 && !readable ==>
                  start == if |log| < 63 then Err(NotFound) else Ok(|log| + 1))
  {
  }
}

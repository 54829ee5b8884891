// How the events of writes reach the readers of watches (storage/inmemory/value_store.go:86-112,
// 217-308): every interleaving of writers, forwarding goroutines and readers, one channel
// operation a step.
module WatchPipeline {
  import opened Basics
  import opened StoreLog
  import StoreLaws

  const BUFFER_CAPACITY := 8
  const UPDATE_CAPACITY := 64

  // Forwarding: the goroutine's loop. Draining: the loop was left, the callback is still
  // registered. Flushing: the callback is removed, what is buffered is being moved.
  datatype Phase = Forwarding | Draining | Flushing | Closed

  // start is the first revision the watch delivers. stop is the store's revision when the callback
  // was removed. lost is the place, in what the watch heard, of an event dropped on overflow.
  datatype Watcher<T> = Watcher(
    start: int,
    buffer: seq<Event<T>>,
    hand: Option<Event<T>>,
    updates: seq<Event<T>>,
    consumed: seq<Event<T>>,
    phase: Phase,
    stop: int,
    lost: Option<nat>)

  // While a write is in progress it holds the store's lock; pending are the callbacks it has
  // yet to run.
  datatype State<T> = State(log: seq<Entry<T>>, watchers: map<nat, Watcher<T>>, writing: bool, pending: set<nat>)

  datatype Action<T> =
    | BeginPut(value: T, expected: Option<int>)
    | BeginDelete(expected: Option<int>)
    | Deliver(id: nat)
    | EndWrite
    | Start(id: nat, at: Option<int>)
    | Take(id: nat)
    | Send(id: nat)
    | Overflow(id: nat)
    | Cancel(id: nat)
    | Remove(id: nat)
    | Flush(id: nat)
    | Close(id: nat)
    | Consume(id: nat)

  predicate Registered<T>(w: Watcher<T>) { w.phase.Forwarding? || w.phase.Draining? }

  // A flushing goroutine holds the lock for reading.
  predicate MayWrite<T>(s: State<T>) {
    !s.writing && forall id | id in s.watchers :: !s.watchers[id].phase.Flushing?
  }

  function BeginWrite<T>(s: State<T>, entry: Entry<T>): State<T> {
    s.(log := s.log + [entry], writing := true, pending := set id | id in s.watchers && Registered(s.watchers[id]))
  }

  predicate Enabled<T>(s: State<T>, a: Action<T>) {
    match a
    case BeginPut(_, expected) => MayWrite(s) && MayPut(s.log, expected)
    case BeginDelete(expected) => MayWrite(s) && DeleteError(s.log, expected).None?
    case EndWrite => s.writing && s.pending == {}
    case Start(id, at) => !s.writing && id !in s.watchers && ReplayStart(s.log, at).Ok?
    case _ => a.id in s.watchers && WatcherEnabled(s, s.watchers[a.id], a)
  }

  predicate WatcherEnabled<T>(s: State<T>, w: Watcher<T>, a: Action<T>) {
    match a
    case Deliver(id) => s.writing && s.log != [] && id in s.pending && |w.buffer| < BUFFER_CAPACITY
    case Take(_) => w.phase.Forwarding? && w.hand.None? && w.buffer != []
    case Send(_) => w.phase.Forwarding? && w.hand.Some? && |w.updates| < UPDATE_CAPACITY
    case Overflow(_) => w.phase.Forwarding? && w.hand.Some? && |w.updates| == UPDATE_CAPACITY
    case Cancel(_) => w.phase.Forwarding? && w.hand.None?
    case Remove(_) => w.phase.Draining? && !s.writing
    case Flush(_) => w.phase.Flushing? && w.buffer != [] && |w.updates| < UPDATE_CAPACITY
    case Close(_) => w.phase.Flushing? && w.buffer == []
    case Consume(_) => w.updates != []
    case _ => false
  }

  function Step<T>(s: State<T>, a: Action<T>): State<T>
    requires Enabled(s, a)
  {
    match a
    case BeginPut(value, _) => BeginWrite(s, Written(value))
    case BeginDelete(_) => BeginWrite(s, Deleted)
    case EndWrite => s.(writing := false)
    case Start(id, at) =>
      var start := ReplayStart(s.log, at).value;
      s.(watchers := s.watchers[id :=
          Watcher(start, [], None, LiveEvents(s.log, start, |s.log| + 1), [], Forwarding, 0, None)])
    case Deliver(id) =>
      var w := s.watchers[id];
      s.(watchers := s.watchers[id := w.(buffer := w.buffer + [LiveEvent(s.log, |s.log|)])],
          pending := s.pending - {id})
    case _ => s.(watchers := s.watchers[a.id := WatcherStep(s, s.watchers[a.id], a)])
  }

  function WatcherStep<T>(s: State<T>, w: Watcher<T>, a: Action<T>): Watcher<T>
    requires WatcherEnabled(s, w, a)
  {
    match a
    case Take(_) => w.(hand := Some(w.buffer[0]), buffer := w.buffer[1..])
    case Send(_) => w.(updates := w.updates + [w.hand.value], hand := None)
    case Overflow(_) => w.(hand := None, phase := Draining, lost := Some(|w.consumed| + |w.updates|))
    case Cancel(_) => w.(phase := Draining)
    case Remove(_) => w.(phase := Flushing, stop := |s.log|)
    case Flush(_) => w.(updates := w.updates + [w.buffer[0]], buffer := w.buffer[1..])
    case Close(_) => w.(phase := Closed)
    case Consume(_) => w.(consumed := w.consumed + [w.updates[0]], updates := w.updates[1..])
    case _ => w
  }

  // A run takes the enabled actions of a schedule, skipping the others.
  function Run<T>(s: State<T>, actions: seq<Action<T>>): State<T>
    decreases |actions|
  {
    if actions == [] then s
    else Run(if Enabled(s, actions[0]) then Step(s, actions[0]) else s, actions[1..])
  }

  function InitialState<T>(): State<T> { State([], map[], false, {}) }

  // ----- What is kept -----

  // In order: consumed, in the update channel, in hand, in the buffer.
  function Stream<T>(w: Watcher<T>): seq<Event<T>> {
    w.consumed + w.updates + (if w.hand.Some? then [w.hand.value] else []) + w.buffer
  }

  // The revision up to which the watch has heard of writes.
  function HeardUntil<T>(s: State<T>, id: nat): int
    requires id in s.watchers
  {
    if !Registered(s.watchers[id]) then s.watchers[id].stop
    else if id in s.pending then |s.log| - 1
    else |s.log|
  }

  predicate Without<T(==)>(whole: seq<T>, k: nat, part: seq<T>) {
    k < |whole| && part == whole[..k] + whole[k + 1..]
  }

  // The watch holds every event up to a revision, in order, but for one lost on overflow.
  ghost predicate Holds<T>(log: seq<Entry<T>>, w: Watcher<T>, until: int) {
    && 1 <= w.start <= until + 1 && until <= |log|
    && (w.lost.None? ==> Stream(w) == LiveEvents(log, w.start, until + 1))
    && (w.lost.Some? ==> w.lost.value <= |w.consumed| + |w.updates| &&
                         Without(LiveEvents(log, w.start, until + 1), w.lost.value, Stream(w)))
  }

  ghost predicate Intact<T>(s: State<T>, id: nat)
    requires id in s.watchers
  {
    Holds(s.log, s.watchers[id], HeardUntil(s, id))
  }

  ghost predicate Bounded<T>(w: Watcher<T>) {
    && |w.buffer| <= BUFFER_CAPACITY && |w.updates| <= UPDATE_CAPACITY
    && (w.hand.Some? ==> w.phase.Forwarding?)
    && (w.lost.Some? ==> !w.phase.Forwarding?)
    && (w.phase.Closed? ==> w.buffer == [])
  }

  ghost predicate Safe<T>(s: State<T>) {
    && WellFormedLog(s.log)
    && (s.pending != {} ==> s.writing)
    && (s.writing ==> s.log != [])
    && (forall id | id in s.pending :: id in s.watchers && Registered(s.watchers[id]))
    && (forall id | id in s.watchers :: Bounded(s.watchers[id]) && Intact(s, id))
  }

  lemma ReplayFits<T>(log: seq<Entry<T>>, at: Option<int>)
    requires ReplayStart(log, at).Ok?
    ensures 1 <= ReplayStart(log, at).value <= |log| + 1
    ensures |LiveEvents(log, ReplayStart(log, at).value, |log| + 1)| < UPDATE_CAPACITY
  {
  }

  lemma BeginWriteSafe<T>(s: State<T>, entry: Entry<T>)
    requires Safe(s) && MayWrite(s) && (entry.Deleted? ==> Exists(s.log))
    ensures Safe(BeginWrite(s, entry))
  {
    var t := BeginWrite(s, entry);
    assert s.pending == {};
    forall id | id in t.watchers
      ensures Intact(t, id)
    {
      var w := s.watchers[id];
      assert HeardUntil(t, id) == HeardUntil(s, id);
      EventsStable(s.log, [entry], w.start, HeardUntil(s, id) + 1);
    }
  }

  // A step on one watcher leaves the others as they are.
  lemma OthersIntact<T>(s: State<T>, t: State<T>, id: nat)
    requires Safe(s) && t.log == s.log && t.writing == s.writing
    requires t.watchers.Keys == s.watchers.Keys + {id} && t.pending <= s.pending <= t.pending + {id}
    requires forall j | j in s.watchers && j != id :: t.watchers[j] == s.watchers[j]
    requires Bounded(t.watchers[id]) && Intact(t, id) && (id in t.pending ==> Registered(t.watchers[id]))
    ensures Safe(t)
  {
    hide LiveEvents, Holds, Bounded, WellFormedLog;
    forall j | j in t.watchers
      ensures Bounded(t.watchers[j]) && Intact(t, j)
      ensures j in t.pending ==> Registered(t.watchers[j])
    {
      if j != id { assert HeardUntil(t, j) == HeardUntil(s, j) && Intact(s, j); }
    }
  }

  lemma HearsOne<T>(log: seq<Entry<T>>, w: Watcher<T>)
    requires log != [] && Holds(log, w, |log| - 1)
    ensures Holds(log, w.(buffer := w.buffer + [LiveEvent(log, |log|)]), |log|)
  {
    var ev := LiveEvent(log, |log|);
    OneMoreEvent(log, w.start);
    hide LiveEvents, LiveEvent;
    assert Stream(w.(buffer := w.buffer + [ev])) == Stream(w) + [ev];
  }

  lemma DeliverSafe<T>(s: State<T>, id: nat)
    requires Safe(s) && Enabled(s, Deliver(id))
    ensures Safe(Step(s, Deliver(id)))
  {
    var t := Step(s, Deliver(id));
    assert Intact(s, id);
    HearsOne(s.log, s.watchers[id]);
    hide LiveEvents, LiveEvent, Holds;
    assert HeardUntil(t, id) == |s.log|;
    OthersIntact(s, t, id);
  }

  lemma StartSafe<T>(s: State<T>, id: nat, at: Option<int>)
    requires Safe(s) && Enabled(s, Start(id, at))
    ensures Safe(Step(s, Start(id, at)))
  {
    var t := Step(s, Start(id, at));
    ReplayFits(s.log, at);
    hide LiveEvents, LiveEvent, ReplayStart;
    assert Stream(t.watchers[id]) == t.watchers[id].updates;
    OthersIntact(s, t, id);
  }

  predicate Moves<T>(a: Action<T>) {
    !(a.BeginPut? || a.BeginDelete? || a.Deliver? || a.EndWrite? || a.Start?)
  }

  // A goroutine's own steps move events along its channels.
  lemma StreamKept<T>(s: State<T>, w: Watcher<T>, a: Action<T>)
    requires Moves(a) && !a.Overflow? && WatcherEnabled(s, w, a) && Bounded(w)
    ensures Stream(WatcherStep(s, w, a)) == Stream(w)
  {
  }

  lemma MoveHolds<T>(s: State<T>, w: Watcher<T>, a: Action<T>, until: int)
    requires Moves(a) && WatcherEnabled(s, w, a) && Bounded(w) && Holds(s.log, w, until)
    ensures var v := WatcherStep(s, w, a); Bounded(v) && Holds(s.log, v, until)
  {
    hide LiveEvents;
    var heard := LiveEvents(s.log, w.start, until + 1);
    if a.Overflow? {
      var front := w.consumed + w.updates;
      assert Stream(w) == front + [w.hand.value] + w.buffer;
      assert heard[..|front|] == front && heard[|front| + 1..] == w.buffer;
      assert Stream(WatcherStep(s, w, a)) == front + w.buffer;
    } else {
      hide Stream;
      StreamKept(s, w, a);
    }
  }

  lemma MoveSafe<T>(s: State<T>, a: Action<T>)
    requires Safe(s) && Moves(a) && Enabled(s, a)
    ensures Safe(Step(s, a))
  {
    var id, t := a.id, Step(s, a);
    assert Intact(s, id);
    MoveHolds(s, s.watchers[id], a, HeardUntil(s, id));
    assert t.watchers[id] == WatcherStep(s, s.watchers[id], a);
    hide LiveEvents, Holds, Bounded;
    assert HeardUntil(t, id) == HeardUntil(s, id);
    OthersIntact(s, t, id);
  }

  lemma StepSafe<T>(s: State<T>, a: Action<T>)
    requires Safe(s) && Enabled(s, a)
    ensures Safe(Step(s, a))
  {
    match a
    case BeginPut(value, _) => BeginWriteSafe(s, Written(value));
    case BeginDelete(_) => BeginWriteSafe(s, Deleted);
    case Deliver(id) => DeliverSafe(s, id);
    case Start(id, at) => StartSafe(s, id, at);
    case EndWrite =>
      forall j | j in s.watchers ensures Intact(Step(s, a), j) { assert Intact(s, j); }
    case _ => MoveSafe(s, a);
  }

  // Every run is safe.
  lemma {:induction false} RunSafe<T>(s: State<T>, actions: seq<Action<T>>)
    requires Safe(s)
    ensures Safe(Run(s, actions))
    decreases |actions|
  {
    if actions != [] {
      if Enabled(s, actions[0]) { StepSafe(s, actions[0]); }
      RunSafe(if Enabled(s, actions[0]) then Step(s, actions[0]) else s, actions[1..]);
    }
  }

  // Until it overflows, what a watch's reader has consumed is a contiguous run of the log's
  // events from the watch's start: no gap, duplicate or reordering, across replay and live
  // events. Once all is read and no write is in progress, it is all of them.
  lemma ConsumedIsContiguous<T>(actions: seq<Action<T>>, id: nat)
    ensures var s := Run(InitialState<T>(), actions);
            id in s.watchers && s.watchers[id].lost.None? ==>
              var w := s.watchers[id];
              && 1 <= w.start && w.start + |w.consumed| <= |s.log| + 1
              && w.consumed == LiveEvents(s.log, w.start, w.start + |w.consumed|)
              && (!s.writing && w.phase.Forwarding? && w.updates + w.buffer == [] && w.hand.None?
                  ==> w.consumed == LiveEvents(s.log, w.start, |s.log| + 1))
  {
    var s := Run(InitialState<T>(), actions);
    assert Safe(InitialState<T>());
    RunSafe(InitialState<T>(), actions);
    if id in s.watchers && s.watchers[id].lost.None? {
      ConsumedOf(s, id);
      assert Intact(s, id);
      var w := s.watchers[id];
      if w.updates + w.buffer == [] && w.hand.None? { assert Stream(w) == w.consumed; }
    }
  }

  // The one event an overflowing watch loses is the one that was in hand: all before it were
  // delivered in order, and what follows it resumes with the next.
  lemma OverflowLosesOne<T>(actions: seq<Action<T>>, id: nat)
    ensures var s := Run(InitialState<T>(), actions);
            id in s.watchers && s.watchers[id].lost.Some? ==>
              var w, k := s.watchers[id], s.watchers[id].lost.value;
              && 1 <= w.start && w.start + k <= HeardUntil(s, id) <= |s.log|
              && Stream(w) == LiveEvents(s.log, w.start, w.start + k)
                              + LiveEvents(s.log, w.start + k + 1, HeardUntil(s, id) + 1)
  {
    var s := Run(InitialState<T>(), actions);
    assert Safe(InitialState<T>());
    RunSafe(InitialState<T>(), actions);
    if id in s.watchers && s.watchers[id].lost.Some? {
      var w, k := s.watchers[id], s.watchers[id].lost.value;
      assert Intact(s, id);
      var heard := LiveEvents(s.log, w.start, HeardUntil(s, id) + 1);
      assert heard[..k] == LiveEvents(s.log, w.start, w.start + k);
      assert heard[k + 1..] == LiveEvents(s.log, w.start + k + 1, HeardUntil(s, id) + 1);
    }
  }

  // The writes of a run are those of the store: one is begun when the store accepts it, and appends what
  // the store appends. No other action writes.
  lemma StepWrites<T>(s: State<T>, a: Action<T>)
    requires Enabled(s, a)
    ensures Step(s, a).log ==
              match a
              case BeginPut(value, expected) => StoreLaws.After(s.log, StoreLaws.Put(value, expected))
              case BeginDelete(expected) => StoreLaws.After(s.log, StoreLaws.Delete(expected))
              case _ => s.log
  {
  }

  lemma StepKeepsStart<T>(s: State<T>, a: Action<T>, id: nat)
    requires Enabled(s, a) && id in s.watchers
    ensures id in Step(s, a).watchers && Step(s, a).watchers[id].start == s.watchers[id].start
    ensures s.log <= Step(s, a).log
  {
    hide LiveEvents, LiveEvent;
  }

  lemma {:induction false} RunKeepsStart<T>(s: State<T>, actions: seq<Action<T>>, id: nat)
    requires id in s.watchers
    ensures id in Run(s, actions).watchers && Run(s, actions).watchers[id].start == s.watchers[id].start
    ensures s.log <= Run(s, actions).log
    decreases |actions|
  {
    if actions != [] {
      if Enabled(s, actions[0]) { StepKeepsStart(s, actions[0], id); }
      hide Step, Enabled;
      RunKeepsStart(if Enabled(s, actions[0]) then Step(s, actions[0]) else s, actions[1..], id);
    }
  }

  // From the moment a watch starts, in every run, what its reader consumes are the events from the
  // revision the store's watch replays from, in order.
  lemma WatchIsReplayThenLive<T>(before: seq<Action<T>>, id: nat, at: Option<int>, rest: seq<Action<T>>)
    requires var s := Run(InitialState<T>(), before); Enabled(s, Start(id, at))
    ensures var s := Run(InitialState<T>(), before);
            var start, t := ReplayStart(s.log, at).value, Run(Step(s, Start(id, at)), rest);
            && Step(s, Start(id, at)).watchers[id].updates == LiveEvents(s.log, start, |s.log| + 1)
            && id in t.watchers && s.log <= t.log
            && (t.watchers[id].lost.None? ==>
                  var consumed := t.watchers[id].consumed;
                  start + |consumed| <= |t.log| + 1 && consumed == LiveEvents(t.log, start, start + |consumed|))
  {
    var s := Run(InitialState<T>(), before);
    var started := Step(s, Start(id, at));
    assert Safe(InitialState<T>());
    hide Step, Enabled, Run, ReplayStart, LiveEvents, Safe, Stream;
    StartedAs(s, id, at);
    RunSafe(InitialState<T>(), before);
    StepSafe(s, Start(id, at));
    ConsumedFrom(started, rest, id);
  }

  lemma ConsumedFrom<T>(s: State<T>, rest: seq<Action<T>>, id: nat)
    requires Safe(s) && id in s.watchers
    ensures var start, t := s.watchers[id].start, Run(s, rest);
            && id in t.watchers && s.log <= t.log
            && (t.watchers[id].lost.None? ==>
                  var consumed := t.watchers[id].consumed;
                  && 1 <= start && start + |consumed| <= |t.log| + 1
                  && consumed == LiveEvents(t.log, start, start + |consumed|))
  {
    hide Safe, Run, LiveEvents;
    RunSafe(s, rest);
    RunKeepsStart(s, rest, id);
    if Run(s, rest).watchers[id].lost.None? { ConsumedOf(Run(s, rest), id); }
  }

  lemma StartedAs<T>(s: State<T>, id: nat, at: Option<int>)
    requires Enabled(s, Start(id, at))
    ensures var start, t := ReplayStart(s.log, at), Step(s, Start(id, at));
            && start.Ok? && 1 <= start.value <= |s.log| + 1 && t.log == s.log && id in t.watchers
            && t.watchers[id].start == start.value
            && t.watchers[id].updates == LiveEvents(s.log, start.value, |s.log| + 1)
  {
    ReplayFits(s.log, at);
  }

  lemma ConsumedOf<T>(s: State<T>, id: nat)
    requires Safe(s) && id in s.watchers && s.watchers[id].lost.None?
    ensures var w := s.watchers[id];
            && 1 <= w.start && w.start + |w.consumed| <= |s.log| + 1
            && w.consumed == LiveEvents(s.log, w.start, w.start + |w.consumed|)
  {
    var w := s.watchers[id];
    assert Intact(s, id);
    var heard := LiveEvents(s.log, w.start, HeardUntil(s, id) + 1);
    assert w.consumed == Stream(w)[..|w.consumed|];
    assert heard[..|w.consumed|] == LiveEvents(s.log, w.start, w.start + |w.consumed|);
  }
}

// reactive/bind.go: one callback for a group of observable values, with updates of one revision
// gathered in a queue. The state machine of Bind's own registrations, the controller's updates and
// the resolver goroutines; one registration, onUpdate or resolution is a step.
module Binding {
  import opened Basics
  import opened ReactiveValues

  const CACHE_CAPACITY := 10

  // calls lists the vectors passed to the callback.
  datatype Queue = Queue(revision: int, values: seq<Reading>, resolved: bool, calls: seq<seq<Reading>>)

  // An event being dispatched: the new values, the slots whose watchers are to be told, and the
  // slots already updated.
  datatype Open = Open(revision: int, put: bool, values: seq<Reading>, told: set<nat>, updated: set<nat>)

  // What became of a Put. told: the slots it was to tell, with their values; changed: those whose
  // value changes. notified: those told that were registered by then. full: all slots were
  // registered when it began; safe: no registration could come too early for another slot then.
  // joined: a slot was registered after its update, while one that changes waited for its own.
  // overtaken: the config was deleted before the queue was resolved.
  datatype PutRecord = PutRecord(
    values: seq<Reading>,
    told: map<nat, Reading>,
    changed: set<nat>,
    notified: map<nat, Reading>,
    full: bool,
    safe: bool,
    joined: bool,
    overtaken: bool)

  // What became of a deletion. had: its revision had a queue when it began, and called: the calls
  // made for that revision by then.
  datatype DeleteRecord = DeleteRecord(told: set<nat>, notified: set<nat>, full: bool, had: bool, called: nat)

  // current holds the values. registered counts the slots Bind has registered, in order. live: the
  // last event was a Put. Queues are numbered in order of creation; cache maps revisions to queues,
  // oldest first. held are the goroutines waiting for the event in progress to end, ready those
  // free to resolve. bound are the revisions whose queue a registration reached.
  datatype State = State(
    current: seq<Reading>,
    initialised: bool,
    registered: nat,
    revision: int,
    live: bool,
    open: Option<Open>,
    cache: seq<(int, nat)>,
    queues: seq<Queue>,
    held: multiset<nat>,
    ready: multiset<nat>,
    puts: map<int, PutRecord>,
    deletes: map<int, DeleteRecord>,
    bound: set<int>)

  datatype Action =
    | Register
    | BeginPut(revision: int, values: seq<Reading>, told: set<nat>)
    | BeginDelete(revision: int, told: set<nat>)
    | Update(slot: nat)
    | EndEvent
    | Resolve(queue: nat)

  // The queue cached for a revision.
  function Find(cache: seq<(int, nat)>, revision: int): (r: Option<nat>)
    ensures r.Some? ==> (revision, r.value) in cache
    ensures r.None? ==> forall e | e in cache :: e.0 != revision
  {
    if cache == [] then None
    else if cache[0].0 == revision then Some(cache[0].1)
    else Find(cache[1..], revision)
  }

  // Adding past the capacity evicts the oldest.
  function Remember(cache: seq<(int, nat)>, revision: int, queue: nat): seq<(int, nat)> {
    var more := cache + [(revision, queue)];
    if |more| > CACHE_CAPACITY then more[1..] else more
  }

  function Blank(n: nat): seq<Reading> { seq(n, _ => None) }

  // The queue that an update of a revision goes to.
  function QueueFor(s: State, revision: int): nat {
    var found := Find(s.cache, revision);
    if found.Some? then found.value else |s.queues|
  }

  function UpdateAt(values: seq<Reading>, slot: nat, v: Reading): seq<Reading> {
    if slot < |values| then values[slot := v] else values
  }

  // binder.onUpdate, but for the goroutine it starts.
  function OnUpdate(s: State, slot: nat, revision: int, v: Reading): (t: State)
    ensures t == s.(cache := t.cache, queues := t.queues)
  {
    var id := QueueFor(s, revision);
    if id < |s.queues|
    then s.(queues := s.queues[id := s.queues[id].(values := UpdateAt(s.queues[id].values, slot, v))])
    else s.(cache := Remember(s.cache, revision, id),
            queues := s.queues + [Queue(revision, UpdateAt(Blank(|s.current|), slot, v), false, [])])
  }

  // Some queue was made for the revision.
  predicate Has(queues: seq<Queue>, revision: int) {
    exists id :: 0 <= id < |queues| && queues[id].revision == revision
  }

  // The calls made for a revision.
  function CallsOf(queues: seq<Queue>, revision: int): nat {
    if queues == [] then 0
    else
      var last := queues[|queues| - 1];
      CallsOf(queues[..|queues| - 1], revision) + if last.revision == revision then |last.calls| else 0
  }

  predicate AllSlots(s: State, slots: set<nat>) { forall i | 0 <= i < |s.current| :: i in slots }

  // The first event tells everyone. A deletion has the revision of the config it deletes.
  predicate Enabled(s: State, a: Action) {
    match a
    case Register => s.registered < |s.current|
    case BeginPut(revision, values, told) =>
      && s.open.None? && revision > s.revision
      && |values| == |s.current| && (forall i | 0 <= i < |values| :: values[i].Some?)
      && (forall i | i in told :: i < |s.current|) && (s.initialised || AllSlots(s, told))
    case BeginDelete(revision, told) =>
      && s.open.None? && (forall i | i in told :: i < |s.current|)
      && if s.initialised then s.live && revision == s.revision else revision > s.revision && AllSlots(s, told)
    case Update(slot) => s.open.Some? && slot < |s.current| && slot !in s.open.value.updated
    case EndEvent => s.open.Some? && AllSlots(s, s.open.value.updated)
    case Resolve(id) => id in s.ready
  }

  function Step(s: State, a: Action): State
    requires Enabled(s, a)
  {
    match a
    case Register => RegisterSlot(s)
    case BeginPut(revision, values, told) => PutBegun(s, revision, values, told)
    case BeginDelete(revision, told) => DeleteBegun(s, revision, told)
    case Update(slot) => UpdateSlot(s, slot)
    case EndEvent => EventEnded(s)
    case Resolve(id) => ResolveQueue(s, id)
  }

  // The told slots whose value changes.
  function Changed(s: State, values: seq<Reading>, told: set<nat>): set<nat> {
    set i | i in told && i < |values| && i < |s.current| && values[i] != s.current[i]
  }

  // All slots are registered, or no told slot changes but the only one that is not.
  predicate Undisturbed(s: State, changed: set<nat>) {
    s.registered == |s.current| || forall i | i in changed :: i == s.registered == |s.current| - 1
  }

  function PutBegun(s: State, revision: int, values: seq<Reading>, told: set<nat>): State {
    var news, changed := map i | i in told && i < |values| :: values[i], Changed(s, values, told);
    var full, safe := s.registered == |s.current|, Undisturbed(s, changed);
    var record := PutRecord(values, news, changed, map[], full, safe, false, false);
    s.(open := Some(Open(revision, true, values, told, {})), puts := s.puts[revision := record])
  }

  function DeleteBegun(s: State, revision: int, told: set<nat>): State {
    var had, called := Has(s.queues, revision), CallsOf(s.queues, revision);
    var record := DeleteRecord(told, {}, s.registered == |s.current|, had, called);
    s.(open := Some(Open(revision, false, Blank(|s.current|), told, {})),
       puts := Overtake(s, revision),
       deletes := s.deletes[revision := record])
  }

  // The goroutines that waited for the event are free to resolve.
  function EventEnded(s: State): State
    requires s.open.Some?
  {
    s.(open := None, initialised := true, revision := s.open.value.revision, live := s.open.value.put,
       ready := s.ready + s.held, held := multiset{})
  }

  // A deletion marks the Put it follows when that one's queue is still unresolved.
  function Overtake(s: State, revision: int): map<int, PutRecord> {
    if revision in s.puts &&
       (exists id :: 0 <= id < |s.queues| && s.queues[id].revision == revision && !s.queues[id].resolved)
    then s.puts[revision := s.puts[revision].(overtaken := true)] else s.puts
  }

  // The revision of a value: that of the event in progress once the value is updated.
  function RevisionAt(s: State, slot: nat): int {
    if UpdatedAlready(s, slot) then s.open.value.revision else s.revision
  }

  predicate UpdatedAlready(s: State, slot: nat) { s.open.Some? && slot in s.open.value.updated }

  // watchFuncInternal: a value that was ever set calls back at once, and its goroutine waits for nothing.
  function RegisterSlot(s: State): State
    requires s.registered < |s.current|
  {
    if s.initialised || UpdatedAlready(s, s.registered) then JoinQueue(s) else s.(registered := s.registered + 1)
  }

  // The slot joins the queue of a Put in progress while a slot that changes waits for its update.
  predicate TooEarly(s: State, slot: nat) {
    && UpdatedAlready(s, slot) && s.open.value.put && s.open.value.revision in s.puts
    && !(s.puts[s.open.value.revision].changed <= s.open.value.updated)
  }

  function JoinQueue(s: State): State
    requires s.registered < |s.current|
  {
    var slot, r := s.registered, RevisionAt(s, s.registered);
    OnUpdate(s.(registered := slot + 1), slot, r, s.current[slot])
    .(ready := s.ready + multiset{QueueFor(s, r)},
      bound := s.bound + {r},
      puts := if TooEarly(s, slot) then s.puts[r := s.puts[r].(joined := true)] else s.puts)
  }

  // A value is updated, and tells the binder if it is to tell and the slot is registered.
  function UpdateSlot(s: State, slot: nat): State
    requires s.open.Some? && slot < |s.current|
  {
    if slot in s.open.value.told && slot < s.registered then Notify(s, slot) else Set(s, slot)
  }

  function NewValue(s: State, slot: nat): Reading
    requires s.open.Some?
  {
    if slot < |s.open.value.values| then s.open.value.values[slot] else None
  }

  function Set(s: State, slot: nat): State
    requires s.open.Some? && slot < |s.current|
  {
    s.(current := s.current[slot := NewValue(s, slot)],
       open := Some(s.open.value.(updated := s.open.value.updated + {slot})))
  }

  function Notify(s: State, slot: nat): State
    requires s.open.Some? && slot < |s.current|
  {
    var r, v := s.open.value.revision, NewValue(s, slot);
    OnUpdate(Set(s, slot), slot, r, v)
    .(held := s.held + multiset{QueueFor(s, r)},
      puts := if s.open.value.put && r in s.puts
              then s.puts[r := s.puts[r].(notified := s.puts[r].notified[slot := v])] else s.puts,
      deletes := if !s.open.value.put && r in s.deletes
                 then s.deletes[r := s.deletes[r].(notified := s.deletes[r].notified + {slot})] else s.deletes)
  }

  // A queue is resolved once: slots that were not updated take the value's current one.
  function ResolveQueue(s: State, id: nat): State {
    var next := s.(ready := s.ready - multiset{id});
    if id < |s.queues| && !s.queues[id].resolved
    then
      var q := s.queues[id];
      next.(queues := s.queues[id := q.(resolved := true, calls := q.calls + [Fill(q.values, s.current)])])
    else next
  }

  function Fill(values: seq<Reading>, current: seq<Reading>): seq<Reading> {
    seq(|values|, i requires 0 <= i < |values| => if values[i].None? && i < |current| then current[i] else values[i])
  }

  function Run(s: State, actions: seq<Action>): State
    decreases |actions|
  {
    if actions == [] then s
    else Run(if Enabled(s, actions[0]) then Step(s, actions[0]) else s, actions[1..])
  }

  // Bind is called on values at some revision, initialised or not.
  function BindTo(current: seq<Reading>, initialised: bool, revision: int, live: bool): State {
    State(current, initialised, 0, revision, live, None, [], [], multiset{}, multiset{}, map[], map[], {})
  }

  // ----- The source's loop -----

  // Fills the slots that were not updated from the values themselves.
  method DoResolve(values: seq<Reading>, reactiveValues: seq<ReactiveValue>) returns (out: seq<Reading>)
    requires |values| == |reactiveValues|
    ensures forall current | |current| == |values| &&
            (forall i | 0 <= i < |current| :: current[i] == reactiveValues[i].value) ::
              out == Fill(values, current)
  {
    out := values;
    for i := 0 to |values|
      invariant |out| == |values|
      invariant forall j | 0 <= j < |values| ::
                  out[j] == if j < i && values[j].None? then reactiveValues[j].value else values[j]
    {
      if out[i].None? {
        out := out[i := reactiveValues[i].value];
      }
    }
  }
}

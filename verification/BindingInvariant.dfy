// What every step of the machine in Binding keeps; events and resolvers.
module BindingInvariant {
  import opened ReactiveValues
  import opened Binding
  import opened BindingCache

  // ----- What is kept -----

  // A queue is resolved once; until then a goroutine will resolve it.
  ghost predicate QueueOk(s: State, id: nat)
    requires id < |s.queues|
  {
    var q := s.queues[id];
    && |q.values| == |s.current|
    && |q.calls| == (if q.resolved then 1 else 0)
    && (!q.resolved ==> id in s.held || id in s.ready)
    && Known(s, q.revision)
  }

  // The revision of an event that was or is being handled.
  predicate Known(s: State, revision: int) {
    revision <= s.revision || (s.open.Some? && revision == s.open.value.revision)
  }

  ghost predicate GoroutinesOk(s: State) {
    && (forall id | id in s.held || id in s.ready :: id < |s.queues|)
    && (s.open.None? ==> s.held == multiset{})
  }

  // A Put, a deletion or a registration reached the queue of the revision.
  predicate Heard(s: State, revision: int) {
    || (revision in s.puts && s.puts[revision].notified != map[])
    || (revision in s.deletes && s.deletes[revision].notified != {})
    || revision in s.bound
  }

  // Queues are made by what reaches them and by nothing else.
  ghost predicate HeardOk(s: State) {
    && (forall r :: Has(s.queues, r) <==> Heard(s, r))
    && (forall r | r in s.puts || r in s.deletes || r in s.bound :: Known(s, r))
  }

  predicate Dispatching(s: State, revision: int, put: bool) {
    s.open.Some? && s.open.value.put == put && s.open.value.revision == revision
  }

  predicate Carries(values: seq<Reading>, notified: map<nat, Reading>) {
    forall i | i in notified :: i < |values| && values[i] == notified[i]
  }

  // The queue, or the call it led to, carries the value of every slot notified.
  ghost predicate QueueCarries(q: Queue, notified: map<nat, Reading>) {
    && (!q.resolved ==> Carries(q.values, notified))
    && (forall v | v in q.calls :: Carries(v, notified))
  }

  ghost predicate PutOk(s: State, r: int)
    requires r in s.puts
  {
    var p := s.puts[r];
    && (forall i | i in p.notified ::
          i < s.registered && p.notified[i].Some? && i in p.told && p.told[i] == p.notified[i])
    && (p.full ==> s.registered == |s.current| && !p.joined && r !in s.bound)
    && (p.full && !Dispatching(s, r, true) ==> p.notified == p.told)
    && (p.safe ==> !p.joined)
    && (p.overtaken ==> r in s.deletes)
    && (r in s.deletes && p.notified != map[] ==> s.deletes[r].had)
    && (forall id | 0 <= id < |s.queues| && s.queues[id].revision == r ::
          && (!p.joined && !p.overtaken ==> QueueCarries(s.queues[id], p.notified))
          && (r in s.deletes && !p.overtaken && p.notified != map[] ==> s.queues[id].resolved))
  }

  ghost predicate DeleteOk(s: State, r: int)
    requires r in s.deletes
  {
    var d := s.deletes[r];
    && d.notified <= d.told
    && (d.full ==> s.registered == |s.current| && (!d.had ==> r !in s.bound))
    && (d.full && !Dispatching(s, r, false) ==> d.notified == d.told)
    && d.called <= 1 && (!d.had ==> d.called == 0)
    && (d.had ==> Has(s.queues, r))
    && (d.called == 1 ==> forall id | 0 <= id < |s.queues| && s.queues[id].revision == r :: s.queues[id].resolved)
  }

  predicate AllCurrent(values: seq<Reading>, current: seq<Reading>) {
    forall i | 0 <= i < |values| && values[i].Some? :: i < |current| && values[i] == current[i]
  }

  predicate AllOf(values: seq<Reading>, slots: set<nat>) {
    forall i | 0 <= i < |values| && values[i].Some? :: i in slots
  }

  // The unresolved queue of a revision holds current values only.
  ghost predicate HoldsCurrent(s: State, revision: int) {
    forall id | 0 <= id < |s.queues| && s.queues[id].revision == revision && !s.queues[id].resolved ::
      AllCurrent(s.queues[id].values, s.current)
  }

  // It holds values of these slots only.
  ghost predicate HoldsOnly(s: State, revision: int, slots: set<nat>) {
    forall id | 0 <= id < |s.queues| && s.queues[id].revision == revision && !s.queues[id].resolved ::
      AllOf(s.queues[id].values, slots)
  }

  // The slots of an event that were told of it so far, when all were registered.
  function Reached(o: Open): set<nat> { o.told * o.updated }

  ghost predicate OpenPutOk(s: State, o: Open)
    requires o.revision in s.puts
  {
    var p := s.puts[o.revision];
    && o.revision > s.revision && o.revision !in s.deletes && !p.overtaken
    && (forall i | 0 <= i < |o.values| :: o.values[i].Some?)
    && p.told == (map i | i in o.told && i < |o.values| :: o.values[i])
    && p.notified.Keys <= o.updated
    && (p.full ==> p.notified.Keys == Reached(o))
    && (forall i | i in o.updated && i < |s.current| && i < |o.values| :: s.current[i] == o.values[i])
    && p.values == o.values
    && HoldsCurrent(s, o.revision) && HoldsOnly(s, o.revision, o.updated)
  }

  // As long as no slot joined too early, a resolver finds the queue of the Put only when what is left
  // to update does not change, and its call has all the values told.
  ghost predicate EarlyOk(s: State, o: Open)
    requires o.revision in s.puts
  {
    var p := s.puts[o.revision];
    && (p.safe ==> Undisturbed(s, p.changed))
    && (forall i | i in o.told && i < |o.values| && i < |s.current| && i !in p.changed :: s.current[i] == o.values[i])
    && (!p.joined && !(p.changed <= o.updated) ==> Unresolved(s, o.revision))
    && (!p.joined ==> CallsCarry(s, o.revision, p.told))
  }

  // No resolver has the queue of the revision.
  ghost predicate Unresolved(s: State, revision: int) {
    forall id | 0 <= id < |s.queues| && s.queues[id].revision == revision :: !s.queues[id].resolved && id !in s.ready
  }

  // Every call of the revision carries the values.
  ghost predicate CallsCarry(s: State, revision: int, values: map<nat, Reading>) {
    forall id | 0 <= id < |s.queues| && s.queues[id].revision == revision ::
      forall v | v in s.queues[id].calls :: Carries(v, values)
  }

  ghost predicate OpenDeleteOk(s: State, o: Open)
    requires o.revision in s.deletes
  {
    s.deletes[o.revision].told == o.told
    && (s.deletes[o.revision].full ==> s.deletes[o.revision].notified == Reached(o))
  }

  ghost predicate OpenOk(s: State) {
    s.open.Some? ==>
      var o := s.open.value;
      && |o.values| == |s.current| && o.revision >= s.revision
      && (forall i | i in o.told || i in o.updated :: i < |s.current|)
      && if o.put then o.revision in s.puts && OpenPutOk(s, o) && EarlyOk(s, o)
         else o.revision in s.deletes && OpenDeleteOk(s, o)
  }

  // Between events, once a Put was handled.
  ghost predicate RestOk(s: State) {
    s.open.None? && s.live ==>
      && s.revision !in s.deletes && HoldsCurrent(s, s.revision)
      && (s.revision in s.puts ==> s.current == s.puts[s.revision].values)
  }

  ghost predicate Inv(s: State) {
    && s.registered <= |s.current|
    && CacheOk(s) && Unique(s.queues) && GoroutinesOk(s) && HeardOk(s) && OpenOk(s) && RestOk(s)
    && (forall id | 0 <= id < |s.queues| :: QueueOk(s, id))
    && (forall r | r in s.puts :: PutOk(s, r))
    && (forall r | r in s.deletes :: DeleteOk(s, r))
  }

  lemma BindToInv(current: seq<Reading>, initialised: bool, revision: int, live: bool)
    ensures Inv(BindTo(current, initialised, revision, live))
  {
    assert forall r :: !Has([], r);
  }

  // ----- Events begin and end -----

  // The queues of a revision are as they were.
  ghost predicate SameQueues(s: State, t: State, r: int) {
    forall id | 0 <= id < |t.queues| && t.queues[id].revision == r :: id < |s.queues| && t.queues[id] == s.queues[id]
  }

  // A record stays right while nothing it speaks about changes.
  lemma PutFrame(s: State, t: State, r: int)
    requires r in s.puts && PutOk(s, r) && r in t.puts && t.puts[r] == s.puts[r]
    requires SameQueues(s, t, r) && |t.current| == |s.current|
    requires s.registered <= t.registered && (s.registered == |s.current| ==> t.registered == s.registered)
    requires r in t.bound ==> r in s.bound
    requires (r in t.deletes <==> r in s.deletes) && (r in s.deletes ==> t.deletes[r].had == s.deletes[r].had)
    requires Dispatching(s, r, true) ==> Dispatching(t, r, true)
    ensures PutOk(t, r)
  {
  }

  lemma DeleteFrame(s: State, t: State, r: int)
    requires r in s.deletes && DeleteOk(s, r) && r in t.deletes && t.deletes[r] == s.deletes[r]
    requires SameQueues(s, t, r) && (Has(s.queues, r) ==> Has(t.queues, r)) && |t.current| == |s.current|
    requires s.registered == |s.current| ==> t.registered == s.registered
    requires r in t.bound ==> r in s.bound
    requires Dispatching(s, r, false) ==> Dispatching(t, r, false)
    ensures DeleteOk(t, r)
  {
  }

  lemma QueueFrame(s: State, t: State, id: nat)
    requires id < |s.queues| && QueueOk(s, id) && t.queues == s.queues && |t.current| == |s.current|
    requires id in s.held || id in s.ready ==> id in t.held || id in t.ready
    requires Known(s, s.queues[id].revision) ==> Known(t, s.queues[id].revision)
    ensures QueueOk(t, id)
  {
  }

  lemma BeginPutInv(s: State, revision: int, values: seq<Reading>, told: set<nat>)
    requires Inv(s) && Enabled(s, BeginPut(revision, values, told))
    ensures Inv(PutBegun(s, revision, values, told))
  {
    var t := PutBegun(s, revision, values, told);
    hide CacheOk, Find, QueueOk, PutOk, DeleteOk, OpenOk, Has, Unique;
    NoneNewer(s, revision);
    FreshIsCached(s, t);
    OpenPutBegun(s, revision, values, told);
    forall id | 0 <= id < |s.queues|
      ensures QueueOk(t, id)
    {
      QueueFrame(s, t, id);
    }
    forall r
      ensures Has(t.queues, r) <==> Heard(t, r)
    {
      assert Has(s.queues, r) <==> Heard(s, r);
    }
    forall r | r in t.puts
      ensures PutOk(t, r)
    {
      if r == revision { NewPutOk(t, r); } else { PutFrame(s, t, r); }
    }
    forall r | r in t.deletes
      ensures DeleteOk(t, r)
    {
      DeleteFrame(s, t, r);
    }
  }

  lemma OpenPutBegun(s: State, revision: int, values: seq<Reading>, told: set<nat>)
    requires Enabled(s, BeginPut(revision, values, told)) && revision !in s.deletes
    requires forall id | 0 <= id < |s.queues| :: s.queues[id].revision < revision
    ensures OpenOk(PutBegun(s, revision, values, told))
  {
  }

  lemma NoneNewer(s: State, revision: int)
    requires Inv(s) && s.open.None? && revision > s.revision
    ensures revision !in s.puts && revision !in s.deletes && revision !in s.bound
    ensures forall id | 0 <= id < |s.queues| :: s.queues[id].revision < revision
  {
    forall id | 0 <= id < |s.queues|
      ensures s.queues[id].revision < revision
    {
      assert QueueOk(s, id);
    }
  }

  lemma NewPutOk(s: State, r: int)
    requires r in s.puts && Dispatching(s, r, true) && r !in s.bound
    requires s.puts[r].notified == map[] && !s.puts[r].joined && !s.puts[r].overtaken
    requires s.puts[r].full ==> s.registered == |s.current|
    requires forall id | 0 <= id < |s.queues| :: s.queues[id].revision < r
    ensures PutOk(s, r)
  {
  }

  // No queue of the event's revision is cached yet, unless it is the current one.
  lemma FreshIsCached(s: State, t: State)
    requires CacheOk(s) && s.open.None? && t.open.Some? && t.revision == s.revision && t.cache == s.cache &&
             t.queues == s.queues
    requires t.open.value.revision == s.revision ||
             forall id | 0 <= id < |s.queues| :: s.queues[id].revision < t.open.value.revision
    ensures CacheOk(t)
  {
    if t.open.value.revision != s.revision {
      assert forall e | e in s.cache :: e.0 != t.open.value.revision;
      assert forall i | 0 <= i < |s.cache| :: s.cache[i] in s.cache;
    }
  }

  lemma BeginDeleteInv(s: State, revision: int, told: set<nat>)
    requires Inv(s) && Enabled(s, BeginDelete(revision, told))
    ensures Inv(DeleteBegun(s, revision, told))
  {
    var t := DeleteBegun(s, revision, told);
    hide CacheOk, Find, QueueOk, PutOk, DeleteOk, OpenOk, Has, Unique, CallsOf, Overtake;
    if revision > s.revision { NoneNewer(s, revision); }
    FreshIsCached(s, t);
    NewDeleteOk(s, t, revision);
    OpenDeleteBegun(s, revision, told);
    forall id | 0 <= id < |s.queues|
      ensures QueueOk(t, id)
    {
      QueueFrame(s, t, id);
    }
    forall r
      ensures r in t.puts <==> r in s.puts
      ensures r in s.puts ==> t.puts[r].notified == s.puts[r].notified && (r != revision ==> t.puts[r] == s.puts[r])
      ensures Has(t.queues, r) <==> Heard(t, r)
    {
      OvertakeKeeps(s, revision);
      assert Has(s.queues, r) <==> Heard(s, r);
    }
    forall r | r in t.puts
      ensures PutOk(t, r)
    {
      assert Has(s.queues, r) <==> Heard(s, r);
      if r == revision { OvertakenPutOk(s, t, r); } else { PutFrame(s, t, r); }
    }
    forall r | r in t.deletes
      ensures DeleteOk(t, r)
    {
      if r != revision { DeleteFrame(s, t, r); }
    }
  }

  lemma OpenDeleteBegun(s: State, revision: int, told: set<nat>)
    requires Enabled(s, BeginDelete(revision, told))
    ensures OpenOk(DeleteBegun(s, revision, told))
  {
    hide Overtake, CallsOf, Has;
  }

  lemma OvertakeKeeps(s: State, revision: int)
    ensures Overtake(s, revision).Keys == s.puts.Keys
    ensures forall r | r in s.puts :: Overtake(s, revision)[r].notified == s.puts[r].notified
    ensures forall r | r in s.puts && r != revision :: Overtake(s, revision)[r] == s.puts[r]
  {
  }

  lemma OvertakenPutOk(s: State, t: State, r: int)
    requires r in s.puts && PutOk(s, r) && r !in s.deletes && !Dispatching(s, r, true)
    requires t.puts == Overtake(s, r) && r in t.deletes && (s.puts[r].notified != map[] ==> t.deletes[r].had)
    requires t.queues == s.queues && t.registered == s.registered && |t.current| == |s.current| && t.bound == s.bound
    ensures PutOk(t, r)
  {
  }

  lemma NewDeleteOk(s: State, t: State, r: int)
    requires Unique(s.queues) && forall id | 0 <= id < |s.queues| :: QueueOk(s, id)
    requires HeardOk(s) && Dispatching(t, r, false) && t.queues == s.queues && t.bound == s.bound
    requires |t.current| == |s.current| && t.registered == s.registered
    requires r in t.deletes
    requires var had, called := Has(s.queues, r), CallsOf(s.queues, r);
             t.deletes[r] == DeleteRecord(t.deletes[r].told, {}, s.registered == |s.current|, had, called)
    ensures DeleteOk(t, r)
  {
    if r in s.bound { assert Heard(s, r); }
    if id :| 0 <= id < |s.queues| && s.queues[id].revision == r {
      CallsOfUnique(s.queues, r, id);
      assert QueueOk(s, id);
    } else {
      CallsOfNone(s.queues, r);
    }
  }

  lemma {:induction false} CallsOfNone(queues: seq<Queue>, r: int)
    requires !Has(queues, r)
    ensures CallsOf(queues, r) == 0
    decreases |queues|
  {
    if queues != [] {
      assert queues[|queues| - 1].revision != r;
      assert forall id | 0 <= id < |queues| - 1 :: queues[..|queues| - 1][id] == queues[id];
      CallsOfNone(queues[..|queues| - 1], r);
    }
  }

  // The calls of a revision are those of its one queue.
  lemma {:induction false} CallsOfUnique(queues: seq<Queue>, r: int, id: nat)
    requires Unique(queues) && id < |queues| && queues[id].revision == r
    ensures CallsOf(queues, r) == |queues[id].calls|
    decreases |queues|
  {
    var front := queues[..|queues| - 1];
    assert forall j | 0 <= j < |front| :: front[j] == queues[j];
    if id == |queues| - 1 { CallsOfNone(front, r); } else { CallsOfUnique(front, r, id); }
  }

  lemma EndEventInv(s: State)
    requires Inv(s) && Enabled(s, EndEvent)
    ensures Inv(EventEnded(s))
  {
    var t := EventEnded(s);
    hide CacheOk, Find, QueueOk, PutOk, DeleteOk, OpenOk, RestOk, Has, Unique;
    EndedIsCached(s);
    EndedRestOk(s);
    forall id | 0 <= id < |s.queues|
      ensures QueueOk(t, id)
    {
      QueueFrame(s, t, id);
    }
    forall r
      ensures Has(t.queues, r) <==> Heard(t, r)
    {
      assert Has(s.queues, r) <==> Heard(s, r);
    }
    forall r | r in t.puts
      ensures PutOk(t, r)
    {
      if Dispatching(s, r, true) { EndedPutOk(s, t, r); } else { PutFrame(s, t, r); }
    }
    forall r | r in t.deletes
      ensures DeleteOk(t, r)
    {
      if Dispatching(s, r, false) { EndedDeleteOk(s, t, r); } else { DeleteFrame(s, t, r); }
    }
  }

  lemma EndedIsCached(s: State)
    requires CacheOk(s) && s.open.Some?
    ensures CacheOk(EventEnded(s))
  {
  }

  lemma EndedRestOk(s: State)
    requires Enabled(s, EndEvent) && OpenOk(s)
    ensures OpenOk(EventEnded(s)) && RestOk(EventEnded(s))
    ensures s.open.value.revision >= s.revision
  {
    hide AllCurrent, HoldsOnly, EarlyOk;
    if s.open.value.put { assert s.current == s.open.value.values; }
  }

  lemma EndedPutOk(s: State, t: State, r: int)
    requires Enabled(s, EndEvent) && OpenOk(s) && Dispatching(s, r, true) && r in s.puts && PutOk(s, r) &&
             t == EventEnded(s)
    ensures PutOk(t, r)
  {
    var p := s.puts[r];
    if p.full {
      assert p.notified.Keys == p.told.Keys;
      assert p.notified == p.told;
    }
  }

  lemma EndedDeleteOk(s: State, t: State, r: int)
    requires Enabled(s, EndEvent) && OpenOk(s) && Dispatching(s, r, false) && r in s.deletes && DeleteOk(s, r) &&
             t == EventEnded(s)
    ensures DeleteOk(t, r)
  {
  }

  // ----- Resolving -----

  // Queue id is resolved; the rest is as it was.
  ghost predicate Resolved(s: State, t: State, id: nat)
    requires id < |s.queues|
  {
    && t == s.(queues := t.queues, ready := t.ready)
    && t.ready == s.ready - multiset{id}
    && |t.queues| == |s.queues|
    && (forall j | 0 <= j < |s.queues| && j != id :: t.queues[j] == s.queues[j])
    && t.queues[id] == s.queues[id].(resolved := true, calls := t.queues[id].calls)
    && t.queues[id].calls ==
         s.queues[id].calls + (if s.queues[id].resolved then [] else [Fill(s.queues[id].values, s.current)])
  }

  lemma ResolveChanges(s: State, id: nat)
    requires id < |s.queues|
    ensures Resolved(s, ResolveQueue(s, id), id)
  {
  }

  lemma ResolveInv(s: State, id: nat)
    requires Inv(s) && id in s.ready
    ensures Inv(ResolveQueue(s, id))
  {
    var t := ResolveQueue(s, id);
    assert id < |s.queues| && QueueOk(s, id);
    hide Known, Carries, QueueCarries, Recent, InUse, AllSlots, HoldsCurrent, HoldsOnly, Heard;
    hide CacheOk, Find, QueueOk, PutOk, DeleteOk, OpenOk, RestOk, Unique, Fill, ResolveQueue, Has;
    ResolveChanges(s, id);
    ResolveCached(s, t, id);
    ResolveHeardOk(s, t, id);
    ResolveOpenOk(s, t, id);
    assert |t.queues| == |s.queues| && t.puts.Keys == s.puts.Keys && t.deletes.Keys == s.deletes.Keys;
    assert GoroutinesOk(t);
    hide Resolved, HeardOk, GoroutinesOk;
    forall j | 0 <= j < |t.queues|
      ensures QueueOk(t, j)
    {
      ResolveQueueOk(s, t, id, j);
    }
    forall r | r in t.puts
      ensures PutOk(t, r)
    {
      ResolvePutOk(s, t, id, r);
    }
    forall r | r in t.deletes
      ensures DeleteOk(t, r)
    {
      ResolveDeleteOk(s, t, id, r);
    }
  }

  lemma SameRevisions(a: seq<Queue>, b: seq<Queue>, r: int)
    requires |a| == |b| && forall j | 0 <= j < |a| :: b[j].revision == a[j].revision
    ensures Has(a, r) <==> Has(b, r)
  {
    if j :| 0 <= j < |a| && a[j].revision == r { assert b[j].revision == r; }
    if j :| 0 <= j < |b| && b[j].revision == r { assert a[j].revision == r; }
  }

  lemma ResolveCached(s: State, t: State, id: nat)
    requires id < |s.queues| && Resolved(s, t, id) && CacheOk(s) && Unique(s.queues)
    ensures CacheOk(t) && Unique(t.queues)
  {
    hide Fill;
    assert forall j | 0 <= j < |s.queues| :: t.queues[j].revision == s.queues[j].revision;
  }

  lemma ResolveHeardOk(s: State, t: State, id: nat)
    requires id < |s.queues| && Resolved(s, t, id) && HeardOk(s)
    ensures HeardOk(t)
  {
    hide Has, Fill;
    assert forall j | 0 <= j < |s.queues| :: t.queues[j].revision == s.queues[j].revision;
    forall r
      ensures Has(t.queues, r) <==> Heard(t, r)
    {
      assert Has(s.queues, r) <==> Heard(s, r);
      SameRevisions(s.queues, t.queues, r);
    }
  }

  lemma ResolveQueueOk(s: State, t: State, id: nat, j: nat)
    requires id < |s.queues| && Resolved(s, t, id) && j < |s.queues| && QueueOk(s, j)
    ensures QueueOk(t, j)
  {
  }

  lemma FillCarries(values: seq<Reading>, current: seq<Reading>, notified: map<nat, Reading>)
    requires Carries(values, notified) && forall i | i in notified :: notified[i].Some?
    ensures Carries(Fill(values, current), notified)
  {
  }

  lemma ResolvePutOk(s: State, t: State, id: nat, r: int)
    requires id < |s.queues| && Resolved(s, t, id) && QueueOk(s, id) && r in s.puts && PutOk(s, r)
    ensures PutOk(t, r)
  {
    var p := s.puts[r];
    hide Fill, Carries;
    if s.queues[id].revision == r && !s.queues[id].resolved && !p.joined && !p.overtaken {
      FillCarries(s.queues[id].values, s.current, p.notified);
    }
  }

  lemma ResolveDeleteOk(s: State, t: State, id: nat, r: int)
    requires id < |s.queues| && Resolved(s, t, id) && r in s.deletes && DeleteOk(s, r)
    ensures DeleteOk(t, r)
  {
    hide Has, Fill;
    SameRevisions(s.queues, t.queues, r);
  }

  lemma ResolveOpenOk(s: State, t: State, id: nat)
    requires id < |s.queues| && id in s.ready && Resolved(s, t, id) && OpenOk(s) && RestOk(s) && QueueOk(s, id)
    ensures OpenOk(t) && RestOk(t)
  {
    UnresolvedHolds(s, t, s.revision);
    if s.open.Some? { UnresolvedHolds(s, t, s.open.value.revision); }
    if s.open.Some? && s.open.value.put { ResolveEarlyOk(s, t, id); }
    hide Fill, HoldsCurrent, HoldsOnly, AllCurrent, AllOf, EarlyOk;
  }

  // A resolver that comes before the Put is handled calls back with all its values.
  lemma ResolveEarlyOk(s: State, t: State, id: nat)
    requires id < |s.queues| && id in s.ready && Resolved(s, t, id) && OpenOk(s) && s.open.Some? && s.open.value.put
    requires QueueOk(s, id)
    ensures EarlyOk(t, t.open.value)
  {
    var o, p := s.open.value, s.puts[s.open.value.revision];
    if !p.joined {
      forall j, v | 0 <= j < |t.queues| && t.queues[j].revision == o.revision && v in t.queues[j].calls
        ensures Carries(v, p.told)
      {
        assert s.queues[j].revision == o.revision;
        if v !in s.queues[j].calls {
          assert j == id && v == Fill(s.queues[id].values, s.current);
          assert p.changed <= o.updated;
          FillCurrent(s.queues[id].values, s.current);
        }
      }
    }
    hide Fill;
  }

  lemma FillCurrent(values: seq<Reading>, current: seq<Reading>)
    requires |values| == |current| && AllCurrent(values, current)
    ensures Fill(values, current) == current
  {
  }

  // What unresolved queues hold is kept while those that are left are as they were.
  lemma UnresolvedHolds(s: State, t: State, r: int)
    requires |t.queues| == |s.queues| && t.current == s.current
    requires forall j | 0 <= j < |s.queues| && !t.queues[j].resolved :: t.queues[j] == s.queues[j]
    ensures HoldsCurrent(s, r) ==> HoldsCurrent(t, r)
    ensures forall slots | HoldsOnly(s, r, slots) :: HoldsOnly(t, r, slots)
  {
  }
}

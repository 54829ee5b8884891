// What every step of the machine in Binding keeps; updates, registrations and whole runs.
module BindingSteps {
  import opened Basics
  import opened ReactiveValues
  import opened Binding
  import opened BindingCache
  import opened BindingInvariant

  // ----- Updates reach a queue -----

  // Only the queue of the revision changes, which there is now.
  lemma TouchedHas(s: State, t: State, slot: nat, revision: int, v: Reading, r: int)
    requires Touched(s, t, slot, revision, v)
    ensures Has(t.queues, r) <==> r == revision || Has(s.queues, r)
    ensures r != revision ==> SameQueues(s, t, r)
  {
    var id := QueueFor(s, revision);
    hide UpdateAt;
    assert forall j | 0 <= j < |s.queues| :: t.queues[j].revision == s.queues[j].revision;
    assert t.queues[id].revision == revision;
    if Has(t.queues, r) {
      var j :| 0 <= j < |t.queues| && t.queues[j].revision == r;
      assert j < |s.queues| ==> s.queues[j].revision == r;
    }
    if Has(s.queues, r) {
      var j :| 0 <= j < |s.queues| && s.queues[j].revision == r;
      assert t.queues[j].revision == r;
    }
  }

  // The parts of a state that an update leaves, but for the goroutines it starts.
  ghost predicate SameEvent(s: State, t: State) {
    && |t.current| == |s.current| && t.revision == s.revision && t.initialised == s.initialised && t.live == s.live
    && (s.open.Some? <==> t.open.Some?)
    && (s.open.Some? ==> t.open.value == s.open.value.(updated := t.open.value.updated))
    && s.held <= t.held && s.ready <= t.ready
  }

  lemma TouchedQueueOk(s: State, t: State, slot: nat, revision: int, v: Reading, j: nat)
    requires Touched(s, t, slot, revision, v) && SameEvent(s, t) && Known(s, revision)
    requires QueueFor(s, revision) in t.held || QueueFor(s, revision) in t.ready
    requires j < |t.queues| && (j < |s.queues| ==> QueueOk(s, j))
    ensures QueueOk(t, j)
  {
  }

  // The queue of a Put takes a value for a slot the Put has not notified.
  lemma TouchedCarries(s: State, t: State, slot: nat, revision: int, v: Reading, notified: map<nat, Reading>)
    requires Touched(s, t, slot, revision, v) && slot !in notified && (notified != map[] ==> Has(s.queues, revision))
    requires forall id | 0 <= id < |s.queues| && s.queues[id].revision == revision ::
             QueueCarries(s.queues[id], notified)
    ensures forall id | 0 <= id < |t.queues| && t.queues[id].revision == revision ::
            QueueCarries(t.queues[id], notified)
  {
    forall id | 0 <= id < |t.queues| && t.queues[id].revision == revision
      ensures QueueCarries(t.queues[id], notified)
    {
      if id < |s.queues| {
        assert s.queues[id].revision == revision && QueueCarries(s.queues[id], notified);
      } else {
        assert notified == map[];
      }
    }
  }

  // Nothing else of a record depends on the values in the queue.
  lemma TouchedDeleteOk(s: State, t: State, slot: nat, revision: int, v: Reading, r: int)
    requires Touched(s, t, slot, revision, v) && r in s.deletes && DeleteOk(s, r) && r in t.deletes
    requires t.deletes[r] == s.deletes[r].(notified := t.deletes[r].notified) &&
             t.deletes[r].notified <= t.deletes[r].told
    requires t.deletes[r].full ==> t.registered == |t.current| && (!t.deletes[r].had ==> r !in t.bound)
    requires t.deletes[r].full && !Dispatching(t, r, false) ==> t.deletes[r].notified == t.deletes[r].told
    ensures DeleteOk(t, r)
  {
    hide UpdateAt;
    TouchedHas(s, t, slot, revision, v, r);
    var d := t.deletes[r];
    if d.called == 1 {
      forall id | 0 <= id < |t.queues| && t.queues[id].revision == r
        ensures t.queues[id].resolved
      {
        if id < |s.queues| { assert s.queues[id].revision == r; }
      }
    }
  }

  // What the queue of a revision holds, once it took the current value of a slot.
  lemma TouchedHolds(s: State, t: State, slot: nat, revision: int, v: Reading, slots: set<nat>)
    requires Touched(s, t, slot, revision, v) && |t.current| == |s.current| && slot < |s.current| &&
             t.current == s.current[slot := v]
    requires HoldsCurrent(s, revision) && (t.current == s.current || (HoldsOnly(s, revision, slots) && slot !in slots))
    ensures HoldsCurrent(t, revision)
    ensures HoldsOnly(s, revision, slots) ==> HoldsOnly(t, revision, slots + {slot})
  {
    forall id | 0 <= id < |t.queues| && t.queues[id].revision == revision && !t.queues[id].resolved
      ensures AllCurrent(t.queues[id].values, t.current)
      ensures HoldsOnly(s, revision, slots) ==> AllOf(t.queues[id].values, slots + {slot})
    {
      if id < |s.queues| {
        assert s.queues[id].revision == revision && !s.queues[id].resolved;
        assert AllCurrent(s.queues[id].values, s.current);
        assert t.queues[id] == s.queues[id] || t.queues[id].values == UpdateAt(s.queues[id].values, slot, v);
      }
    }
  }

  // ----- An event updates a value -----

  lemma SetCached(s: State, slot: nat)
    requires s.open.Some? && slot < |s.current| && CacheOk(s)
    ensures CacheOk(Set(s, slot))
    ensures forall r :: QueueFor(Set(s, slot), r) == QueueFor(s, r)
  {
  }

  lemma SetInv(s: State, slot: nat)
    requires Inv(s) && Enabled(s, Update(slot)) && !(slot in s.open.value.told && slot < s.registered)
    ensures Inv(Set(s, slot))
  {
    var t := Set(s, slot);
    hide Known, Heard, CacheOk, Find, QueueOk, PutOk, DeleteOk, OpenOk, Has, Unique;
    SetCached(s, slot);
    SetOpenOk(s, slot);
    forall id | 0 <= id < |s.queues|
      ensures QueueOk(t, id)
    {
      KnownFrame(s, t, s.queues[id].revision);
      QueueFrame(s, t, id);
    }
    forall r
      ensures Has(t.queues, r) <==> Heard(t, r)
      ensures Known(s, r) ==> Known(t, r)
    {
      KnownFrame(s, t, r);
      HeardFrame(s, t, r);
      assert Has(s.queues, r) <==> Heard(s, r);
    }
    forall r | r in t.puts
      ensures PutOk(t, r)
    {
      PutFrame(s, t, r);
    }
    forall r | r in t.deletes
      ensures DeleteOk(t, r)
    {
      DeleteFrame(s, t, r);
    }
  }

  lemma KnownFrame(s: State, t: State, r: int)
    requires t.revision == s.revision && (s.open.Some? <==> t.open.Some?)
    requires s.open.Some? ==> t.open.value.revision == s.open.value.revision
    ensures Known(t, r) <==> Known(s, r)
  {
  }

  lemma HeardFrame(s: State, t: State, r: int)
    requires t.puts == s.puts && t.deletes == s.deletes && t.bound == s.bound
    ensures Heard(t, r) <==> Heard(s, r)
  {
  }

  // A value that holds nothing of its queue may change.
  lemma SetHolds(s: State, t: State, slot: nat, r: int, slots: set<nat>)
    requires t.queues == s.queues && slot < |s.current| && |t.current| == |s.current|
    requires forall i | 0 <= i < |s.current| && i != slot :: t.current[i] == s.current[i]
    requires HoldsCurrent(s, r) && HoldsOnly(s, r, slots) && slot !in slots
    ensures HoldsCurrent(t, r) && HoldsOnly(t, r, slots + {slot})
  {
    forall id | 0 <= id < |t.queues| && t.queues[id].revision == r && !t.queues[id].resolved
      ensures AllCurrent(t.queues[id].values, t.current) && AllOf(t.queues[id].values, slots + {slot})
    {
      assert AllCurrent(s.queues[id].values, s.current) && AllOf(s.queues[id].values, slots);
    }
  }

  lemma SetOpenOk(s: State, slot: nat)
    requires Inv(s) && Enabled(s, Update(slot)) && !(slot in s.open.value.told && slot < s.registered)
    ensures OpenOk(Set(s, slot))
  {
    var o, t := s.open.value, Set(s, slot);
    if o.put {
      SetHolds(s, t, slot, o.revision, o.updated);
      assert PutOk(s, o.revision);
      hide HoldsCurrent, HoldsOnly;
      assert s.puts[o.revision].full ==> Reached(t.open.value) == Reached(o);
    } else {
      assert DeleteOk(s, o.revision);
      assert s.deletes[o.revision].full ==> Reached(t.open.value) == Reached(o);
    }
  }

  // The binder is told of a new value: its queue and the record of the event take it.
  ghost predicate Notified(s: State, t: State, slot: nat) {
    && s.open.Some? && slot < |s.current| && slot !in s.open.value.updated
    && slot in s.open.value.told && slot < s.registered
    && var o := s.open.value;
       var r, v := o.revision, NewValue(s, slot);
       && Touched(s, t, slot, r, v)
       && t == s.(current := s.current[slot := v], open := Some(o.(updated := o.updated + {slot})),
                  cache := t.cache, queues := t.queues, held := s.held + multiset{QueueFor(s, r)},
                  puts := t.puts, deletes := t.deletes)
       && t.puts == (if o.put && r in s.puts
                     then s.puts[r := s.puts[r].(notified := s.puts[r].notified[slot := v])] else s.puts)
       && t.deletes == (if !o.put && r in s.deletes
                        then s.deletes[r := s.deletes[r].(notified := s.deletes[r].notified + {slot})] else s.deletes)
  }

  lemma NotifyInv(s: State, slot: nat)
    requires Inv(s) && Enabled(s, Update(slot)) && slot in s.open.value.told && slot < s.registered
    ensures Inv(Notify(s, slot))
  {
    var t, r := Notify(s, slot), s.open.value.revision;
    hide Known, Heard, CacheOk, Find, QueueOk, PutOk, DeleteOk, OpenOk, Has, Unique, Notified, Notify;
    NotifyTouches(s, slot);
    NotifyRest(s, t, slot);
    NotifyHeardOk(s, t, slot);
    NotifyOpenOk(s, t, slot);
    forall id | 0 <= id < |t.queues|
      ensures QueueOk(t, id)
    {
      NotifyQueueOk(s, t, slot, id);
    }
    forall x | x in t.puts
      ensures PutOk(t, x)
    {
      NotifyPutOk(s, t, slot, x);
    }
    forall x | x in t.deletes
      ensures DeleteOk(t, x)
    {
      NotifyDeleteOk(s, t, slot, x);
    }
  }

  lemma NotifyTouches(s: State, slot: nat)
    requires CacheOk(s) && Unique(s.queues)
    requires Enabled(s, Update(slot)) && slot in s.open.value.told && slot < s.registered
    ensures Notified(s, Notify(s, slot), slot)
    ensures CacheOk(Notify(s, slot)) && Unique(Notify(s, slot).queues)
  {
    var r, v := s.open.value.revision, NewValue(s, slot);
    var set_, t := Set(s, slot), Notify(s, slot);
    hide CacheOk, Unique, OnUpdate, Touched, QueueFor;
    SetCached(s, slot);
    OnUpdateTouches(set_, slot, r, v);
    CacheFrame(OnUpdate(set_, slot, r, v), t);
    TouchedFrame(set_, OnUpdate(set_, slot, r, v), s, t, slot, r, v);
  }

  lemma CacheFrame(s: State, t: State)
    requires CacheOk(s) && t.cache == s.cache && t.queues == s.queues && t.revision == s.revision && t.open == s.open
    ensures CacheOk(t)
  {
  }

  lemma TouchedFrame(s: State, t: State, s': State, t': State, slot: nat, r: int, v: Reading)
    requires Touched(s, t, slot, r, v)
    requires s'.queues == s.queues && s'.cache == s.cache && |s'.current| == |s.current| && t'.queues == t.queues
    ensures Touched(s', t', slot, r, v)
  {
  }

  lemma NotifyRest(s: State, t: State, slot: nat)
    requires Notified(s, t, slot) && GoroutinesOk(s)
    ensures GoroutinesOk(t) && RestOk(t) && t.registered == s.registered && |t.current| == |s.current|
    ensures t.puts.Keys == s.puts.Keys && t.deletes.Keys == s.deletes.Keys
  {
    hide Has, UpdateAt;
  }

  lemma NotifyQueueOk(s: State, t: State, slot: nat, id: nat)
    requires Notified(s, t, slot) && id < |t.queues| && forall j | 0 <= j < |s.queues| :: QueueOk(s, j)
    ensures QueueOk(t, id)
  {
    hide Touched, QueueFor;
    assert id < |s.queues| ==> QueueOk(s, id);
    TouchedQueueOk(s, t, slot, s.open.value.revision, NewValue(s, slot), id);
  }

  lemma NotifyHeardOk(s: State, t: State, slot: nat)
    requires Notified(s, t, slot) && HeardOk(s) && OpenOk(s)
    ensures HeardOk(t)
  {
    var r := s.open.value.revision;
    hide Touched, Has, QueueFor, OpenPutOk, OpenDeleteOk;
    forall x
      ensures Has(t.queues, x) <==> Heard(t, x)
    {
      TouchedHas(s, t, slot, r, NewValue(s, slot), x);
      assert Has(s.queues, x) <==> Heard(s, x);
      if s.open.value.put {
        assert t.puts[r].notified[slot] == NewValue(s, slot);
      } else {
        assert slot in t.deletes[r].notified;
      }
    }
  }

  lemma NotifyPutOk(s: State, t: State, slot: nat, x: int)
    requires Notified(s, t, slot) && HeardOk(s) && OpenOk(s) && Unique(s.queues) && x in s.puts && PutOk(s, x)
    requires forall id | 0 <= id < |s.queues| :: QueueOk(s, id)
    ensures PutOk(t, x)
  {
    var r, v := s.open.value.revision, NewValue(s, slot);
    assert Has(s.queues, x) <==> Heard(s, x);
    hide Has, QueueFor, QueueOk, HeardOk;
    TouchedHas(s, t, slot, r, v, x);
    hide PutOk;
    if x != r {
      PutFrame(s, t, x);
    } else if s.open.value.put {
      NotifiedPutOk(s, t, slot);
    } else {
      OverwrittenPutOk(s, t, slot);
    }
  }

  lemma NotifiedPutOk(s: State, t: State, slot: nat)
    requires Notified(s, t, slot) && HeardOk(s) && OpenOk(s) && s.open.value.put && PutOk(s, s.open.value.revision)
    requires Unique(s.queues)
    requires forall id | 0 <= id < |s.queues| :: QueueOk(s, id)
    ensures PutOk(t, s.open.value.revision)
  {
    hide Touched, QueueCarries, QueueOk, Has, HoldsCurrent, HoldsOnly, Unique, QueueFor;
    var r := s.open.value.revision;
    assert Has(s.queues, r) <==> Heard(s, r);
    if !s.puts[r].joined { NotifiedCarries(s, t, slot, r); }
  }

  lemma OverwrittenPutOk(s: State, t: State, slot: nat)
    requires Notified(s, t, slot) && HeardOk(s) && OpenOk(s) && !s.open.value.put
    requires s.open.value.revision in s.puts && PutOk(s, s.open.value.revision)
    ensures PutOk(t, s.open.value.revision)
  {
    var r := s.open.value.revision;
    assert Has(s.queues, r) <==> Heard(s, r);
    DeletionCarries(s, t, slot, r);
    hide Touched, QueueCarries, HeardOk, Has;
  }

  // The Put being handled: its queue carries one more slot.
  lemma NotifiedCarries(s: State, t: State, slot: nat, r: int)
    requires Dispatching(s, r, true) && r in s.puts && !s.puts[r].joined && PutOk(s, r)
    requires OpenPutOk(s, s.open.value) && EarlyOk(s, s.open.value) && slot in s.puts[r].told
    requires s.puts[r].told[slot] == NewValue(s, slot)
    requires Touched(s, t, slot, r, NewValue(s, slot)) && slot !in s.open.value.updated && slot < |s.current|
    requires Unique(s.queues)
    requires Has(s.queues, r) <==> Heard(s, r)
    requires forall id | 0 <= id < |s.queues| :: QueueOk(s, id)
    ensures slot !in s.puts[r].notified
    ensures forall id | 0 <= id < |t.queues| && t.queues[id].revision == r ::
              QueueCarries(t.queues[id], s.puts[r].notified[slot := NewValue(s, slot)])
  {
    forall id | 0 <= id < |t.queues| && t.queues[id].revision == r
      ensures QueueCarries(t.queues[id], s.puts[r].notified[slot := NewValue(s, slot)])
    {
      if id < |s.queues| {
        assert id == QueueFor(s, r);
        assert s.queues[id].revision == r && QueueOk(s, id) && QueueCarries(s.queues[id], s.puts[r].notified);
        assert s.queues[id].calls != [] ==> Carries(s.queues[id].calls[0], s.puts[r].told);
        if !s.queues[id].resolved { CarriesMore(s.queues[id].values, s.puts[r].notified, slot, NewValue(s, slot)); }
      } else {
        assert s.puts[r].notified == map[];
        CarriesMore(Blank(|s.current|), map[], slot, NewValue(s, slot));
      }
    }
  }

  lemma CarriesMore(values: seq<Reading>, notified: map<nat, Reading>, slot: nat, v: Reading)
    requires Carries(values, notified) && slot < |values|
    ensures Carries(UpdateAt(values, slot, v), notified[slot := v])
  {
  }

  // A deletion reaches the queue of the Put before it, resolved if it carries anything.
  lemma DeletionCarries(s: State, t: State, slot: nat, r: int)
    requires Dispatching(s, r, false) && r in s.puts && r in s.deletes && PutOk(s, r)
    requires Touched(s, t, slot, r, NewValue(s, slot))
    requires Has(s.queues, r) <==> Heard(s, r)
    ensures var p := s.puts[r];
            forall id | 0 <= id < |t.queues| && t.queues[id].revision == r ::
              && (!p.joined && !p.overtaken ==> QueueCarries(t.queues[id], p.notified))
              && (!p.overtaken && p.notified != map[] ==> t.queues[id].resolved)
  {
    var p := s.puts[r];
    forall id | 0 <= id < |t.queues| && t.queues[id].revision == r
      ensures !p.joined && !p.overtaken ==> QueueCarries(t.queues[id], p.notified)
      ensures !p.overtaken && p.notified != map[] ==> t.queues[id].resolved
    {
      if id < |s.queues| { assert s.queues[id].revision == r; }
    }
  }

  lemma NotifyDeleteOk(s: State, t: State, slot: nat, x: int)
    requires Notified(s, t, slot) && OpenOk(s) && x in s.deletes && DeleteOk(s, x)
    ensures DeleteOk(t, x)
  {
    hide Has, QueueFor, Touched, OpenPutOk;
    TouchedDeleteOk(s, t, slot, s.open.value.revision, NewValue(s, slot), x);
  }

  lemma NotifyOpenOk(s: State, t: State, slot: nat)
    requires Notified(s, t, slot) && OpenOk(s) && GoroutinesOk(s)
    requires forall id | 0 <= id < |s.queues| :: QueueOk(s, id)
    ensures OpenOk(t)
  {
    var r := s.open.value.revision;
    hide QueueFor, QueueOk;
    if s.open.value.put {
      NotifyOpenPutOk(s, t, slot);
      NotifyEarlyOk(s, t, slot);
      hide Touched, OpenPutOk, EarlyOk;
    } else {
      assert t.deletes[r].full ==> t.deletes[r].notified == Reached(t.open.value);
    }
  }

  lemma NotifyOpenPutOk(s: State, t: State, slot: nat)
    requires Notified(s, t, slot) && OpenOk(s) && GoroutinesOk(s) && s.open.value.put
    ensures OpenPutOk(t, t.open.value)
  {
    var o, r := s.open.value, s.open.value.revision;
    TouchedHolds(s, t, slot, r, NewValue(s, slot), o.updated);
    hide HoldsCurrent, HoldsOnly, Touched, QueueFor;
    assert t.puts[r].full ==> t.puts[r].notified.Keys == Reached(t.open.value);
  }

  lemma NotifyEarlyOk(s: State, t: State, slot: nat)
    requires Notified(s, t, slot) && OpenOk(s) && GoroutinesOk(s) && s.open.value.put
    ensures EarlyOk(t, t.open.value)
  {
    var r := s.open.value.revision;
    hide UpdateAt, HoldsCurrent, HoldsOnly, Carries;
    forall id | 0 <= id < |t.queues| && t.queues[id].revision == r
      ensures id < |s.queues| ==> s.queues[id].revision == r
      ensures id < |s.queues| ==> t.queues[id].resolved == s.queues[id].resolved
      ensures id < |s.queues| ==> t.queues[id].calls == s.queues[id].calls
      ensures id >= |s.queues| ==> !t.queues[id].resolved && t.queues[id].calls == [] && id !in t.ready
    {
    }
  }

  // ----- Bind registers a value -----

  // Records of events that found all slots registered are none while one is not.
  lemma NotFull(s: State)
    requires Inv(s) && s.registered < |s.current|
    ensures forall r | r in s.puts :: !s.puts[r].full
    ensures forall r | r in s.deletes :: !s.deletes[r].full
  {
    forall r | r in s.puts ensures !s.puts[r].full { assert PutOk(s, r); }
    forall r | r in s.deletes ensures !s.deletes[r].full { assert DeleteOk(s, r); }
  }

  lemma QuietRegisterInv(s: State)
    requires Inv(s) && s.registered < |s.current|
    ensures Inv(s.(registered := s.registered + 1))
  {
    var t := s.(registered := s.registered + 1);
    NotFull(s);
    NotFullOpenOk(s, t);
    CacheFrame(s, t);
    hide Known, Heard, CacheOk, Find, QueueOk, PutOk, DeleteOk, OpenOk, Has, Unique;
    forall id | 0 <= id < |s.queues|
      ensures QueueOk(t, id)
    {
      KnownFrame(s, t, s.queues[id].revision);
      QueueFrame(s, t, id);
    }
    forall r
      ensures Has(t.queues, r) <==> Heard(t, r)
      ensures Known(s, r) ==> Known(t, r)
    {
      KnownFrame(s, t, r);
      HeardFrame(s, t, r);
      assert Has(s.queues, r) <==> Heard(s, r);
    }
    forall r | r in t.puts
      ensures PutOk(t, r)
    {
      PutFrame(s, t, r);
    }
    forall r | r in t.deletes
      ensures DeleteOk(t, r)
    {
      DeleteFrame(s, t, r);
    }
  }

  lemma NotFullOpenOk(s: State, t: State)
    requires s.registered < |s.current| && t.registered == s.registered + 1
    requires OpenOk(s) && t.open == s.open && t.queues == s.queues && t.ready == s.ready && t.current == s.current
    requires t.puts == s.puts && t.deletes == s.deletes && t.revision == s.revision
    ensures OpenOk(t)
  {
  }

  // The queue of the value's revision takes the value.
  ghost predicate Joined(s: State, t: State) {
    && s.registered < |s.current|
    && var slot, r := s.registered, RevisionAt(s, s.registered);
       && Touched(s, t, slot, r, s.current[slot])
       && t == s.(registered := slot + 1, cache := t.cache, queues := t.queues,
                  ready := s.ready + multiset{QueueFor(s, r)}, bound := s.bound + {r}, puts := t.puts)
       && t.puts == (if TooEarly(s, slot) then s.puts[r := s.puts[r].(joined := true)] else s.puts)
  }

  lemma JoinInv(s: State)
    requires Inv(s) && s.registered < |s.current|
    ensures Inv(JoinQueue(s))
  {
    var t := JoinQueue(s);
    hide Known, Heard, CacheOk, Find, QueueOk, PutOk, DeleteOk, OpenOk, RestOk, HeardOk, Has, Unique, Joined, JoinQueue;
    NotFull(s);
    JoinTouches(s);
    JoinRest(s, t);
    JoinHeardOk(s, t);
    JoinOpenOk(s, t);
    JoinRestOk(s, t);
    forall id | 0 <= id < |t.queues|
      ensures QueueOk(t, id)
    {
      JoinQueueOk(s, t, id);
    }
    forall x | x in t.puts
      ensures PutOk(t, x)
    {
      JoinPutOk(s, t, x);
    }
    forall x | x in t.deletes
      ensures DeleteOk(t, x)
    {
      JoinDeleteOk(s, t, x);
    }
  }

  lemma JoinTouches(s: State)
    requires CacheOk(s) && Unique(s.queues) && s.registered < |s.current|
    ensures Joined(s, JoinQueue(s)) && CacheOk(JoinQueue(s)) && Unique(JoinQueue(s).queues)
  {
    var slot, r := s.registered, RevisionAt(s, s.registered);
    var v, next, t := s.current[slot], s.(registered := slot + 1), JoinQueue(s);
    hide CacheOk, Unique, OnUpdate, Touched, QueueFor;
    CacheFrame(s, next);
    OnUpdateTouches(next, slot, r, v);
    CacheFrame(OnUpdate(next, slot, r, v), t);
    TouchedFrame(next, OnUpdate(next, slot, r, v), s, t, slot, r, v);
  }

  lemma JoinRest(s: State, t: State)
    requires Joined(s, t) && GoroutinesOk(s)
    ensures GoroutinesOk(t) && t.registered == s.registered + 1 && |t.current| == |s.current|
    ensures t.puts.Keys == s.puts.Keys && t.deletes.Keys == s.deletes.Keys
  {
    hide Has, UpdateAt;
  }

  lemma JoinQueueOk(s: State, t: State, id: nat)
    requires Joined(s, t) && id < |t.queues| && forall j | 0 <= j < |s.queues| :: QueueOk(s, j)
    ensures QueueOk(t, id)
  {
    hide Touched, QueueFor;
    assert id < |s.queues| ==> QueueOk(s, id);
    TouchedQueueOk(s, t, s.registered, RevisionAt(s, s.registered), s.current[s.registered], id);
  }

  lemma JoinHeardOk(s: State, t: State)
    requires Joined(s, t) && HeardOk(s)
    ensures HeardOk(t)
  {
    hide Touched, Has, QueueFor;
    forall x
      ensures Has(t.queues, x) <==> Heard(t, x)
    {
      TouchedHas(s, t, s.registered, RevisionAt(s, s.registered), s.current[s.registered], x);
      assert Has(s.queues, x) <==> Heard(s, x);
    }
  }

  // The slot is not one the Put notified.
  lemma JoinPutOk(s: State, t: State, x: int)
    requires Joined(s, t) && HeardOk(s) && OpenOk(s) && x in s.puts && PutOk(s, x) && !s.puts[x].full
    ensures PutOk(t, x)
  {
    hide HoldsCurrent, HoldsOnly, OpenDeleteOk, OpenPutOk, Unresolved, CallsCarry;
    var slot, r := s.registered, RevisionAt(s, s.registered);
    assert Has(s.queues, x) <==> Heard(s, x);
    hide QueueFor, HeardOk, UpdateAt;
    TouchedHas(s, t, slot, r, s.current[slot], x);
    if x != r {
      hide Touched, QueueCarries;
      PutFrame(s, t, x);
    } else {
      var p := s.puts[x];
      if !p.joined && !p.overtaken { TouchedCarries(s, t, slot, r, s.current[slot], p.notified); }
      TouchedResolved(s, t, slot, r, s.current[slot]);
      hide Touched, QueueCarries;
    }
  }

  // A queue there was stays resolved.
  lemma TouchedResolved(s: State, t: State, slot: nat, r: int, v: Reading)
    requires Touched(s, t, slot, r, v)
    ensures Has(s.queues, r) &&
            (forall id | 0 <= id < |s.queues| && s.queues[id].revision == r :: s.queues[id].resolved) ==>
              forall id | 0 <= id < |t.queues| && t.queues[id].revision == r :: t.queues[id].resolved
  {
    hide UpdateAt;
    forall id | 0 <= id < |t.queues| && t.queues[id].revision == r
      ensures id < |s.queues| ==> s.queues[id].revision == r && t.queues[id].resolved == s.queues[id].resolved
    {
    }
  }

  lemma JoinDeleteOk(s: State, t: State, x: int)
    requires Joined(s, t) && x in s.deletes && DeleteOk(s, x) && !s.deletes[x].full
    ensures DeleteOk(t, x)
  {
    hide Has, QueueFor, Touched;
    TouchedDeleteOk(s, t, s.registered, RevisionAt(s, s.registered), s.current[s.registered], x);
  }

  lemma JoinRestOk(s: State, t: State)
    requires Joined(s, t) && RestOk(s)
    ensures RestOk(t)
  {
    var slot := s.registered;
    if s.open.None? && s.live {
      assert s.current == s.current[slot := s.current[slot]];
      TouchedHolds(s, t, slot, s.revision, s.current[slot], {});
    }
  }

  lemma JoinOpenOk(s: State, t: State)
    requires Joined(s, t) && OpenOk(s) && GoroutinesOk(s)
    requires forall r | r in s.puts :: !s.puts[r].full
    requires forall r | r in s.deletes :: !s.deletes[r].full
    ensures OpenOk(t)
  {
    hide QueueFor;
    if s.open.Some? && s.open.value.put {
      if UpdatedAlready(s, s.registered) { LateJoinOk(s, t); } else { EarlyJoinOk(s, t); }
      hide Touched, OpenPutOk;
    }
  }

  // A slot already updated joins the event's own queue.
  lemma LateJoinOk(s: State, t: State)
    requires Joined(s, t) && OpenOk(s) && UpdatedAlready(s, s.registered) && s.open.value.put
    requires forall r | r in s.puts :: !s.puts[r].full
    ensures OpenPutOk(t, t.open.value)
  {
    var o, slot := s.open.value, s.registered;
    assert s.current == s.current[slot := s.current[slot]];
    assert o.updated + {slot} == o.updated;
    TouchedHolds(s, t, slot, o.revision, s.current[slot], o.updated);
    hide Touched, HoldsCurrent, HoldsOnly, QueueFor;
  }

  // A slot yet to be updated joins the queue of the revision before.
  lemma EarlyJoinOk(s: State, t: State)
    requires Joined(s, t) && OpenOk(s) && GoroutinesOk(s) && !UpdatedAlready(s, s.registered) && s.open.Some? &&
             s.open.value.put
    requires forall r | r in s.puts :: !s.puts[r].full
    ensures OpenPutOk(t, t.open.value)
  {
    var o, r := s.open.value, s.revision;
    TouchedHas(s, t, s.registered, r, s.current[s.registered], o.revision);
    SameHolds(s, t, o.revision, o.updated);
    assert QueueFor(s, r) < |s.queues| ==> s.queues[QueueFor(s, r)].revision == r;
    hide Touched, HoldsCurrent, HoldsOnly, Has;
  }

  lemma SameHolds(s: State, t: State, r: int, slots: set<nat>)
    requires SameQueues(s, t, r) && t.current == s.current && HoldsCurrent(s, r) && HoldsOnly(s, r, slots)
    ensures HoldsCurrent(t, r) && HoldsOnly(t, r, slots)
  {
    hide AllCurrent, AllOf;
  }

  // ----- Every run -----

  lemma StepInv(s: State, a: Action)
    requires Inv(s) && Enabled(s, a)
    ensures Inv(Step(s, a))
  {
    hide Inv;
    match a
    case Register =>
      QuietRegisterInv(s);
      JoinInv(s);
    case BeginPut(revision, values, told) => BeginPutInv(s, revision, values, told);
    case BeginDelete(revision, told) => BeginDeleteInv(s, revision, told);
    case Update(slot) =>
      if slot in s.open.value.told && slot < s.registered { NotifyInv(s, slot); } else { SetInv(s, slot); }
    case EndEvent => EndEventInv(s);
    case Resolve(id) => ResolveInv(s, id);
  }

  lemma {:induction false} RunInv(s: State, actions: seq<Action>)
    requires Inv(s)
    ensures Inv(Run(s, actions))
    decreases |actions|
  {
    if actions != [] {
      if Enabled(s, actions[0]) { StepInv(s, actions[0]); }
      hide Inv, Step, Enabled;
      RunInv(if Enabled(s, actions[0]) then Step(s, actions[0]) else s, actions[1..]);
    }
  }

  // What Bind may start from and anything that follows.
  ghost predicate Reachable(s: State) {
    exists current, initialised, revision, live, actions ::
        s == Run(BindTo(current, initialised, revision, live), actions)
  }

  lemma ReachableInv(s: State)
    requires Reachable(s)
    ensures Inv(s)
  {
    var current, initialised, revision, live, actions :|
      s == Run(BindTo(current, initialised, revision, live), actions);
    BindToInv(current, initialised, revision, live);
    RunInv(BindTo(current, initialised, revision, live), actions);
  }

  // What is known of a Put when it begins.
  predicate SamePut(p: PutRecord, q: PutRecord) {
    q.values == p.values && q.told == p.told && q.changed == p.changed && q.full == p.full && q.safe == p.safe
  }

  // What is put on record stays on record.
  ghost predicate Keeps(s: State, t: State, r: int) {
    && (r in s.puts ==> r in t.puts && SamePut(s.puts[r], t.puts[r]))
    && (r in s.deletes ==> r in t.deletes && t.deletes[r] == s.deletes[r].(notified := t.deletes[r].notified))
  }

  lemma StepKeeps(s: State, a: Action, r: int)
    requires Inv(s) && Enabled(s, a)
    ensures Keeps(s, Step(s, a), r)
  {
    match a
    case BeginPut(revision, _, _) =>
      NoneNewer(s, revision);
      hide Inv;
    case BeginDelete(revision, told) =>
      if revision > s.revision { NoneNewer(s, revision); }
      assert revision !in s.deletes;
      hide Inv;
      OvertakeRecords(s, revision);
    case Register =>
      hide Inv;
      JoinKeeps(s, r);
    case Update(slot) =>
      hide Inv;
      NotifyKeeps(s, slot, r);
    case Resolve(id) => ResolveKeeps(s, id, r);
    case EndEvent =>
  }

  lemma JoinKeeps(s: State, r: int)
    requires s.registered < |s.current|
    ensures Keeps(s, JoinQueue(s), r)
  {
    hide OnUpdate;
  }

  lemma NotifyKeeps(s: State, slot: nat, r: int)
    requires s.open.Some? && slot < |s.current|
    ensures Keeps(s, Notify(s, slot), r)
  {
    hide OnUpdate;
  }

  lemma ResolveKeeps(s: State, id: nat, r: int)
    ensures Keeps(s, ResolveQueue(s, id), r)
  {
  }

  lemma OvertakeRecords(s: State, revision: int)
    ensures Overtake(s, revision).Keys == s.puts.Keys
    ensures forall r | r in s.puts ::
            Overtake(s, revision)[r] == s.puts[r].(overtaken := Overtake(s, revision)[r].overtaken)
  {
  }

  lemma {:induction false} RunKeeps(s: State, actions: seq<Action>, r: int)
    requires Inv(s)
    ensures Keeps(s, Run(s, actions), r)
    decreases |actions|
  {
    if actions != [] {
      if Enabled(s, actions[0]) {
        StepInv(s, actions[0]);
        StepKeeps(s, actions[0], r);
      }
      hide Inv, Step, Enabled;
      RunKeeps(if Enabled(s, actions[0]) then Step(s, actions[0]) else s, actions[1..], r);
    }
  }
}

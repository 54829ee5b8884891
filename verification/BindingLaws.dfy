// What a callback bound to a group of values can rely on, and where it cannot.
module BindingLaws {
  import opened Basics
  import opened Messages
  import opened StoreLog
  import opened ReactiveValues
  import opened Reactive
  import opened Binding
  import opened BindingCache
  import opened BindingInvariant
  import opened BindingSteps

  // ----- Calls of a revision -----

  // No goroutine of the revision's queue is left to run, and no event of that revision is handled.
  ghost predicate Quiet(s: State, revision: int) {
    && (forall id | 0 <= id < |s.queues| && s.queues[id].revision == revision :: id !in s.held && id !in s.ready)
    && !(s.open.Some? && s.open.value.revision == revision)
  }

  // A revision never calls back twice. It calls back once exactly if a Put, a deletion or a
  // registration reached it, when its goroutines have run.
  lemma OneCallPerRevision(s: State, r: int)
    requires Reachable(s)
    ensures CallsOf(s.queues, r) <= 1
    ensures Quiet(s, r) ==> CallsOf(s.queues, r) == if Heard(s, r) then 1 else 0
    ensures forall i, j | 0 <= i < j < |s.queues| :: s.queues[i].revision != s.queues[j].revision
  {
    ReachableInv(s);
    CallsCounted(s, r);
    assert Has(s.queues, r) <==> Heard(s, r);
  }

  lemma CallsCounted(s: State, r: int)
    requires Unique(s.queues) && forall id | 0 <= id < |s.queues| :: QueueOk(s, id)
    ensures CallsOf(s.queues, r) <= 1
    ensures Quiet(s, r) ==> CallsOf(s.queues, r) == if Has(s.queues, r) then 1 else 0
  {
    if id :| 0 <= id < |s.queues| && s.queues[id].revision == r {
      CallsOfUnique(s.queues, r, id);
      assert QueueOk(s, id);
    } else {
      CallsOfNone(s.queues, r);
    }
  }

  // ----- What a bound callback can rely on -----

  // Every call of the revision has these values in these slots.
  ghost predicate AllCalls(queues: seq<Queue>, revision: int, slots: set<nat>, values: seq<Reading>) {
    forall id, v | 0 <= id < |queues| && queues[id].revision == revision && v in queues[id].calls ::
      forall i | i in slots :: i < |v| && i < |values| && v[i] == values[i]
  }

  // Handling a Put after Bind has registered its values: once the goroutines have run, and unless
  // the config is deleted, the callback was called once if the Put told a bound value, and not at
  // all otherwise. The call carries the new value of every slot told.
  lemma PutCallsBackOnce(s: State, revision: int, values: seq<Reading>, told: set<nat>, rest: seq<Action>)
    requires Reachable(s) && s.registered == |s.current| && Enabled(s, BeginPut(revision, values, told))
    ensures var t := Run(PutBegun(s, revision, values, told), rest);
            Quiet(t, revision) && revision !in t.deletes ==>
              && CallsOf(t.queues, revision) == (if told != {} then 1 else 0)
              && AllCalls(t.queues, revision, told, values)
  {
    var t := Run(PutBegun(s, revision, values, told), rest);
    ReachableInv(s);
    BeginPutInv(s, revision, values, told);
    hide Enabled, Step, CacheOk, OpenOk, RestOk, QueueOk;
    RunInv(PutBegun(s, revision, values, told), rest);
    RunKeeps(PutBegun(s, revision, values, told), rest, revision);
    CallsCounted(t, revision);
    hide Run, Unique;
    if Quiet(t, revision) && revision !in t.deletes {
      assert PutOk(t, revision) && (Has(t.queues, revision) <==> Heard(t, revision));
      var p := t.puts[revision];
      assert p.told.Keys == told;
      assert told == {} <==> p.told == map[];
    }
  }

  // Whatever was registered meanwhile: what a Put notified is in the call, unless a value joined while
  // one that changes waited for its update, or the config was deleted first.
  lemma NotifiedIsCarried(s: State, r: int, id: nat)
    requires Reachable(s) && r in s.puts && id < |s.queues| && s.queues[id].revision == r
    requires !s.puts[r].joined && !s.puts[r].overtaken
    ensures forall v | v in s.queues[id].calls :: Carries(v, s.puts[r].notified)
  {
    ReachableInv(s);
    assert PutOk(s, r);
  }

  // Handling a deletion after Bind has registered its values. It leads to a call of its own exactly
  // if it told a bound value and its revision had no queue so far. If that queue was there but yet to
  // be resolved, the Put before it and the deletion share one call; if it was resolved, there is none.
  lemma DeletionCallsBack(s: State, revision: int, told: set<nat>, rest: seq<Action>)
    requires Reachable(s) && s.registered == |s.current| && Enabled(s, BeginDelete(revision, told))
    ensures var t, before := Run(DeleteBegun(s, revision, told), rest), CallsOf(s.queues, revision);
            && before <= 1 && (before == 1 ==> Has(s.queues, revision))
            && (Quiet(t, revision) ==>
                  CallsOf(t.queues, revision) - before ==
                    if Has(s.queues, revision) then 1 - before else if told != {} then 1 else 0)
  {
    var t := Run(DeleteBegun(s, revision, told), rest);
    ReachableInv(s);
    BeginDeleteInv(s, revision, told);
    CallsCounted(s, revision);
    hide Enabled, Step, CacheOk, OpenOk, RestOk, QueueOk, Overtake;
    RunInv(DeleteBegun(s, revision, told), rest);
    RunKeeps(DeleteBegun(s, revision, told), rest, revision);
    CallsCounted(t, revision);
    if !Has(s.queues, revision) { CallsOfNone(s.queues, revision); }
    hide Run, Unique, CallsOf;
    if Quiet(t, revision) {
      assert DeleteOk(t, revision) && (Has(t.queues, revision) <==> Heard(t, revision));
      if revision in t.puts { assert PutOk(t, revision); }
    }
  }

  // Resolved before the next event, the queue of a Put calls back with the values of that Put.
  lemma ResolvedInTimeIsSnapshot(
    s: State, revision: int, values: seq<Reading>, told: set<nat>, rest: seq<Action>, id: nat)
    requires Reachable(s) && Enabled(s, BeginPut(revision, values, told))
    ensures var t := Run(PutBegun(s, revision, values, told), rest);
            t.open.None? && t.live && t.revision == revision ==>
              && t.current == values
              && (id < |t.queues| && t.queues[id].revision == revision && !t.queues[id].resolved && id in t.ready ==>
                    ResolveQueue(t, id).queues[id].calls == [values])
  {
    var t := Run(PutBegun(s, revision, values, told), rest);
    ReachableInv(s);
    BeginPutInv(s, revision, values, told);
    hide Enabled, Step, Run, Inv;
    RunInv(PutBegun(s, revision, values, told), rest);
    RunKeeps(PutBegun(s, revision, values, told), rest, revision);
    if t.open.None? && t.live && t.revision == revision {
      RestingValues(t);
      if id < |t.queues| && t.queues[id].revision == revision && !t.queues[id].resolved { RestingCall(t, id); }
    }
  }

  // Between events the values are those of the last Put.
  lemma RestingValues(s: State)
    requires Inv(s) && s.open.None? && s.live && s.revision in s.puts
    ensures s.current == s.puts[s.revision].values
  {
  }

  lemma RestingCall(s: State, id: nat)
    requires Inv(s) && s.open.None? && s.live && id < |s.queues| && s.queues[id].revision == s.revision
    requires !s.queues[id].resolved
    ensures ResolveQueue(s, id).queues[id].calls == [s.current]
  {
    assert QueueOk(s, id) && AllCurrent(s.queues[id].values, s.current);
    FillCurrent(s.queues[id].values, s.current);
  }

  // ----- Registering while a Put is handled -----

  // Every call of the revision carries what its Put notified.
  ghost predicate NotifiedCarried(s: State, revision: int) {
    revision in s.puts && CallsCarry(s, revision, s.puts[revision].notified)
  }

  // In every continuation in which the config is not deleted first, the calls of a Put carry what it
  // notified, exactly if all slots are registered when it begins, or no told slot changes but the
  // only one that is not.
  lemma NotifiedIsCarriedExactly(s: State, revision: int, values: seq<Reading>, told: set<nat>)
    requires Reachable(s) && Enabled(s, BeginPut(revision, values, told))
    ensures Undisturbed(s, Changed(s, values, told)) <==>
              forall rest | revision !in Run(PutBegun(s, revision, values, told), rest).deletes ::
                NotifiedCarried(Run(PutBegun(s, revision, values, told), rest), revision)
  {
    if Undisturbed(s, Changed(s, values, told)) {
      forall rest | revision !in Run(PutBegun(s, revision, values, told), rest).deletes
        ensures NotifiedCarried(Run(PutBegun(s, revision, values, told), rest), revision)
      {
        UndisturbedIsCarried(s, revision, values, told, rest);
      }
    } else {
      var rest := DisturbedIsLost(s, revision, values, told);
      hide Run, PutBegun, NotifiedCarried, Undisturbed, Enabled, Reachable;
    }
  }

  lemma UndisturbedIsCarried(s: State, revision: int, values: seq<Reading>, told: set<nat>, rest: seq<Action>)
    requires Reachable(s) && Enabled(s, BeginPut(revision, values, told))
    requires Undisturbed(s, Changed(s, values, told))
    requires revision !in Run(PutBegun(s, revision, values, told), rest).deletes
    ensures NotifiedCarried(Run(PutBegun(s, revision, values, told), rest), revision)
  {
    var t := Run(PutBegun(s, revision, values, told), rest);
    ReachableInv(s);
    BeginPutInv(s, revision, values, told);
    hide Enabled, Step, CacheOk, OpenOk, RestOk, QueueOk, Run;
    RunInv(PutBegun(s, revision, values, told), rest);
    RunKeeps(PutBegun(s, revision, values, told), rest, revision);
    assert PutOk(t, revision);
  }

  function Registers(n: nat): seq<Action> { seq(n, _ => Register) }

  // A Put is in progress and only slot k is updated. Its queue is yet to be resolved, and a resolver
  // that need not wait has it once slot k is registered.
  ghost predicate Staged(x: State, o: Open, current: seq<Reading>, k: nat) {
    && Reachable(x) && x.open == Some(o) && o.put && o.updated == {k} && o.revision > x.revision
    && x.current == current && x.registered <= |current|
    && (forall id | 0 <= id < |x.queues| && x.queues[id].revision == o.revision :: !x.queues[id].resolved)
    && (x.registered > k ==> HasReady(x, o.revision))
  }

  ghost predicate HasReady(x: State, revision: int) {
    exists id :: 0 <= id < |x.queues| && x.queues[id].revision == revision && id in x.ready
  }

  lemma StagedStep(x: State, o: Open, current: seq<Reading>, k: nat)
    requires Staged(x, o, current, k) && x.registered < |current|
    ensures Staged(RegisterSlot(x), o, current, k) && RegisterSlot(x).registered == x.registered + 1
  {
    var y := RegisterSlot(x);
    StepReachable(x, Register);
    if y == JoinQueue(x) {
      ReachableInv(x);
      JoinTouches(x);
      hide Reachable, CacheOk, Unique, JoinQueue, RegisterSlot, Inv;
      JoinedStays(x, y, o.revision);
    }
  }

  // Registering resolves nothing, and a late slot gives its revision's queue a resolver.
  lemma JoinedStays(x: State, y: State, r: int)
    requires Joined(x, y)
    requires forall id | 0 <= id < |x.queues| && x.queues[id].revision == r :: !x.queues[id].resolved
    ensures forall id | 0 <= id < |y.queues| && y.queues[id].revision == r :: !y.queues[id].resolved
    ensures HasReady(x, r) || RevisionAt(x, x.registered) == r ==> HasReady(y, r)
  {
    hide UpdateAt, Has;
    forall id | 0 <= id < |x.queues|
      ensures y.queues[id].revision == x.queues[id].revision && y.queues[id].resolved == x.queues[id].resolved
    {
    }
    if HasReady(x, r) {
      var id :| 0 <= id < |x.queues| && x.queues[id].revision == r && id in x.ready;
      assert y.queues[id].revision == r && id in y.ready;
    } else if RevisionAt(x, x.registered) == r {
      var id := QueueFor(x, r);
      assert y.queues[id].revision == r && id in y.ready;
    }
  }

  lemma {:induction false} StagedRun(x: State, o: Open, current: seq<Reading>, k: nat, n: nat)
    requires Staged(x, o, current, k) && x.registered + n <= |current|
    ensures Staged(Run(x, Registers(n)), o, current, k) && Run(x, Registers(n)).registered == x.registered + n
    decreases n
  {
    if n > 0 {
      assert Registers(n) == [Register] + Registers(n - 1);
      StagedStep(x, o, current, k);
      Follow(x, Register, Registers(n - 1));
      assert Enabled(x, Register) && Step(x, Register) == RegisterSlot(x);
      hide Staged, Step, RegisterSlot, Registers;
      StagedRun(RegisterSlot(x), o, current, k, n - 1);
    } else {
      assert Registers(0) == [];
    }
  }

  // With an unregistered slot k and another told slot i that changes: k is updated, the slots up to
  // both are registered, the queue is resolved, and only then slot i is updated.
  lemma DisturbedIsLost(s: State, revision: int, values: seq<Reading>, told: set<nat>) returns (rest: seq<Action>)
    requires Reachable(s) && Enabled(s, BeginPut(revision, values, told))
    requires !Undisturbed(s, Changed(s, values, told))
    ensures revision !in Run(PutBegun(s, revision, values, told), rest).deletes
    ensures !NotifiedCarried(Run(PutBegun(s, revision, values, told), rest), revision)
  {
    var begun := PutBegun(s, revision, values, told);
    ReachableInv(s);
    var i :| i in Changed(s, values, told) && !(i == s.registered == |s.current| - 1);
    var k := if i == s.registered then s.registered + 1 else s.registered;
    var n := (if i > k then i else k) + 1 - s.registered;
    var w := Set(begun, k);
    var o := Open(revision, true, values, told, {k});
    FirstStage(s, revision, values, told, k);
    assert w.current[i] == s.current[i] && w.registered == s.registered && |w.current| == |s.current|;
    assert Enabled(begun, Update(k)) && Step(begun, Update(k)) == w;
    hide Staged, Set, Enabled, Step, Reachable, NotifiedCarried, Inv;
    StagedRun(w, o, w.current, k, n);
    var x := Run(w, Registers(n));
    var id := LateUpdateIsLost(x, o, w.current, k, i);
    rest := [Update(k)] + (Registers(n) + [Resolve(id), Update(i)]);
    Follow(begun, Update(k), Registers(n) + [Resolve(id), Update(i)]);
    RunAppend(w, Registers(n), [Resolve(id), Update(i)]);
  }

  lemma FirstStage(s: State, revision: int, values: seq<Reading>, told: set<nat>, k: nat)
    requires Reachable(s) && Enabled(s, BeginPut(revision, values, told)) && s.registered <= k < |s.current|
    ensures var w := Set(PutBegun(s, revision, values, told), k);
            Staged(w, Open(revision, true, values, told, {k}), w.current, k)
  {
    var begun := PutBegun(s, revision, values, told);
    ReachableInv(s);
    NoneNewer(s, revision);
    StepReachable(s, BeginPut(revision, values, told));
    StepReachable(begun, Update(k));
    hide Reachable, Inv, Has;
    assert {} + {k} == {k};
  }

  lemma LateUpdateIsLost(x: State, o: Open, current: seq<Reading>, k: nat, i: nat) returns (id: nat)
    requires Staged(x, o, current, k) && i < x.registered && k < x.registered && i != k
    requires i in o.told && i < |o.values| && current[i] != o.values[i]
    ensures var z := Run(x, [Resolve(id), Update(i)]);
            o.revision !in z.deletes && !NotifiedCarried(z, o.revision)
  {
    id :| 0 <= id < |x.queues| && x.queues[id].revision == o.revision && id in x.ready;
    var y := ResolveQueue(x, id);
    hide Step, Enabled, Notify, Run, Reachable, ResolveQueue, NotifiedCarried, Inv, CacheOk, Unique, Notified;
    ReachableInv(x);
    ResolveThenUpdate(x, id, i);
    TwoSteps(x, Resolve(id), Update(i));
    LostCall(x, y, Notify(y, i), id, k, i);
  }

  lemma ResolveThenUpdate(x: State, id: nat, i: nat)
    requires Inv(x) && id in x.ready && x.open.Some? && i !in x.open.value.updated
    requires i in x.open.value.told && i < x.registered
    ensures Enabled(x, Resolve(id)) && Step(x, Resolve(id)) == ResolveQueue(x, id)
    ensures var y := ResolveQueue(x, id);
            Enabled(y, Update(i)) && Step(y, Update(i)) == Notify(y, i) && Notified(y, Notify(y, i), i)
  {
    hide Inv, CacheOk, Unique, Notify, Notified;
    var y := ResolveQueue(x, id);
    ResolveInv(x, id);
    Cached(x);
    Cached(y);
    NotifyTouches(y, i);
  }

  lemma Cached(s: State)
    requires Inv(s)
    ensures CacheOk(s) && Unique(s.queues) && s.registered <= |s.current|
  {
  }

  lemma TwoSteps(s: State, a: Action, b: Action)
    requires Enabled(s, a) && Enabled(Step(s, a), b)
    ensures Run(s, [a, b]) == Step(Step(s, a), b)
  {
    hide Step, Enabled;
    Follow(s, a, [b]);
    Follow(Step(s, a), b, []);
    assert [a, b] == [a] + [b] && [b] == [b] + [];
  }

  lemma LostCall(x: State, y: State, z: State, id: nat, k: nat, i: nat)
    requires Inv(x) && id < |x.queues| && !x.queues[id].resolved && y == ResolveQueue(x, id) && Notified(y, z, i)
    requires x.open.Some? && x.open.value.put && x.open.value.updated == {k} && i != k
    requires x.queues[id].revision == x.open.value.revision
    requires i < |x.open.value.values| && x.current[i] != x.open.value.values[i]
    ensures x.open.value.revision !in z.deletes && !NotifiedCarried(z, x.open.value.revision)
  {
    var r := x.open.value.revision;
    assert QueueOk(x, id) && OpenPutOk(x, x.open.value) && AllOf(x.queues[id].values, {k});
    var call := Fill(x.queues[id].values, x.current);
    assert x.queues[id].values[i].None? && call[i] == x.current[i];
    assert y.queues[id].calls == [call];
    assert z.queues[id].revision == r && z.queues[id].calls == [call];
    assert z.puts[r].notified[i] == x.open.value.values[i];
    assert !Carries(call, z.puts[r].notified);
    assert call in z.queues[id].calls;
  }

  // ----- Where a change goes unheard -----

  lemma Follow(s: State, a: Action, rest: seq<Action>)
    requires Enabled(s, a)
    ensures Run(s, [a] + rest) == Run(Step(s, a), rest)
  {
    assert ([a] + rest)[0] == a && ([a] + rest)[1..] == rest;
  }

  lemma {:induction false} ReachableRun(s: State, actions: seq<Action>)
    requires Reachable(s)
    ensures Reachable(Run(s, actions))
  {
    var current, initialised, revision, live, before :| s == Run(BindTo(current, initialised, revision, live), before);
    RunAppend(BindTo(current, initialised, revision, live), before, actions);
  }

  lemma {:induction false} RunAppend(s: State, first: seq<Action>, rest: seq<Action>)
    ensures Run(s, first + rest) == Run(Run(s, first), rest)
    decreases |first|
  {
    hide Step, Enabled;
    if first == [] {
      assert first + rest == rest;
    } else {
      assert (first + rest)[0] == first[0] && (first + rest)[1..] == first[1..] + rest;
      RunAppend(if Enabled(s, first[0]) then Step(s, first[0]) else s, first[1..], rest);
    }
  }

  lemma StepReachable(s: State, a: Action)
    requires Reachable(s) && Enabled(s, a)
    ensures Reachable(Step(s, a))
  {
    ReachableRun(s, [a]);
    Follow(s, a, []);
    assert [a] + [] == [a];
    hide Step, Enabled, Reachable;
  }

  function AfterTold(v: Reading): PutRecord {
    PutRecord([v], map[0 := v], {0}, map[0 := v], true, true, false, false)
  }

  // One bound value is told v by the first Put.
  function Told(v: Reading): State {
    State([v], false, 1, 0, false, Some(Open(1, true, [v], {0}, {0})), [(1, 0)], [Queue(1, [v], false, [])],
          multiset{0}, multiset{}, map[1 := AfterTold(v)], map[], {})
  }

  lemma ToldIsReached(v: Reading)
    requires v.Some?
    ensures Reachable(Told(v))
  {
    var s0 := BindTo([None], false, 0, false);
    assert Run(s0, []) == s0 && Reachable(s0);
    var s1 := s0.(registered := 1);
    assert Step(s0, Register) == s1;
    StepReachable(s0, Register);
    var s2 := PutBegun(s1, 1, [v], {0});
    StepReachable(s1, BeginPut(1, [v], {0}));
    StepReachable(s2, Update(0));
    hide Reachable, Step, Enabled, Run;
    FirstNotify(s2, v);
  }

  lemma FirstNotify(s: State, v: Reading)
    requires v.Some? && s == PutBegun(BindTo([None], false, 0, false).(registered := 1), 1, [v], {0})
    ensures Notify(s, 0) == Told(v) == UpdateSlot(s, 0)
  {
    var t := Notify(s, 0);
    assert s.puts[1].told == map[0 := v];
    assert Blank(1)[0 := v] == [v];
    assert t.queues == Told(v).queues && t.cache == [(1, 0)];
    assert t.puts[1].notified == map[0 := v];
    assert s.puts[1].changed == {0};
    assert t.puts == Told(v).puts && t.held == multiset{0} && t.current == [v];
    assert t.open.value.updated == {0} && t.open.value.values == [v];
  }

  // Its queue is resolved.
  function Called(v: Reading): State {
    State([v], true, 1, 1, true, None, [(1, 0)], [Queue(1, [v], true, [[v]])],
          multiset{}, multiset{}, map[1 := AfterTold(v)], map[], {})
  }

  lemma CalledIsReached(v: Reading)
    requires v.Some?
    ensures Reachable(Called(v))
  {
    ToldIsReached(v);
    var s4 := EventEnded(Told(v));
    assert s4.ready == multiset{0};
    StepReachable(Told(v), EndEvent);
    StepReachable(s4, Resolve(0));
    hide Reachable, Step, Enabled, Run;
    var s5 := ResolveQueue(s4, 0);
    assert Fill([v], [v]) == [v];
    assert s5.queues[0].calls == [[v]];
    assert s5.queues == Called(v).queues;
    assert s5.ready == multiset{};
    assert s5 == Called(v);
  }

  // The callback was called with v, and the config is deleted: whatever follows, that revision calls
  // back no more, though the bound value is told.
  lemma DeletionMayBeSilent(v: Reading, rest: seq<Action>)
    requires v.Some?
    ensures Reachable(Called(v)) && Enabled(Called(v), BeginDelete(1, {0}))
    ensures CallsOf(Called(v).queues, 1) == 1
    ensures var t := Run(DeleteBegun(Called(v), 1, {0}), rest);
            Quiet(t, 1) ==> CallsOf(t.queues, 1) == 1
  {
    CalledIsReached(v);
    assert Called(v).queues[0].revision == 1;
    CallsOfUnique(Called(v).queues, 1, 0);
    hide CallsOf, Run;
    DeletionCallsBack(Called(v), 1, {0}, rest);
  }

  // Two values are bound while the first Put is handled: the first was updated already and joins,
  // the second is yet to be.
  function Joining(a: Reading, b: Reading): State {
    var record := PutRecord([a, b], map[0 := a, 1 := b], {0, 1}, map[], false, false, true, false);
    State([a, None], false, 2, 0, false, Some(Open(1, true, [a, b], {0, 1}, {0})), [(1, 0)],
          [Queue(1, [a, None], false, [])], multiset{}, multiset{0}, map[1 := record], map[], {1})
  }

  lemma JoiningIsReached(a: Reading, b: Reading)
    requires a.Some? && b.Some?
    ensures Reachable(Joining(a, b))
  {
    var s0 := BindTo([None, None], false, 0, false);
    assert Run(s0, []) == s0 && Reachable(s0);
    var s1 := PutBegun(s0, 1, [a, b], {0, 1});
    StepReachable(s0, BeginPut(1, [a, b], {0, 1}));
    var s2 := Set(s1, 0);
    StepReachable(s1, Update(0));
    var s3 := JoinQueue(s2);
    StepReachable(s2, Register);
    hide Reachable, Run;
    FirstJoin(s2, a, b);
    StepReachable(s3, Register);
  }

  lemma FirstJoin(s: State, a: Reading, b: Reading)
    requires a.Some? && b.Some? && s == Set(PutBegun(BindTo([None, None], false, 0, false), 1, [a, b], {0, 1}), 0)
    ensures JoinQueue(s) == Joining(a, b).(registered := 1)
  {
    var t := JoinQueue(s);
    assert s.puts[1].told == map[0 := a, 1 := b];
    assert s.current == [a, None];
    assert Blank(2)[0 := a] == [a, None];
    assert t.queues == Joining(a, b).queues && t.cache == [(1, 0)];
    assert s.puts[1].changed == {0, 1} && s.open.value.updated == {0} && 1 !in s.open.value.updated;
    assert !s.puts[1].safe;
    assert t.ready == multiset{0} && t.puts == Joining(a, b).puts && t.bound == {1};
    assert t.open.value.updated == {0};
  }

  // The joining goroutine runs before the second value is updated: the callback gets the old second
  // value, and whatever follows that Put calls back no more.
  lemma JoiningMayLoseAnUpdate(a: Reading, b: Reading, rest: seq<Action>)
    requires a.Some? && b.Some?
    ensures Reachable(Joining(a, b)) && Enabled(Joining(a, b), Resolve(0))
    ensures var s := ResolveQueue(Joining(a, b), 0);
            && s.queues == [Queue(1, [a, None], true, [[a, None]])]
            && CallsOf(Run(s, rest).queues, 1) <= 1
  {
    JoiningIsReached(a, b);
    var s := ResolveQueue(Joining(a, b), 0);
    assert Fill([a, None], [a, None]) == [a, None];
    assert s.queues[0].calls == [[a, None]];
    StepReachable(Joining(a, b), Resolve(0));
    ReachableRun(s, rest);
    hide Run, Reachable;
    OneCallPerRevision(Run(s, rest), 1);
  }

  // ----- Values of a controller -----

  // What the event makes of the values at some paths.
  function ReadingsOf(ev: Event<Message>, d: Desc, paths: seq<Path>): seq<Reading> {
    seq(|paths|, i requires 0 <= i < |paths| => ReadingAt(RootReading(After(ev)), MessageKind(d), paths[i]))
  }

  // The slots whose watchers the controller tells of it.
  function ToldBy(ev: Event<Message>, started: bool, paths: seq<Path>): set<nat> {
    set i | 0 <= i < |paths| && Tells(ev, started, paths[i])
  }

  ghost predicate Bindable(d: Desc, paths: seq<Path>) {
    WellFormed(d) && !d.timed && forall i | 0 <= i < |paths| :: Declared(d, paths[i])
  }

  lemma {:induction false} ReadingIsThere(r: Reading, kind: Kind, path: Path)
    requires r.Some? && (path == [] || (kind.MessageKind? && Declared(kind.desc, path)))
    ensures ReadingAt(r, kind, path).Some?
    decreases |path|
  {
    if path != [] {
      assert |path| > 1 ==> kind.desc.kinds[path[0]].MessageKind? && Declared(kind.desc.kinds[path[0]].desc, path[1..]);
      ReadingIsThere(Child(r, path[0], kind.desc.kinds[path[0]]), kind.desc.kinds[path[0]], path[1..]);
    }
  }

  // An event of the store may begin once the last one ended.
  lemma PutMayBegin(s: State, ev: Event<Message>, d: Desc, paths: seq<Path>)
    requires Bindable(d, paths) && |paths| == |s.current| && ev.PutEvent?
    requires s.open.None? && RevisionOf(ev) > s.revision
    ensures Enabled(s, BeginPut(RevisionOf(ev), ReadingsOf(ev, d, paths), ToldBy(ev, s.initialised, paths)))
  {
    forall i | 0 <= i < |paths|
      ensures ReadingAt(RootReading(After(ev)), MessageKind(d), paths[i]).Some?
    {
      ReadingIsThere(RootReading(After(ev)), MessageKind(d), paths[i]);
    }
  }

  // A callback bound to fields of a controller's config, all registered: once the goroutines have run
  // and unless the config is deleted, a Put called back once if it changed a bound field, or was the
  // first event, and not at all otherwise. The call carries the new reading of every such field.
  lemma ChangedFieldCallsBackOnce(s: State, ev: Event<Message>, d: Desc, paths: seq<Path>, rest: seq<Action>)
    requires Reachable(s) && s.registered == |s.current| == |paths| && Bindable(d, paths)
    requires ev.PutEvent? && s.open.None? && RevisionOf(ev) > s.revision
    ensures var r := RevisionOf(ev);
            var t := Run(PutBegun(s, r, ReadingsOf(ev, d, paths), ToldBy(ev, s.initialised, paths)), rest);
            Quiet(t, r) && r !in t.deletes ==>
              && CallsOf(t.queues, r) ==
                   (if exists i :: 0 <= i < |paths| && Tells(ev, s.initialised, paths[i]) then 1 else 0)
              && AllCalls(t.queues, r, ToldBy(ev, s.initialised, paths), ReadingsOf(ev, d, paths))
  {
    var r, values, told := RevisionOf(ev), ReadingsOf(ev, d, paths), ToldBy(ev, s.initialised, paths);
    PutMayBegin(s, ev, d, paths);
    hide Enabled, Run, Reachable, Quiet, CallsOf, Tells, AllCalls;
    PutCallsBackOnce(s, r, values, told, rest);
    if i :| 0 <= i < |paths| && Tells(ev, s.initialised, paths[i]) { assert i in told; }
  }

  // Deleting the config calls back on its own exactly if a bound field goes with it, or it is the first
  // event, and nothing was heard of that revision so far.
  lemma DeletedFieldCallsBack(s: State, ev: Event<Message>, paths: seq<Path>, rest: seq<Action>)
    requires Reachable(s) && s.registered == |s.current| == |paths| && s.open.None?
    requires ev.DeleteEvent? && ev.previous.Some?
    requires if s.initialised then s.live && RevisionOf(ev) == s.revision else RevisionOf(ev) > s.revision
    ensures var r := RevisionOf(ev);
            var before := CallsOf(s.queues, r);
            var t := Run(DeleteBegun(s, r, ToldBy(ev, s.initialised, paths)), rest);
            Quiet(t, r) ==>
              CallsOf(t.queues, r) - before ==
                if Has(s.queues, r) then 1 - before
                else if exists i :: 0 <= i < |paths| && Tells(ev, s.initialised, paths[i]) then 1 else 0
  {
    var r, told := RevisionOf(ev), ToldBy(ev, s.initialised, paths);
    assert Enabled(s, BeginDelete(r, told));
    hide Enabled, Run, Reachable, Quiet, CallsOf, Tells;
    DeletionCallsBack(s, r, told, rest);
    if i :| 0 <= i < |paths| && Tells(ev, s.initialised, paths[i]) { assert i in told; }
  }
}

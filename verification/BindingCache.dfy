// The bounded cache of queues in Binding finds the queue of every revision in use.
module BindingCache {
  import opened Basics
  import opened ReactiveValues
  import opened Binding

  predicate InUse(s: State, revision: int) {
    revision == s.revision || (s.open.Some? && revision == s.open.value.revision)
  }

  // The revision is cached among the newest k entries, if at all.
  predicate Recent(cache: seq<(int, nat)>, revision: int, k: nat) {
    forall i | 0 <= i < |cache| - k :: cache[i].0 != revision
  }

  // At most two queues are made after that of a revision still in use.
  ghost predicate RecentOk(s: State) {
    if s.open.None? || s.open.value.revision == s.revision then Recent(s.cache, s.revision, 2)
    else
      var next := s.open.value.revision;
      && Recent(s.cache, next, 2) && Recent(s.cache, s.revision, 3)
      && (Find(s.cache, next).None? ==> Recent(s.cache, s.revision, 2))
      && (Find(s.cache, s.revision).None? ==> Recent(s.cache, next, 1))
  }

  ghost predicate CacheOk(s: State) {
    && |s.cache| <= CACHE_CAPACITY
    && (forall e | e in s.cache :: e.1 < |s.queues| && s.queues[e.1].revision == e.0)
    && (forall id | 0 <= id < |s.queues| && InUse(s, s.queues[id].revision) ::
         Find(s.cache, s.queues[id].revision) == Some(id))
    && RecentOk(s)
  }

  ghost predicate Unique(queues: seq<Queue>) {
    forall i, j | 0 <= i < j < |queues| :: queues[i].revision != queues[j].revision
  }

  lemma {:induction false} FindAppended(cache: seq<(int, nat)>, revision: int, id: nat, r: int)
    ensures Find(cache + [(revision, id)], r) ==
              if Find(cache, r).Some? then Find(cache, r) else if r == revision then Some(id) else None
    decreases |cache|
  {
    var more := cache + [(revision, id)];
    if cache == [] {
      assert more == [(revision, id)];
      assert Find(more[1..], r).None?;
    } else {
      assert more[0] == cache[0] && more[1..] == cache[1..] + [(revision, id)];
      FindAppended(cache[1..], revision, id, r);
    }
  }

  // A revision among the newest entries is not evicted.
  lemma RememberFinds(cache: seq<(int, nat)>, revision: int, id: nat, r: int)
    requires |cache| <= CACHE_CAPACITY && Find(cache, revision).None? && Recent(cache, r, 3)
    ensures Find(Remember(cache, revision, id), r) == if r == revision then Some(id) else Find(cache, r)
  {
    var more := cache + [(revision, id)];
    FindAppended(cache, revision, id, r);
    if |more| > CACHE_CAPACITY { assert more[0] == cache[0]; }
  }

  lemma RememberRecent(cache: seq<(int, nat)>, revision: int, id: nat, r: int, k: nat)
    requires Recent(cache, r, k)
    ensures r != revision ==> Recent(Remember(cache, revision, id), r, k + 1)
    ensures Find(cache, revision).None? ==> Recent(Remember(cache, revision, id), revision, 1)
  {
    var more := cache + [(revision, id)];
    assert forall i | 0 <= i < |cache| :: more[i] == cache[i] && cache[i] in cache;
  }

  // What an update does to the queues: that of its revision takes the value, or one is made.
  ghost predicate Touched(s: State, t: State, slot: nat, revision: int, v: Reading) {
    var id := QueueFor(s, revision);
    if id < |s.queues| then
      && s.queues[id].revision == revision
      && t.queues == s.queues[id := s.queues[id].(values := UpdateAt(s.queues[id].values, slot, v))]
    else
      && id == |s.queues| && !Has(s.queues, revision)
      && t.queues == s.queues + [Queue(revision, UpdateAt(Blank(|s.current|), slot, v), false, [])]
  }

  lemma OnUpdateTouches(s: State, slot: nat, revision: int, v: Reading)
    requires CacheOk(s) && Unique(s.queues) && InUse(s, revision)
    ensures Touched(s, OnUpdate(s, slot, revision, v), slot, revision, v)
    ensures CacheOk(OnUpdate(s, slot, revision, v)) && Unique(OnUpdate(s, slot, revision, v).queues)
  {
    var found, id, t := Find(s.cache, revision), QueueFor(s, revision), OnUpdate(s, slot, revision, v);
    if found.Some? {
      assert (revision, id) in s.cache;
    } else {
      assert forall j | 0 <= j < |s.queues| :: s.queues[j].revision != revision;
      MadeIsCached(s, t, revision, id);
      hide Find, Remember;
    }
  }

  lemma MadeIsCached(s: State, t: State, revision: int, id: nat)
    requires CacheOk(s) && InUse(s, revision) && Find(s.cache, revision).None? && id == |s.queues|
    requires t.revision == s.revision && t.open == s.open && t.cache == Remember(s.cache, revision, id)
    requires |t.queues| == id + 1 && t.queues[id].revision == revision
    requires forall j | 0 <= j < id :: t.queues[j] == s.queues[j]
    ensures CacheOk(t)
  {
    hide Remember, Find;
    RememberFinds(s.cache, revision, id, s.revision);
    RememberRecent(s.cache, revision, id, s.revision, if Recent(s.cache, s.revision, 2) then 2 else 3);
    if s.open.Some? {
      var next := s.open.value.revision;
      RememberFinds(s.cache, revision, id, next);
      RememberRecent(s.cache, revision, id, next, if Recent(s.cache, next, 1) then 1 else 2);
    }
    RememberKeeps(s.cache, revision, id);
    hide Recent;
  }

  lemma RememberKeeps(cache: seq<(int, nat)>, revision: int, id: nat)
    requires |cache| <= CACHE_CAPACITY
    ensures |Remember(cache, revision, id)| <= CACHE_CAPACITY
    ensures forall e | e in Remember(cache, revision, id) :: e in cache || e == (revision, id)
  {
  }
}

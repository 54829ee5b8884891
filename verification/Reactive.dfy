// reactive/controller.go: the index of observable values that mirrors the active config.
//
// The trie is modelled by its nodes, keyed by path; the children of a node are those one
// declared field longer. The descriptor is finite, as every non-recursive message type is.
module Reactive {
  import opened Basics
  import opened Messages
  import opened Diffing
  import opened StoreLog
  import opened ReactiveValues
  import opened ValueStores

  // ----- What a node reads -----

  function ZeroOf(kind: Kind): Field {
    match kind
    case LeafKind(zero) => zero
    case MessageKind(d) => Sub(EmptyMessage(d.timed))
  }

  // Reading a field of a deleted config gives nothing, of an unpopulated message the zero value.
  function Child(r: Reading, k: string, kind: Kind): Reading {
    if r.None? then None
    else if r.value.Sub? && k in r.value.msg.fields then Some(r.value.msg.fields[k])
    else Some(ZeroOf(kind))
  }

  function ReadingAt(r: Reading, kind: Kind, path: Path): Reading
    decreases |path|
  {
    if path == [] then r
    else if kind.MessageKind? && path[0] in kind.desc.kinds
    then ReadingAt(Child(r, path[0], kind.desc.kinds[path[0]]), kind.desc.kinds[path[0]], path[1..])
    else None
  }

  function RootReading(config: Option<Message>): Reading {
    if config.Some? then Some(Sub(config.value)) else None
  }

  function OrEmpty(config: Option<Message>): Message {
    if config.Some? then config.value else EmptyMessage(false)
  }

  // The kind of a node: of the whole config at the empty path.
  function NodeKind(d: Desc, path: Path): Kind {
    if path == [] then MessageKind(d)
    else if KindAt(d, path).Some? then KindAt(d, path).value else MessageKind(d)
  }

  // Seen through the zero values, a node reads its field of the config, or of the empty one
  // once the config is deleted.
  lemma {:induction false} ReadingIsField(r: Reading, d: Desc, path: Path)
    requires WellFormed(d) && Declared(d, path)
    requires r.Some? ==> r.value.Sub? && Conforms(r.value.msg, d)
    ensures Observed(ReadingAt(r, MessageKind(d), path), ZeroOf(KindAt(d, path).value)) ==
              var m := if r.Some? then r.value.msg else EmptyMessage(d.timed);
              if FieldAt(m, path).Some? then FieldAt(m, path).value else ZeroOf(KindAt(d, path).value)
    decreases |path|
  {
    var k := path[0];
    var kind := d.kinds[k];
    var next := Child(r, k, kind);
    if r.Some? && k in r.value.msg.fields { assert FieldConforms(r.value.msg.fields[k], kind); }
    if |path| > 1 {
      ReadingIsField(next, kind.desc, path[1..]);
    } else {
      assert ReadingAt(next, kind, path[1..]) == next;
    }
  }

  // A declared path at which two configs agree reads the same through the zero values.
  lemma SameFieldSameReading(a: Option<Message>, b: Option<Message>, d: Desc, path: Path)
    requires WellFormed(d) && !d.timed && Declared(d, path)
    requires Conforms(OrEmpty(a), d) && Conforms(OrEmpty(b), d)
    requires FieldAt(OrEmpty(a), path) == FieldAt(OrEmpty(b), path)
    ensures var zero := ZeroOf(KindAt(d, path).value);
            Observed(ReadingAt(RootReading(a), MessageKind(d), path), zero) ==
                Observed(ReadingAt(RootReading(b), MessageKind(d), path), zero)
  {
    ReadingIsField(RootReading(a), d, path);
    ReadingIsField(RootReading(b), d, path);
  }

  // ----- Paths of nodes -----

  lemma {:induction false} ChildDeclared(d: Desc, path: Path, k: string)
    requires NodeKind(d, path).MessageKind? && (path == [] || Declared(d, path))
    ensures var sd := NodeKind(d, path).desc;
            && (Declared(d, path + [k]) <==> k in sd.kinds)
            && (k in sd.kinds ==> KindAt(d, path + [k]) == Some(sd.kinds[k]) && NodeKind(d, path + [k]) == sd.kinds[k])
    decreases |path|
  {
    if path == [] {
      assert (path + [k])[0] == k;
    } else {
      assert (path + [k])[0] == path[0] && (path + [k])[1..] == path[1..] + [k];
      if |path| == 1 {
        assert KindAt(d.kinds[path[0]].desc, [k]) == if k in d.kinds[path[0]].desc.kinds
            then Some(d.kinds[path[0]].desc.kinds[k]) else None;
      } else {
        ChildDeclared(d.kinds[path[0]].desc, path[1..], k);
      }
    }
  }

  // A declared path below a node goes through one of its children; leaves have none.
  lemma {:induction false} BelowNode(d: Desc, path: Path, p: Path)
    requires (path == [] || Declared(d, path)) && Declared(d, p) && path < p
    ensures NodeKind(d, path).MessageKind? && p[|path|] in NodeKind(d, path).desc.kinds
    decreases |path|
  {
    if path != [] {
      assert p[0] == path[0];
      if |path| == 1 {
        assert KindAt(d.kinds[path[0]].desc, p[1..]).Some?;
      } else {
        assert path[1..] < p[1..];
        BelowNode(d.kinds[path[0]].desc, path[1..], p[1..]);
      }
    }
  }

  lemma {:induction false} NodeWellFormed(d: Desc, path: Path)
    requires WellFormed(d) && (path == [] || Declared(d, path)) && NodeKind(d, path).MessageKind?
    ensures var sd := NodeKind(d, path).desc;
            && WellFormed(sd) && NoDuplicates(sd.names)
            && (forall k :: k in sd.names <==> k in sd.kinds)
            && (forall i | 0 <= i < |sd.names| :: sd.names[i] in sd.kinds && sd.names[i] !in sd.names[..i])
    decreases |path|
  {
    if |path| > 1 { NodeWellFormed(d.kinds[path[0]].desc, path[1..]); }
  }

  type Nodes = map<Path, ReactiveValue>

  // Every declared path, and the whole config, has a node of its own.
  ghost predicate Complete(nodes: Nodes, d: Desc) {
    && (forall p :: p in nodes <==> p == [] || Declared(d, p))
    && Distinct(nodes)
  }

  ghost predicate Distinct(nodes: Nodes) {
    forall p, q | p in nodes && q in nodes && p != q :: nodes[p] != nodes[q]
  }

  ghost predicate Untouched(v: ReactiveValue)
    reads v
  {
    v.pendingInit && v.watchChannels == map[] && v.watchFuncs == map[]
  }

  // The paths at and below a node.
  ghost predicate AtAndBelow(d: Desc, path: Path, have: set<Path>) {
    forall p :: p in have <==> path <= p && (p == path || Declared(d, p))
  }

  // The paths at a node and through the children in done.
  ghost predicate Reached(d: Desc, path: Path, done: seq<string>, have: set<Path>) {
    forall p :: p in have <==> p == path || (path < p && Declared(d, p) && p[|path|] in done)
  }

  // Creates the nodes at and below a path.
  method BuildNode(ghost d: Desc, path: Path, kind: Kind) returns (nodes: Nodes)
    requires WellFormed(d) && (path == [] || Declared(d, path)) && kind == NodeKind(d, path)
    ensures AtAndBelow(d, path, nodes.Keys)
    ensures Distinct(nodes)
    ensures forall p | p in nodes :: fresh(nodes[p]) && Untouched(nodes[p])
    decreases kind, 1
  {
    hide WellFormed, Declared, NodeKind, KindAt, AtAndBelow, Reached, Distinct;
    var v := new ReactiveValue();
    nodes := map[path := v];
    OneNode(path, v);
    if kind.LeafKind? {
      LeafReached(d, path, nodes.Keys);
      return;
    }
    NodeWellFormed(d, path);
    NoneReached(d, path, nodes.Keys);
    for i := 0 to |kind.desc.names|
      invariant Reached(d, path, kind.desc.names[..i], nodes.Keys)
      invariant Distinct(nodes)
      invariant forall p | p in nodes :: fresh(nodes[p]) && Untouched(nodes[p])
    {
      assert kind.desc.names[..i + 1] == kind.desc.names[..i] + [kind.desc.names[i]];
      nodes := BuildChild(d, path, kind, kind.desc.names[i], nodes, kind.desc.names[..i]);
    }
    assert kind.desc.names[..|kind.desc.names|] == kind.desc.names;
    AllReached(d, path, nodes.Keys);
  }

  // Adds the nodes at and below a child.
  method BuildChild(ghost d: Desc, path: Path, kind: Kind, field: string, nodes: Nodes, ghost done: seq<string>)
    returns (all: Nodes)
    requires WellFormed(d) && (path == [] || Declared(d, path)) && kind == NodeKind(d, path)
    requires kind.MessageKind? && field in kind.desc.kinds && field !in done
    requires Reached(d, path, done, nodes.Keys) && Distinct(nodes)
    ensures Reached(d, path, done + [field], all.Keys) && Distinct(all)
    ensures forall p | p in all :: if p in nodes then all[p] == nodes[p] else fresh(all[p]) && Untouched(all[p])
    decreases kind, 0
  {
    hide WellFormed, Declared, NodeKind, KindAt, AtAndBelow, Reached, Distinct;
    ChildDeclared(d, path, field);
    var sub := BuildNode(d, path + [field], kind.desc.kinds[field]);
    AddChild(d, path, done, field, nodes.Keys, sub.Keys);
    JoinDistinct(nodes, sub);
    all := nodes + sub;
  }

  lemma OneNode(path: Path, v: ReactiveValue)
    ensures Distinct(map[path := v])
  {
  }

  lemma JoinDistinct(a: Nodes, b: Nodes)
    requires Distinct(a) && Distinct(b) && a.Values !! b.Values
    ensures Distinct(a + b)
  {
    assert forall p | p in a :: a[p] in a.Values;
    assert forall p | p in b :: b[p] in b.Values;
  }

  lemma LeafReached(d: Desc, path: Path, have: set<Path>)
    requires (path == [] || Declared(d, path)) && NodeKind(d, path).LeafKind? && have == {path}
    ensures AtAndBelow(d, path, have)
  {
    forall p
      ensures p in have <==> path <= p && (p == path || Declared(d, p))
    {
      if path < p && Declared(d, p) { BelowNode(d, path, p); }
    }
  }

  lemma NoneReached(d: Desc, path: Path, have: set<Path>)
    requires have == {path}
    ensures Reached(d, path, [], have)
  {
  }

  lemma AllReached(d: Desc, path: Path, have: set<Path>)
    requires WellFormed(d) && (path == [] || Declared(d, path)) && NodeKind(d, path).MessageKind?
    requires Reached(d, path, NodeKind(d, path).desc.names, have)
    ensures AtAndBelow(d, path, have)
  {
    NodeWellFormed(d, path);
    forall p | path < p && Declared(d, p)
      ensures p in have
    {
      BelowNode(d, path, p);
    }
  }

  lemma AddChild(d: Desc, path: Path, done: seq<string>, k: string, have: set<Path>, more: set<Path>)
    requires Declared(d, path + [k]) && k !in done
    requires Reached(d, path, done, have) && AtAndBelow(d, path + [k], more)
    ensures Reached(d, path, done + [k], have + more) && have !! more
  {
  }

  lemma ChildOf(path: Path, k: string, p: Path)
    ensures path + [k] <= p <==> path < p && p[|path|] == k
  {
  }

  // The node of a path is told of an update when the path is listed; the root always is.
  predicate Listed(path: Path, paths: set<string>) { path == [] || Join(path) in paths }

  class Controller {
    const desc: Desc
    const nodes: Nodes
    var currentRev: int
    // The config the nodes mirror, and whether an event was handled yet.
    ghost var config: Option<Message>
    ghost var started: bool

    function ZeroAt(path: Path): Field { ZeroOf(NodeKind(desc, path)) }

    // What the node of a path should hold.
    function Mirror(r: Reading, path: Path): Reading { ReadingAt(r, MessageKind(desc), path) }

    ghost predicate Valid()
      reads this, set p | p in nodes :: nodes[p]
    {
      && WellFormed(desc) && !desc.timed && Complete(nodes, desc)
      && Conforms(OrEmpty(config), desc)
      && (!started ==> forall p | p in nodes :: nodes[p].pendingInit && nodes[p].Coherent(ZeroAt(p)))
      && (started ==> forall p | p in nodes :: Updated(p, Mirror(RootReading(config), p), currentRev))
    }

    constructor (desc: Desc)
      requires WellFormed(desc) && !desc.timed
      ensures Valid() && !started && config.None? && this.desc == desc
      ensures forall p | p in nodes :: fresh(nodes[p])
    {
      this.desc := desc;
      var built := BuildNode(desc, [], MessageKind(desc));
      nodes := built;
      currentRev, config, started := 0, None, false;
    }

    ghost predicate Ready(p: Path, r: Reading, paths: set<string>)
      requires p in nodes
      reads nodes[p]
    {
      && nodes[p].Coherent(ZeroAt(p))
      && (Listed(p, paths) || nodes[p].pendingInit || Observed(r, ZeroAt(p)) == Observed(nodes[p].value, ZeroAt(p)))
    }

    ghost predicate Updated(p: Path, r: Reading, rev: int)
      requires p in nodes
      reads nodes[p]
    {
      nodes[p].Coherent(ZeroAt(p)) && !nodes[p].pendingInit && nodes[p].value == r && nodes[p].rev == rev
    }

    // The node has the watchers it had. If told each has heard, once more, of the node's revision and
    // value; otherwise of nothing more.
    twostate predicate Heard(p: Path, told: bool)
      requires p in nodes
      reads nodes[p]
    {
      && nodes[p].watchChannels.Keys == old(nodes[p].watchChannels.Keys)
      && nodes[p].watchFuncs.Keys == old(nodes[p].watchFuncs.Keys)
      && (forall k | k in nodes[p].watchChannels ::
            nodes[p].watchChannels[k] == old(nodes[p].watchChannels)[k] + if told then [nodes[p].value] else [])
      && (forall k | k in nodes[p].watchFuncs ::
            nodes[p].watchFuncs[k] ==
              old(nodes[p].watchFuncs)[k] + if told then [Call(nodes[p].rev, nodes[p].value)] else [])
    }

    // Watchers are told exactly if the node is listed or was not initialised.
    twostate predicate Told(p: Path, paths: set<string>)
      requires p in nodes
      reads nodes[p]
    {
      Heard(p, Listed(p, paths) || old(nodes[p].pendingInit))
    }

    // Watchers are told exactly if the event changed the node's field, or is the first; those of the
    // whole config always are.
    twostate predicate Notified(ev: Event<Message>, p: Path)
      requires p in nodes
      reads this, nodes[p]
    {
      Heard(p, p == [] || Tells(ev, old(started), p))
    }

    // Updates the node of a path and those below it with their part of a reading, children first
    // and in any order.
    method WalkValues(path: Path, kind: Kind, r: Reading, rev: int, paths: set<string>)
      requires WellFormed(desc) && Complete(nodes, desc)
      requires path in nodes && kind == NodeKind(desc, path)
      requires forall p | p in nodes && path <= p :: Ready(p, ReadingAt(r, kind, p[|path|..]), paths)
      modifies set p | p in nodes && path <= p :: nodes[p]
      ensures forall p | p in nodes && path <= p :: Updated(p, ReadingAt(r, kind, p[|path|..]), rev) && Told(p, paths)
      decreases kind, 2
    {
      forall p | p in nodes && path < p
        ensures kind.MessageKind? && p[|path|] in kind.desc.kinds
      {
        BelowNode(desc, path, p);
      }
      WalkChildren(path, kind, r, rev, paths);
      assert path[|path|..] == [] && ReadingAt(r, kind, []) == r;
      nodes[path].Update(rev, r, Listed(path, paths), ZeroAt(path));
      assert forall p | p in nodes && path <= p :: p == path || path < p;
    }

    method WalkChildren(path: Path, kind: Kind, r: Reading, rev: int, paths: set<string>)
      requires WellFormed(desc) && Complete(nodes, desc)
      requires path in nodes && kind == NodeKind(desc, path)
      requires forall p | p in nodes && path < p :: kind.MessageKind? && p[|path|] in kind.desc.kinds
      requires forall p | p in nodes && path < p :: Ready(p, ReadingAt(r, kind, p[|path|..]), paths)
      modifies set p | p in nodes && path < p :: nodes[p]
      ensures forall p | p in nodes && path < p :: Updated(p, ReadingAt(r, kind, p[|path|..]), rev) && Told(p, paths)
      decreases kind, 1
    {
      if kind.LeafKind? {
        return;
      }
      var todo := kind.desc.kinds.Keys;
      while todo != {}
        invariant todo <= kind.desc.kinds.Keys
        invariant forall p | p in nodes && path < p && p[|path|] in todo :: unchanged(nodes[p])
        invariant forall p | p in nodes && path < p && p[|path|] !in todo ::
                    Updated(p, ReadingAt(r, kind, p[|path|..]), rev) && Told(p, paths)
        decreases todo
      {
        var k :| k in todo;
        WalkChild(path, kind, k, r, rev, paths);
        todo := todo - {k};
      }
    }

    method WalkChild(path: Path, kind: Kind, k: string, r: Reading, rev: int, paths: set<string>)
      requires WellFormed(desc) && Complete(nodes, desc)
      requires path in nodes && kind == NodeKind(desc, path) && kind.MessageKind? && k in kind.desc.kinds
      requires forall p | p in nodes && path < p && p[|path|] == k :: Ready(p, ReadingAt(r, kind, p[|path|..]), paths)
      modifies set p | p in nodes && path < p && p[|path|] == k :: nodes[p]
      ensures forall p | p in nodes && path < p && p[|path|] == k ::
                Updated(p, ReadingAt(r, kind, p[|path|..]), rev) && Told(p, paths)
      decreases kind, 0
    {
      ChildDeclared(desc, path, k);
      var child, childKind := path + [k], kind.desc.kinds[k];
      forall p | p in nodes
        ensures child <= p <==> path < p && p[|path|] == k
        ensures child <= p ==>
                  ReadingAt(r, kind, p[|path|..]) == ReadingAt(Child(r, k, childKind), childKind, p[|child|..])
      {
        ChildOf(path, k, p);
        if child <= p { assert p[|path|..][0] == k && p[|path|..][1..] == p[|child|..]; }
      }
      WalkValues(child, childKind, Child(r, k, childKind), rev, paths);
    }

    // Handles one event of the watch on the active store. Events after the first continue from
    // the config the last one left.
    method HandleWatchEvent(ev: Event<Message>)
      requires Valid() && TypedEvent(ev, desc)
      requires started ==> Before(ev) == config
      modifies this, set p | p in nodes :: nodes[p]
      ensures Valid() && started && config == After(ev) && currentRev == RevisionOf(ev)
      ensures forall p | p in nodes :: Notified(ev, p)
    {
      hide Updated, Ready, ReadingAt, FieldAt, Conforms, WellFormed, KindAt, Complete, ListsChanges,
          Declared, Listed;
      var rev, r, paths := ReadEvent(ev, desc);
      AllReady(ev, paths);
      Dispatch(ev, r, rev, paths);
      currentRev, config, started := rev, After(ev), true;
    }

    // Walks the whole trie with a new root reading.
    method Dispatch(ghost ev: Event<Message>, r: Reading, rev: int, paths: set<string>)
      requires WellFormed(desc) && Complete(nodes, desc)
      requires forall p | p in nodes :: Ready(p, Mirror(r, p), paths) && nodes[p].pendingInit == !started
      requires forall p | p in nodes && p != [] ::
                 Listed(p, paths) <==> FieldAt(OrEmpty(Before(ev)), p) != FieldAt(OrEmpty(After(ev)), p)
      modifies set p | p in nodes :: nodes[p]
      ensures forall p | p in nodes :: Updated(p, Mirror(r, p), rev)
      ensures forall p | p in nodes :: Notified(ev, p)
    {
      assert forall p: Path :: p[0..] == p && [] <= p;
      WalkValues([], MessageKind(desc), r, rev, paths);
    }

    lemma AllReady(ev: Event<Message>, paths: set<string>)
      requires Valid() && TypedEvent(ev, desc) && (started ==> Before(ev) == config)
      requires ListsChanges(ev, desc, paths)
      ensures forall p | p in nodes ::
                Ready(p, Mirror(RootReading(After(ev)), p), paths) && nodes[p].pendingInit == !started
      ensures Conforms(OrEmpty(After(ev)), desc)
      ensures forall p | p in nodes && p != [] ::
                Listed(p, paths) <==> FieldAt(OrEmpty(Before(ev)), p) != FieldAt(OrEmpty(After(ev)), p)
    {
      forall p | p in nodes
        ensures Ready(p, Mirror(RootReading(After(ev)), p), paths)
      {
        if started && p != [] && !Listed(p, paths) { SameFieldSameReading(config, After(ev), desc, p); }
      }
    }

    // The goroutine's loop over a contiguous run of a store's events.
    method Run(events: seq<Event<Message>>, ghost log: seq<Entry<Message>>, ghost from: int)
      requires Valid() && TypedLog(log, desc)
      requires 1 <= from && from + |events| <= |log| + 1 && events == LiveEvents(log, from, from + |events|)
      requires started ==> config == ConfigAt(log, from - 1)
      modifies this, set p | p in nodes :: nodes[p]
      ensures Valid()
      ensures events == [] ==> config == old(config) && started == old(started) && currentRev == old(currentRev)
      ensures events != [] ==> started && config == ConfigAt(log, from + |events| - 1)
    {
      for i := 0 to |events|
        invariant Valid()
        invariant i == 0 ==> config == old(config) && started == old(started) && currentRev == old(currentRev)
        invariant i > 0 ==> started && config == ConfigAt(log, from + i - 1)
      {
        LiveEventTyped(log, desc, from + i);
        HandleWatchEvent(events[i]);
      }
    }

    // The revision to watch from. The store's lock is released again before the watch is taken.
    method RevisionToWatch(store: ValueStore<Message>) returns (rev: int)
      requires store.Valid()
      ensures rev == WatchFrom(store.log)
    {
      var current := store.Get(None);
      return if current.Ok? then current.value.revision else 0;
    }

    // Watches the store from the revision read while its log was atRead, and handles what is
    // replayed. This never fails. The nodes then mirror the store, unless a config is active and
    // 63 or more writes came in between: nothing is replayed then.
    method Start(store: ValueStore<Message>, rev: int, ghost atRead: seq<Entry<Message>>) returns (id: nat)
      requires Valid() && !started && config.None?
      requires store.Valid() && TypedLog(store.log, desc)
      requires atRead <= store.log && rev == WatchFrom(atRead)
      modifies store`watches, store`nextWatch, store`since
      modifies this, set p | p in nodes :: nodes[p]
      ensures Valid() && (!started ==> config.None?)
      ensures config == ConfigAt(store.log, |store.log|) <==>
                !Exists(store.log) || rev == 0 || |store.log| - rev < 63
      ensures store.Valid() && store.log == old(store.log) && id in store.watches
      ensures store.watches[id] == [] && store.since[id] == |store.log| + 1
    {
      hide Valid, TypedLog, WellFormed, Conforms;
      StartReplays(atRead, store.log, rev);
      var watch, replayed := store.Watch(Some(rev));
      id := watch.value;
      Run(replayed, store.log, ReplayStart(store.log, Some(rev)).value);
    }

    // Handles what the store has written to the watch since done events. Once there is anything to
    // handle the nodes mirror the store, even if they did not before the first event.
    method CatchUp(store: ValueStore<Message>, id: nat, done: nat)
      requires Valid() && store.Valid() && TypedLog(store.log, desc)
      requires id in store.watches && done <= |store.watches[id]|
      requires started ==> config == ConfigAt(store.log, store.since[id] + done - 1)
      modifies this, set p | p in nodes :: nodes[p]
      ensures Valid() && store.Valid() && store.log == old(store.log) && store.watches == old(store.watches)
      ensures old(started) || done < |store.watches[id]| ==> config == ConfigAt(store.log, |store.log|)
      ensures done == |store.watches[id]| ==> config == old(config) && started == old(started)
    {
      var from := store.since[id] + done;
      var events := store.watches[id][done..];
      assert events == LiveEvents(store.log, from, |store.log| + 1);
      Run(events, store.log, from);
    }
  }

  // What Start watches from: the revision of the active config, or 0.
  function WatchFrom(log: seq<Entry<Message>>): int {
    if Exists(log) then |log| else 0
  }

  // Where the replay of such a watch starts, however many writes followed the read.
  lemma StartReplays(atRead: seq<Entry<Message>>, log: seq<Entry<Message>>, rev: int)
    requires atRead <= log && rev == WatchFrom(atRead)
    ensures ReplayStart(log, Some(rev)) ==
              Ok(if rev == 0 then if Exists(log) then |log| else |log| + 1
                 else if |log| - rev < 63 then rev
                 else |log| + 1)
  {
    assert rev > 0 ==> log[rev - 1] == atRead[rev - 1];
  }

  // ----- Events -----

  // The event changes the field of a path, or is the first.
  predicate Tells(ev: Event<Message>, started: bool, p: Path) {
    !started || FieldAt(OrEmpty(Before(ev)), p) != FieldAt(OrEmpty(After(ev)), p)
  }

  // The paths list exactly what the event changes.
  ghost predicate ListsChanges(ev: Event<Message>, d: Desc, paths: set<string>) {
    forall p | Declared(d, p) :: Join(p) in paths <==> FieldAt(OrEmpty(Before(ev)), p) != FieldAt(OrEmpty(After(ev)), p)
  }

  // Revision, value and changed paths of an event.
  method ReadEvent(ev: Event<Message>, d: Desc) returns (rev: int, r: Reading, paths: set<string>)
    requires WellFormed(d) && !d.timed && TypedEvent(ev, d)
    ensures rev == RevisionOf(ev) && r == RootReading(After(ev)) && ListsChanges(ev, d, paths)
  {
    var diff;
    match ev {
      case DeleteEvent(previous) =>
        rev, r := previous.value.revision, None;
        diff := Diff(previous.value.value, EmptyMessage(false), d);
      case PutEvent(current, previous) =>
        rev, r := current.revision, Some(Sub(current.value));
        diff := Diff(if previous.Some? then previous.value.value else EmptyMessage(false), current.value, d);
    }
    paths := set p | p in diff;
  }

  function Before(ev: Event<Message>): Option<Message> {
    if ev.previous.Some? then Some(ev.previous.value.value) else None
  }

  function After(ev: Event<Message>): Option<Message> {
    match ev case PutEvent(current, _) => Some(current.value) case DeleteEvent(_) => None
  }

  // A deletion keeps the revision of the deleted config.
  function RevisionOf(ev: Event<Message>): int
    requires ev.DeleteEvent? ==> ev.previous.Some?
  {
    match ev case PutEvent(current, _) => current.revision case DeleteEvent(previous) => previous.value.revision
  }

  ghost predicate TypedEvent(ev: Event<Message>, d: Desc) {
    && (ev.DeleteEvent? ==> ev.previous.Some?)
    && Conforms(OrEmpty(Before(ev)), d) && Conforms(OrEmpty(After(ev)), d)
  }

  ghost predicate TypedLog(log: seq<Entry<Message>>, d: Desc) {
    WellFormedLog(log) && !d.timed && forall r | WrittenAt(log, r) :: Conforms(log[r - 1].value, d)
  }

  // The config of a store as of a revision.
  function ConfigAt(log: seq<Entry<Message>>, r: int): Option<Message> {
    if WrittenAt(log, r) then Some(log[r - 1].value) else None
  }

  // The events of a store each continue from the last.
  lemma LiveEventTyped(log: seq<Entry<Message>>, d: Desc, r: int)
    requires TypedLog(log, d) && 1 <= r <= |log|
    ensures TypedEvent(LiveEvent(log, r), d)
    ensures Before(LiveEvent(log, r)) == ConfigAt(log, r - 1) && After(LiveEvent(log, r)) == ConfigAt(log, r)
    ensures RevisionOf(LiveEvent(log, r)) == if WrittenAt(log, r) then r else r - 1
  {
    assert log[r - 1].Deleted? ==> WrittenAt(log, r - 1);
    assert WrittenAt(log, r) ==> Conforms(log[r - 1].value, d);
    assert WrittenAt(log, r - 1) ==> Conforms(log[r - 2].value, d);
  }
}

// util/fieldmask/masks.go: restricting a message to the fields a mask covers.
//
// A mask is its set of path texts: that is all the radix tree built from it answers about.
// Keep and Discard state the result on the part of the mask below the current message;
// the methods thread a text prefix, as the source does.
module Masks {
  import opened Basics
  import opened Messages

  type Mask = set<string>

  // Some path of the mask has this text prefix (the radix tree's prefix search).
  predicate HasPrefix(mask: Mask, text: string) {
    exists p :: p in mask && text <= p
  }

  // The paths of the mask under a prefix, with the prefix removed.
  function Relative(mask: Mask, prefix: string): Mask {
    set p | p in mask && prefix <= p :: p[|prefix|..]
  }

  // The part of the mask that speaks about sub-message k.
  function Below(mask: Mask, k: string): Mask { Relative(mask, k + ".") }

  lemma InRelative(mask: Mask, prefix: string, rest: string)
    ensures rest in Relative(mask, prefix) <==> prefix + rest in mask
  {
    var p := prefix + rest;
    assert prefix <= p && p[|prefix|..] == rest;
    if rest in Relative(mask, prefix) {
      var q :| q in mask && prefix <= q && q[|prefix|..] == rest;
      assert q == p;
    }
  }

  lemma RelativeNested(mask: Mask, prefix: string, k: string)
    ensures Below(Relative(mask, prefix), k) == Relative(mask, prefix + k + ".")
  {
    forall r
      ensures r in Below(Relative(mask, prefix), k) <==> r in Relative(mask, prefix + k + ".")
    {
      InRelative(Relative(mask, prefix), k + ".", r);
      InRelative(mask, prefix, k + "." + r);
      InRelative(mask, prefix + k + ".", r);
      assert prefix + (k + "." + r) == (prefix + k + ".") + r;
    }
  }

  lemma PrefixOfRelative(mask: Mask, prefix: string, k: string)
    ensures HasPrefix(Relative(mask, prefix), k) <==> HasPrefix(mask, prefix + k)
  {
    if HasPrefix(Relative(mask, prefix), k) {
      var r :| r in Relative(mask, prefix) && k <= r;
      InRelative(mask, prefix, r);
      assert prefix + k <= prefix + r;
    }
    if HasPrefix(mask, prefix + k) {
      var p :| p in mask && prefix + k <= p;
      assert p == prefix + p[|prefix|..];
      InRelative(mask, prefix, p[|prefix|..]);
      assert k <= p[|prefix|..];
    }
  }

  // ----- Sets of path texts -----

  // The texts made of plain names and, for each sub-message, its own texts under its name.
  function PathSet(names: set<string>, subs: map<string, set<string>>): set<string> {
    names + set k, p | k in subs && p in subs[k] :: k + "." + p
  }

  lemma PathSetAt(names: set<string>, subs: map<string, set<string>>, k: string)
    requires NoDot(k) && (forall n | n in names :: NoDot(n)) && (forall n | n in subs :: NoDot(n))
    ensures k in PathSet(names, subs) <==> k in names
    ensures Below(PathSet(names, subs), k) == if k in subs then subs[k] else {}
  {
    var s := PathSet(names, subs);
    forall j, p | j in subs && p in subs[j]
      ensures k != j + "." + p
    {
      NotDotted(k, j, p);
    }
    forall r
      ensures r in Below(s, k) <==> k in subs && r in subs[k]
    {
      InRelative(s, k + ".", r);
      if k + "." + r in s {
        if k + "." + r in names {
          NotDotted(k + "." + r, k, r);
        } else {
          var j, p :| j in subs && p in subs[j] && k + "." + r == j + "." + p;
          FirstSegment(k, j, r, p);
        }
      }
    }
  }

  // The mask inner moved under sub-message k.
  function Nest(k: string, inner: Mask): Mask { PathSet({}, map[k := inner]) }

  lemma NestAt(k: string, inner: Mask)
    requires NoDot(k) && inner != {}
    ensures Nest(k, inner) != {} && HasPrefix(Nest(k, inner), k)
    ensures k !in Nest(k, inner) && Below(Nest(k, inner), k) == inner
  {
    var subs := map[k := inner];
    PathSetAt({}, subs, k);
    var p :| p in inner;
    assert k + "." + p in Nest(k, inner) && k <= k + "." + p;
  }

  predicate NameStarts(names: set<string>, k: string) {
    exists n :: n in names && k <= n
  }

  predicate SubStarts(subs: map<string, set<string>>, k: string) {
    exists n :: n in subs && subs[n] != {} && k <= n
  }

  // Only a name, or a text under a name, that itself starts with k starts with k.
  lemma PathSetPrefix(names: set<string>, subs: map<string, set<string>>, k: string)
    requires NoDot(k)
    ensures HasPrefix(PathSet(names, subs), k) <==> NameStarts(names, k) || SubStarts(subs, k)
  {
    var s := PathSet(names, subs);
    if HasPrefix(s, k) {
      var p :| p in s && k <= p;
      if p !in names {
        var j, q :| j in subs && q in subs[j] && p == j + "." + q;
        DottedPrefix(k, j, q);
      }
    }
    if n :| n in names && k <= n {
      assert n in s;
    }
    if n :| n in subs && subs[n] != {} && k <= n {
      var q :| q in subs[n];
      assert n + "." + q in s && k <= n + "." + q;
    }
  }

  // ----- Keep and discard, stated -----

  // What becomes of each populated field, None when it is cleared.
  type Fates = map<string, Option<Field>>

  function Survivors(m: Message, fate: Fates): Message
    requires fate.Keys == m.fields.Keys
  {
    Message(m.timed, map k | k in m.fields && fate[k].Some? :: fate[k].value)
  }

  function KeepField(f: Field, name: string, mask: Mask): Option<Field>
    decreases f, 0
  {
    if !HasPrefix(mask, name) then None
    else if f.Sub? && name !in mask then
      var sub := Keep(f.msg, Below(mask, name));
      if sub.fields == map[] then None else Some(Sub(sub))
    else Some(f)
  }

  function KeepFates(m: Message, mask: Mask): Fates
    decreases m, 0
  {
    map k | k in m.fields :: KeepField(m.fields[k], k, mask)
  }

  function Keep(m: Message, mask: Mask): Message
    decreases m, 1
  {
    Survivors(m, KeepFates(m, mask))
  }

  function DiscardField(f: Field, name: string, mask: Mask): Option<Field>
    decreases f, 0
  {
    if !HasPrefix(mask, name) then Some(f)
    else if f.Sub? && name !in mask then
      var sub := Discard(f.msg, Below(mask, name));
      if sub.fields == map[] then None else Some(Sub(sub))
    else None
  }

  function DiscardFates(m: Message, mask: Mask): Fates
    decreases m, 0
  {
    map k | k in m.fields :: DiscardField(m.fields[k], k, mask)
  }

  function Discard(m: Message, mask: Mask): Message
    decreases m, 1
  {
    Survivors(m, DiscardFates(m, mask))
  }

  // ----- The source's loops -----

  lemma FieldTyped(m: Message, d: Desc, i: nat)
    requires WellFormed(d) && Conforms(m, d) && i < |d.names|
    ensures d.names[i] in d.kinds && d.names[i] !in d.names[..i] && NoDot(d.names[i])
    ensures d.kinds[d.names[i]].MessageKind? ==> WellFormed(d.kinds[d.names[i]].desc)
    ensures d.names[i] in m.fields ==> FieldConforms(m.fields[d.names[i]], d.kinds[d.names[i]])
  {
  }

  // What the tree says at prefix + field is what its relative part says at field.
  lemma AtPrefix(tree: Mask, prefix: string, field: string)
    ensures HasPrefix(tree, prefix + field) <==> HasPrefix(Relative(tree, prefix), field)
    ensures prefix + field in tree <==> field in Relative(tree, prefix)
    ensures Relative(tree, prefix + field + ".") == Below(Relative(tree, prefix), field)
  {
    PrefixOfRelative(tree, prefix, field);
    InRelative(tree, prefix, field);
    RelativeNested(tree, prefix, field);
  }

  // out is m with the fields in done replaced by their fate, the others untouched.
  ghost predicate Progress(m: Message, out: Message, done: seq<string>, fate: Fates, keptAny: bool) {
    && fate.Keys == m.fields.Keys
    && out == Message(m.timed, map k | k in m.fields && (k in done ==> fate[k].Some?) ::
                        if k in done then fate[k].value else m.fields[k])
    && (keptAny <==> exists k :: k in done && k in fate && fate[k].Some?)
  }

  // A field keeps its new value or is cleared.
  function Settle(out: Message, field: string, result: Option<Field>): Message {
    out.(fields := if result.Some? then out.fields[field := result.value] else out.fields - {field})
  }

  lemma Advance(m: Message, out: Message, done: seq<string>, fate: Fates, keptAny: bool, field: string)
    requires Progress(m, out, done, fate, keptAny) && field !in done
    ensures field in out.fields <==> field in m.fields
    ensures field in out.fields ==> out.fields[field] == m.fields[field]
    ensures field in m.fields ==>
              Progress(m, Settle(out, field, fate[field]), done + [field], fate, keptAny || fate[field].Some?)
    ensures field !in m.fields ==> Progress(m, out, done + [field], fate, keptAny)
  {
  }

  lemma Begin(m: Message, fate: Fates)
    requires fate.Keys == m.fields.Keys
    ensures Progress(m, m, [], fate, false)
  {
  }

  // Once every declared field is settled the result is the map of fates.
  lemma Finished(m: Message, out: Message, d: Desc, fate: Fates, keptAny: bool)
    requires WellFormed(d) && Conforms(m, d) && Progress(m, out, d.names, fate, keptAny)
    ensures out == Survivors(m, fate)
    ensures keptAny <==> out.fields != map[]
  {
    assert out.fields == Survivors(m, fate).fields;
    if keptAny {
      var k :| k in d.names && k in fate && fate[k].Some?;
      assert k in out.fields;
    } else if k :| k in out.fields {
      assert false;
    }
  }

  method KeepFields(msg: Message, d: Desc, prefix: string, tree: Mask) returns (out: Message, keptAny: bool)
    requires WellFormed(d) && Conforms(msg, d)
    ensures out == Keep(msg, Relative(tree, prefix))
    ensures keptAny <==> out.fields != map[]
    decreases d, 1
  {
    hide Progress, Settle, Survivors, KeepField, Conforms, FieldConforms, WellFormed, Relative;
    ghost var fate := KeepFates(msg, Relative(tree, prefix));
    out, keptAny := msg, false;
    Begin(msg, fate);
    for i := 0 to |d.names|
      invariant Progress(msg, out, d.names[..i], fate, keptAny)
    {
      var field := d.names[i];
      assert d.names[..i + 1] == d.names[..i] + [field];
      FieldTyped(msg, d, i);
      Advance(msg, out, d.names[..i], fate, keptAny, field);
      if field in out.fields {
        var result := KeepOne(out.fields[field], d.kinds[field], field, prefix, tree);
        out := Settle(out, field, result);
        keptAny := keptAny || result.Some?;
      }
    }
    assert d.names[..|d.names|] == d.names;
    Finished(msg, out, d, fate, keptAny);
  }

  // One turn of the loop: what the populated field becomes, None when it is cleared.
  method KeepOne(f: Field, kind: Kind, field: string, prefix: string, tree: Mask) returns (result: Option<Field>)
    requires kind.MessageKind? ==> WellFormed(kind.desc)
    requires FieldConforms(f, kind)
    ensures result == KeepField(f, field, Relative(tree, prefix))
    decreases kind, 0
  {
    var path := prefix + field;
    AtPrefix(tree, prefix, field);
    if HasPrefix(tree, path) {
      if f.Sub? && path !in tree {
        var sub, kept := KeepFields(f.msg, kind.desc, path + ".", tree);
        return if kept then Some(Sub(sub)) else None;
      }
      return Some(f);
    }
    return None;
  }

  method DiscardFields(msg: Message, d: Desc, prefix: string, tree: Mask) returns (out: Message, keptAny: bool)
    requires WellFormed(d) && Conforms(msg, d)
    ensures out == Discard(msg, Relative(tree, prefix))
    ensures keptAny <==> out.fields != map[]
    decreases d, 1
  {
    hide Progress, Settle, Survivors, DiscardField, Conforms, FieldConforms, WellFormed, Relative;
    ghost var fate := DiscardFates(msg, Relative(tree, prefix));
    out, keptAny := msg, false;
    Begin(msg, fate);
    for i := 0 to |d.names|
      invariant Progress(msg, out, d.names[..i], fate, keptAny)
    {
      var field := d.names[i];
      assert d.names[..i + 1] == d.names[..i] + [field];
      FieldTyped(msg, d, i);
      Advance(msg, out, d.names[..i], fate, keptAny, field);
      if field in out.fields {
        var result := DiscardOne(out.fields[field], d.kinds[field], field, prefix, tree);
        out := Settle(out, field, result);
        keptAny := keptAny || result.Some?;
      }
    }
    assert d.names[..|d.names|] == d.names;
    Finished(msg, out, d, fate, keptAny);
  }

  method DiscardOne(f: Field, kind: Kind, field: string, prefix: string, tree: Mask) returns (result: Option<Field>)
    requires kind.MessageKind? ==> WellFormed(kind.desc)
    requires FieldConforms(f, kind)
    ensures result == DiscardField(f, field, Relative(tree, prefix))
    decreases kind, 0
  {
    var path := prefix + field;
    AtPrefix(tree, prefix, field);
    if !HasPrefix(tree, path) {
      return Some(f);
    }
    if f.Sub? && path !in tree {
      var sub, kept := DiscardFields(f.msg, kind.desc, path + ".", tree);
      return if kept then Some(Sub(sub)) else None;
    }
    return None;
  }

  // ----- Lists of path texts, as the walks over a descriptor build them -----

  function Prefixed(prefix: string, paths: seq<string>): seq<string> {
    seq(|paths|, i requires 0 <= i < |paths| => prefix + paths[i])
  }

  // The list holds exactly the texts of a path set, each once.
  ghost predicate Collected(paths: seq<string>, names: set<string>, subs: map<string, set<string>>) {
    && NoDuplicates(paths)
    && (set p | p in paths) == PathSet(names, subs)
    && (forall n | n in names :: NoDot(n))
    && (forall n | n in subs :: NoDot(n))
  }

  lemma CollectName(paths: seq<string>, names: set<string>, subs: map<string, set<string>>, k: string)
    requires Collected(paths, names, subs) && NoDot(k) && k !in names
    ensures Collected(paths + [k], names + {k}, subs)
  {
  }

  lemma CollectSub(paths: seq<string>, names: set<string>, subs: map<string, set<string>>, k: string,
      nested: seq<string>)
    requires Collected(paths, names, subs) && NoDot(k) && k !in subs && NoDuplicates(nested)
    ensures Collected(paths + Prefixed(k + ".", nested), names, subs[k := set p | p in nested])
  {
    var below, all := set p | p in nested, set p | p in paths;
    var more := Prefixed(k + ".", nested);
    var added := set p | p in nested :: k + "." + p;
    assert PathSet(names, subs[k := below]) == PathSet(names, subs) + added by {
      hide NoDuplicates;
      AddToPathSet(names, subs, k, below);
      assert added == set p | p in below :: k + "." + p;
    }
    assert (set p | p in more) == added by {
      forall p | p in nested ensures k + "." + p in more {
        var i :| 0 <= i < |nested| && nested[i] == p;
        assert more[i] == k + "." + p;
      }
    }
    PathSetAt(names, subs, k);
    forall i | 0 <= i < |more|
      ensures more[i] !in paths
    {
      InRelative(PathSet(names, subs), k + ".", nested[i]);
      assert more[i] == k + "." + nested[i];
      assert nested[i] !in Below(PathSet(names, subs), k);
      assert more[i] !in all;
    }
    assert (set p | p in paths + more) == all + added;
    PrefixedDistinct(k + ".", nested);
  }

  lemma PrefixedDistinct(prefix: string, paths: seq<string>)
    requires NoDuplicates(paths)
    ensures NoDuplicates(Prefixed(prefix, paths))
  {
    forall i, j | 0 <= i < j < |paths|
      ensures Prefixed(prefix, paths)[i] != Prefixed(prefix, paths)[j]
    {
      assert (prefix + paths[i])[|prefix|..] == paths[i];
      assert (prefix + paths[j])[|prefix|..] == paths[j];
    }
  }

  lemma AddToPathSet(names: set<string>, subs: map<string, set<string>>, k: string, below: set<string>)
    requires k !in subs
    ensures PathSet(names, subs[k := below]) == PathSet(names, subs) + set p | p in below :: k + "." + p
  {
  }
}

// util/fieldmask/diff.go: the paths at which two messages differ.
module Diffing {
  import opened Basics
  import opened Messages
  import opened Masks

  // Populated sub-message, or the empty one that reading an absent field yields.
  function SubOrZero(m: Message, k: string, d: Desc): Message {
    if k in m.fields && m.fields[k].Sub? then m.fields[k].msg else EmptyMessage(d.timed)
  }

  // Texts of the differing paths, relative to the messages.
  ghost function Differing(old_: Message, new_: Message, d: Desc): set<string>
    decreases d, 1
  {
    PathSet(DifferingNames(old_, new_, d), DifferingSubs(old_, new_, d))
  }

  ghost function DifferingNames(old_: Message, new_: Message, d: Desc): set<string> {
    set k | k in d.kinds && Lookup(old_, k) != Lookup(new_, k)
  }

  ghost function DifferingSubs(old_: Message, new_: Message, d: Desc): map<string, set<string>>
    decreases d, 0
  {
    map k | k in d.kinds && d.kinds[k].MessageKind? && (k in old_.fields || k in new_.fields) ::
      Differing(SubOrZero(old_, k, d.kinds[k].desc), SubOrZero(new_, k, d.kinds[k].desc), d.kinds[k].desc)
  }

  // The same, from the fields in done only.
  ghost function NamesIn(old_: Message, new_: Message, done: seq<string>): set<string> {
    set k | k in done && Lookup(old_, k) != Lookup(new_, k)
  }

  ghost function SubsIn(old_: Message, new_: Message, d: Desc, done: seq<string>): map<string, set<string>> {
    map k | k in done && k in d.kinds && d.kinds[k].MessageKind? && (k in old_.fields || k in new_.fields) ::
      Differing(SubOrZero(old_, k, d.kinds[k].desc), SubOrZero(new_, k, d.kinds[k].desc), d.kinds[k].desc)
  }

  lemma OneMoreField(old_: Message, new_: Message, d: Desc, done: seq<string>, k: string)
    requires k !in done && k in d.kinds
    ensures var names, subs := NamesIn(old_, new_, done), SubsIn(old_, new_, d, done);
            && k !in names && k !in subs
            && NamesIn(old_, new_, done + [k]) == (if Lookup(old_, k) != Lookup(new_, k) then names + {k} else names)
            && SubsIn(old_, new_, d, done + [k]) ==
                 (if d.kinds[k].MessageKind? && (k in old_.fields || k in new_.fields)
                  then subs[k := Differing(SubOrZero(old_, k, d.kinds[k].desc), SubOrZero(new_, k, d.kinds[k].desc),
                      d.kinds[k].desc)]
                  else subs)
  {
    hide Differing;
    assert forall j :: j in done + [k] <==> j in done || j == k;
  }

  lemma NoFields(old_: Message, new_: Message, d: Desc)
    ensures Collected([], NamesIn(old_, new_, []), SubsIn(old_, new_, d, []))
    ensures forall prefix :: Prefixed(prefix, []) == []
  {
  }

  lemma AllFields(old_: Message, new_: Message, d: Desc, rel: seq<string>)
    requires WellFormed(d) && Collected(rel, NamesIn(old_, new_, d.names), SubsIn(old_, new_, d, d.names))
    ensures NoDuplicates(rel) && (set p | p in rel) == Differing(old_, new_, d)
  {
    assert NamesIn(old_, new_, d.names) == DifferingNames(old_, new_, d);
    assert SubsIn(old_, new_, d, d.names) == DifferingSubs(old_, new_, d);
  }

  lemma PrefixedAppend(prefix: string, a: seq<string>, b: seq<string>)
    ensures Prefixed(prefix, a + b) == Prefixed(prefix, a) + Prefixed(prefix, b)
  {
  }

  lemma PrefixedTwice(prefix: string, k: string, a: seq<string>)
    ensures Prefixed(prefix, Prefixed(k + ".", a)) == Prefixed(prefix + k + ".", a)
  {
    forall i | 0 <= i < |a|
      ensures Prefixed(prefix, Prefixed(k + ".", a))[i] == Prefixed(prefix + k + ".", a)[i]
    {
      assert prefix + (k + "." + a[i]) == (prefix + k + ".") + a[i];
    }
  }

  lemma SubTyped(m: Message, d: Desc, k: string)
    requires WellFormed(d) && Conforms(m, d) && k in d.kinds && d.kinds[k].MessageKind?
    ensures WellFormed(d.kinds[k].desc) && Conforms(SubOrZero(m, k, d.kinds[k].desc), d.kinds[k].desc)
    ensures k in m.fields ==> m.fields[k] == Sub(SubOrZero(m, k, d.kinds[k].desc))
  {
  }

  // No differing path exactly when the messages are equal.
  lemma {:induction false} NothingDiffers(old_: Message, new_: Message, d: Desc)
    requires WellFormed(d) && Conforms(old_, d) && Conforms(new_, d)
    ensures Differing(old_, new_, d) == {} <==> old_ == new_
    decreases d
  {
    if old_ == new_ {
      forall k | k in DifferingSubs(old_, new_, d)
        ensures DifferingSubs(old_, new_, d)[k] == {}
      {
        SubTyped(old_, d, k);
        var sub := SubOrZero(old_, k, d.kinds[k].desc);
        NothingDiffers(sub, sub, d.kinds[k].desc);
      }
      assert DifferingNames(old_, new_, d) == {};
    } else {
      assert old_.fields != new_.fields;
      var k :| k in old_.fields.Keys + new_.fields.Keys && Lookup(old_, k) != Lookup(new_, k);
      assert k in DifferingNames(old_, new_, d);
      assert k in Differing(old_, new_, d);
    }
  }

  // ----- The source's loop, appending to a shared list -----

  // rel is the appended part, without the prefix.
  method DiffFields(old_: Message, new_: Message, d: Desc, prefix: string, paths: seq<string>)
      returns (out: seq<string>, ghost rel: seq<string>)
    requires WellFormed(d) && Conforms(old_, d) && Conforms(new_, d)
    ensures paths <= out && NoDuplicates(out[|paths|..])
    ensures (set p | p in out[|paths|..]) == set p | p in Differing(old_, new_, d) :: prefix + p
    ensures out == paths + Prefixed(prefix, rel)
    ensures NoDuplicates(rel) && (set p | p in rel) == Differing(old_, new_, d)
    decreases d, 1
  {
    hide Collected, Differing, NamesIn, SubsIn, Prefixed, NoDuplicates, Conforms, WellFormed, Lookup, SubOrZero;
    out, rel := paths, [];
    NoFields(old_, new_, d);
    for i := 0 to |d.names|
      invariant out == paths + Prefixed(prefix, rel)
      invariant Collected(rel, NamesIn(old_, new_, d.names[..i]), SubsIn(old_, new_, d, d.names[..i]))
    {
      var field := d.names[i];
      FieldTyped(old_, d, i);
      assert d.names[..i + 1] == d.names[..i] + [field];
      OneMoreField(old_, new_, d, d.names[..i], field);
      out, rel := DiffField(old_, new_, d, field, prefix, paths, out, rel, NamesIn(old_, new_, d.names[..i]),
          SubsIn(old_, new_, d, d.names[..i]));
    }
    assert d.names[..|d.names|] == d.names;
    AllFields(old_, new_, d, rel);
    PrefixedTexts(prefix, rel);
    assert out[|paths|..] == Prefixed(prefix, rel);
  }

  lemma PrefixedTexts(prefix: string, paths: seq<string>)
    requires NoDuplicates(paths)
    ensures NoDuplicates(Prefixed(prefix, paths))
    ensures (set p | p in Prefixed(prefix, paths)) == set p | p in (set q | q in paths) :: prefix + p
  {
    PrefixedDistinct(prefix, paths);
    forall p | p in paths
      ensures prefix + p in Prefixed(prefix, paths)
    {
      var i :| 0 <= i < |paths| && paths[i] == p;
      assert Prefixed(prefix, paths)[i] == prefix + p;
    }
  }

  // One turn of the loop.
  method DiffField(old_: Message, new_: Message, d: Desc, field: string, prefix: string,
                   ghost paths: seq<string>, out: seq<string>, ghost rel: seq<string>,
                   ghost names: set<string>, ghost subs: map<string, set<string>>)
    returns (out': seq<string>, ghost rel': seq<string>)
    requires WellFormed(d) && Conforms(old_, d) && Conforms(new_, d) && field in d.kinds && NoDot(field)
    requires out == paths + Prefixed(prefix, rel)
    requires Collected(rel, names, subs) && field !in names && field !in subs
    ensures out' == paths + Prefixed(prefix, rel')
    ensures Collected(rel', if Lookup(old_, field) != Lookup(new_, field) then names + {field} else names,
                      if d.kinds[field].MessageKind? && (field in old_.fields || field in new_.fields)
                      then subs[field := Differing(SubOrZero(old_, field, d.kinds[field].desc),
                          SubOrZero(new_, field, d.kinds[field].desc), d.kinds[field].desc)]
                      else subs)
    decreases d, 0
  {
    hide Collected, Differing, Prefixed, NoDuplicates, FieldConforms;
    out', rel' := out, rel;
    var hasOld, hasNew := field in old_.fields, field in new_.fields;
    if !hasOld && !hasNew {
      return;
    }
    if hasOld != hasNew {
      out', rel' := AppendName(prefix, field, paths, out', rel', names, subs);
      if d.kinds[field].MessageKind? {
        SubTyped(old_, d, field);
        SubTyped(new_, d, field);
        out', rel' := DiffNested(SubOrZero(old_, field, d.kinds[field].desc),
            SubOrZero(new_, field, d.kinds[field].desc), d.kinds[field].desc,
                                 prefix, field, paths, out', rel', names + {field}, subs);
      }
      return;
    }
    if d.kinds[field].MessageKind? {
      SubTyped(old_, d, field);
      SubTyped(new_, d, field);
      var prevNumFields := |out'|;
      var oldSub, newSub := SubOrZero(old_, field, d.kinds[field].desc), SubOrZero(new_, field, d.kinds[field].desc);
      out', rel' := DiffNested(oldSub, newSub, d.kinds[field].desc, prefix, field, paths, out', rel', names, subs);
      if |out'| > prevNumFields {
        out', rel' := AppendName(prefix, field, paths, out', rel', names,
            subs[field := Differing(oldSub, newSub, d.kinds[field].desc)]);
      }
    } else if old_.fields[field] != new_.fields[field] {
      out', rel' := AppendName(prefix, field, paths, out', rel', names, subs);
    }
  }

  // The recursive call on a sub-message, below the field's name.
  method DiffNested(oldSub: Message, newSub: Message, sd: Desc, prefix: string, field: string,
                    ghost paths: seq<string>, out: seq<string>, ghost rel: seq<string>,
                    ghost names: set<string>, ghost subs: map<string, set<string>>)
    returns (out': seq<string>, ghost rel': seq<string>)
    requires WellFormed(sd) && Conforms(oldSub, sd) && Conforms(newSub, sd) && NoDot(field)
    requires out == paths + Prefixed(prefix, rel)
    requires Collected(rel, names, subs) && field !in subs
    ensures out' == paths + Prefixed(prefix, rel')
    ensures Collected(rel', names, subs[field := Differing(oldSub, newSub, sd)])
    ensures |out'| >= |out| && (|out'| > |out| <==> oldSub != newSub)
    decreases sd, 2
  {
    hide Collected, Differing, NoDuplicates;
    ghost var nested;
    out', nested := DiffFields(oldSub, newSub, sd, prefix + field + ".", out);
    NothingDiffers(oldSub, newSub, sd);
    AppendNested(prefix, field, rel, names, subs, nested);
    rel' := rel + Prefixed(field + ".", nested);
  }

  // Lists a field under the prefix.
  method AppendName(prefix: string, field: string, ghost paths: seq<string>, out: seq<string>, ghost rel: seq<string>,
                    ghost names: set<string>, ghost subs: map<string, set<string>>)
    returns (out': seq<string>, ghost rel': seq<string>)
    requires Collected(rel, names, subs) && NoDot(field) && field !in names
    requires out == paths + Prefixed(prefix, rel)
    ensures out' == paths + Prefixed(prefix, rel') && out' == out + [prefix + field]
    ensures Collected(rel', names + {field}, subs)
  {
    CollectName(rel, names, subs, field);
    PrefixedAppend(prefix, rel, [field]);
    assert Prefixed(prefix, [field]) == [prefix + field];
    out', rel' := out + [prefix + field], rel + [field];
  }

  lemma AppendNested(prefix: string, field: string, rel: seq<string>,
                     names: set<string>, subs: map<string, set<string>>, nested: seq<string>)
    requires Collected(rel, names, subs) && NoDot(field) && field !in subs && NoDuplicates(nested)
    ensures Collected(rel + Prefixed(field + ".", nested), names, subs[field := set p | p in nested])
    ensures Prefixed(prefix, rel + Prefixed(field + ".", nested)) ==
            Prefixed(prefix, rel) + Prefixed(prefix + field + ".", nested)
    ensures |Prefixed(prefix + field + ".", nested)| > 0 <==> (set p | p in nested) != {}
  {
    CollectSub(rel, names, subs, field, nested);
    PrefixedAppend(prefix, rel, Prefixed(field + ".", nested));
    PrefixedTwice(prefix, field, nested);
    if nested == [] {
      assert (set p | p in nested) == {};
    } else {
      var all := set p | p in nested;
      assert nested[0] in all;
      assert |Prefixed(prefix + field + ".", nested)| == |nested|;
      assert all != {};
    }
  }

  // ----- Exactness -----

  // A declared path is listed exactly when its presence-aware value differs.
  lemma {:induction false} DiffersExactly(old_: Message, new_: Message, d: Desc, path: Path)
    requires WellFormed(d) && Conforms(old_, d) && Conforms(new_, d) && Declared(d, path)
    ensures Join(path) in Differing(old_, new_, d) <==> FieldAt(old_, path) != FieldAt(new_, path)
    decreases |path|
  {
    var k := path[0];
    var names, subs := DifferingNames(old_, new_, d), DifferingSubs(old_, new_, d);
    PathSetAt(names, subs, k);
    if |path| > 1 {
      var sd := d.kinds[k].desc;
      SubTyped(old_, d, k);
      SubTyped(new_, d, k);
      InRelative(Differing(old_, new_, d), k + ".", Join(path[1..]));
      var oldSub, newSub := SubOrZero(old_, k, sd), SubOrZero(new_, k, sd);
      assert FieldAt(old_, path) == FieldAt(oldSub, path[1..]);
      assert FieldAt(new_, path) == FieldAt(newSub, path[1..]);
      DiffersExactly(oldSub, newSub, sd, path[1..]);
    }
  }

  // Nothing but declared paths is listed.
  lemma {:induction false} DiffersDeclared(old_: Message, new_: Message, d: Desc, p: string) returns (path: Path)
    requires WellFormed(d) && p in Differing(old_, new_, d)
    ensures Declared(d, path) && Join(path) == p
    decreases d
  {
    if p in DifferingNames(old_, new_, d) {
      path := [p];
    } else {
      var k, q := BelowSub(old_, new_, d, p);
      hide Differing, WellFormed;
      var rest := DiffersDeclared(SubOrZero(old_, k, d.kinds[k].desc), SubOrZero(new_, k, d.kinds[k].desc),
          d.kinds[k].desc, q);
      path := [k] + rest;
      assert path[1..] == rest;
    }
  }

  // A listed text that is no name is a text of a sub-message, below its name.
  lemma BelowSub(old_: Message, new_: Message, d: Desc, p: string) returns (k: string, q: string)
    requires WellFormed(d) && p in Differing(old_, new_, d) && p !in DifferingNames(old_, new_, d)
    ensures k in d.kinds && d.kinds[k].MessageKind? && WellFormed(d.kinds[k].desc) && p == k + "." + q
    ensures q in Differing(SubOrZero(old_, k, d.kinds[k].desc), SubOrZero(new_, k, d.kinds[k].desc), d.kinds[k].desc)
  {
    var subs := DifferingSubs(old_, new_, d);
    k, q :| k in subs && q in subs[k] && p == k + "." + q;
  }

  // Swapping the arguments lists the same paths.
  lemma {:induction false} DifferingSymmetric(old_: Message, new_: Message, d: Desc)
    requires WellFormed(d) && Conforms(old_, d) && Conforms(new_, d)
    ensures Differing(old_, new_, d) == Differing(new_, old_, d)
    decreases d
  {
    forall k | k in DifferingSubs(old_, new_, d)
      ensures DifferingSubs(old_, new_, d)[k] == DifferingSubs(new_, old_, d)[k]
    {
      SubTyped(old_, d, k);
      SubTyped(new_, d, k);
      DifferingSymmetric(SubOrZero(old_, k, d.kinds[k].desc), SubOrZero(new_, k, d.kinds[k].desc), d.kinds[k].desc);
    }
    assert DifferingNames(old_, new_, d) == DifferingNames(new_, old_, d);
    assert DifferingSubs(old_, new_, d) == DifferingSubs(new_, old_, d);
  }

  // A changed field changes its parent.
  lemma {:induction false} ParentDiffers(old_: Message, new_: Message, path: Path)
    requires |path| > 1 && FieldAt(old_, path) != FieldAt(new_, path)
    ensures FieldAt(old_, path[..|path| - 1]) != FieldAt(new_, path[..|path| - 1])
    decreases |path|
  {
    var k, parent := path[0], path[..|path| - 1];
    assert parent[0] == k;
    if |path| > 2 && k in old_.fields && k in new_.fields && old_.fields[k].Sub? && new_.fields[k].Sub? {
      ParentDiffers(old_.fields[k].msg, new_.fields[k].msg, path[1..]);
      assert path[1..][..|path| - 2] == parent[1..];
    } else if |path| > 2 {
      FieldAtParent(old_, path);
      FieldAtParent(new_, path);
    }
  }

  lemma {:induction false} FieldAtParent(m: Message, path: Path)
    requires |path| > 1
    ensures FieldAt(m, path[..|path| - 1]).None? ==> FieldAt(m, path).None?
    decreases |path|
  {
    var k, parent := path[0], path[..|path| - 1];
    if |path| > 2 && k in m.fields && m.fields[k].Sub? {
      assert path[1..][..|path| - 2] == parent[1..];
      FieldAtParent(m.fields[k].msg, path[1..]);
    }
  }

  // The list is exact: each differing declared path once, and nothing else.
  method Diff(old_: Message, new_: Message, d: Desc) returns (paths: seq<string>)
    requires WellFormed(d) && Conforms(old_, d) && Conforms(new_, d)
    ensures NoDuplicates(paths)
    ensures forall path | Declared(d, path) :: Join(path) in paths <==> FieldAt(old_, path) != FieldAt(new_, path)
    ensures forall p | p in paths :: exists path :: Declared(d, path) && Join(path) == p
    ensures paths == [] <==> old_ == new_
    ensures (set p | p in paths) == Differing(old_, new_, d)
  {
    ghost var rel;
    paths, rel := DiffFields(old_, new_, d, "", []);
    forall i | 0 <= i < |rel| ensures Prefixed("", rel)[i] == rel[i] {}
    assert paths == rel;
    forall path | Declared(d, path)
      ensures Join(path) in paths <==> FieldAt(old_, path) != FieldAt(new_, path)
    {
      DiffersExactly(old_, new_, d, path);
      assert Join(path) in paths <==> Join(path) in (set p | p in paths);
    }
    forall p | p in paths
      ensures exists path :: Declared(d, path) && Join(path) == p
    {
      assert p in (set p | p in paths);
      var path := DiffersDeclared(old_, new_, d, p);
    }
    NothingDiffers(old_, new_, d);
    if paths != [] { assert paths[0] in (set p | p in paths); }
  }

  // The listed paths are closed under ancestors.
  lemma AncestorsDiffer(old_: Message, new_: Message, d: Desc, path: Path)
    requires WellFormed(d) && Conforms(old_, d) && Conforms(new_, d)
    requires Declared(d, path) && |path| > 1 && Join(path) in Differing(old_, new_, d)
    ensures Join(path[..|path| - 1]) in Differing(old_, new_, d)
  {
    DiffersExactly(old_, new_, d, path);
    ParentDiffers(old_, new_, path);
    ParentDeclared(d, path);
    DiffersExactly(old_, new_, d, path[..|path| - 1]);
  }
}

// Merging, leaf by leaf, and its interplay with masks.
module LeafMerging {
  import opened Basics
  import opened Messages
  import opened Masks
  import opened MaskLaws
  import opened Merging

  // The leaf belongs to a Duration or Timestamp that is present and zero.
  predicate Zeroed(m: Message, path: Path) {
    |path| > 1 && ParentAt(m, path).Some? && ParentAt(m, path).value.timed && ParentAt(m, path).value.fields == map[]
  }

  // The message that holds the leaf, when it is present.
  function ParentAt(m: Message, path: Path): Option<Message> {
    if |path| <= 1 then None
    else match FieldAt(m, path[..|path| - 1])
      case Some(Sub(parent)) => Some(parent)
      case _ => None
  }

  lemma {:induction false} ParentBelow(m: Message, path: Path)
    requires |path| > 2
    ensures ParentAt(m, path) == if path[0] in m.fields && m.fields[path[0]].Sub?
            then ParentAt(m.fields[path[0]].msg, path[1..]) else None
  {
    var parent := path[..|path| - 1];
    assert parent[0] == path[0] && parent[1..] == path[1..][..|path[1..]| - 1];
  }

  lemma ParentDirect(m: Message, path: Path)
    requires |path| == 2
    ensures ParentAt(m, path) == if path[0] in m.fields && m.fields[path[0]].Sub? then Some(m.fields[path[0]].msg)
            else None
  {
  }

  // The message a sub-message of b is merged into has its type.
  lemma IntoTyped(a: Message, b: Message, d: Desc, k: string)
    requires WellFormed(d) && Conforms(a, d) && Conforms(b, d)
    requires k in b.fields && k in d.kinds && d.kinds[k].MessageKind?
    ensures b.fields[k].Sub? && Conforms(b.fields[k].msg, d.kinds[k].desc)
    ensures var into := Mutable(Lookup(a, k), b.fields[k].msg.timed);
            Conforms(into, d.kinds[k].desc) && into.timed == b.fields[k].msg.timed == d.kinds[k].desc.timed
    ensures k in a.fields ==> a.fields[k].Sub? && Conforms(a.fields[k].msg, d.kinds[k].desc)
  {
    assert FieldConforms(b.fields[k], d.kinds[k]);
    if k in a.fields { assert FieldConforms(a.fields[k], d.kinds[k]); }
  }

  lemma DeepIsUntimed(d: Desc, path: Path)
    requires WellFormed(d) && DeclaredLeaf(d, path) && |path| > 2
    ensures !d.kinds[path[0]].desc.timed
  {
    assert KindAt(d.kinds[path[0]].desc, path[1..]).Some?;
  }

  // The leaf of a merge: the source's, unless the source has none; then the destination's,
  // unless the source resets the Duration or Timestamp that holds it.
  lemma {:induction false} MergeLeaf(a: Message, b: Message, d: Desc, path: Path)
    requires WellFormed(d) && Conforms(a, d) && Conforms(b, d) && DeclaredLeaf(d, path)
    requires !d.timed || b.fields != map[]
    ensures LeafAt(Merge(a, b), path) ==
              if LeafAt(b, path).Some? then LeafAt(b, path) else if Zeroed(b, path) then None else LeafAt(a, path)
    decreases |path|, 1
  {
    var k := path[0];
    LookupMerge(a, b, k);
    if |path| > 1 {
      LeafStep(a, path);
      LeafStep(b, path);
      LeafStep(Merge(a, b), path);
      ZeroedStep(b, path);
      if k in b.fields {
        IntoTyped(a, b, d, k);
        MergeSubLeaf(a, b, d, path);
      }
    }
  }

  lemma {:induction false} MergeSubLeaf(a: Message, b: Message, d: Desc, path: Path)
    requires WellFormed(d) && Conforms(a, d) && Conforms(b, d) && DeclaredLeaf(d, path) && |path| > 1
    requires path[0] in b.fields && b.fields[path[0]].Sub?
    ensures var sub := b.fields[path[0]].msg;
            var into := Mutable(Lookup(a, path[0]), sub.timed);
            LeafAt(Merge(into, sub), path[1..]) ==
              if LeafAt(sub, path[1..]).Some? then LeafAt(sub, path[1..])
              else if (|path| == 2 && sub.timed && sub.fields == map[]) || Zeroed(sub, path[1..]) then None
              else LeafAt(into, path[1..])
    decreases |path|, 0
  {
    var k, sd := path[0], d.kinds[path[0]].desc;
    var sub := b.fields[k].msg;
    IntoTyped(a, b, d, k);
    if |path| > 2 { DeepIsUntimed(d, path); }
    if sub.timed && sub.fields == map[] {
    } else {
      MergeLeaf(Mutable(Lookup(a, k), sub.timed), sub, sd, path[1..]);
    }
  }

  lemma LeafStep(m: Message, path: Path)
    requires |path| > 1
    ensures LeafAt(m, path) == if path[0] in m.fields && m.fields[path[0]].Sub?
            then LeafAt(m.fields[path[0]].msg, path[1..]) else None
  {
  }

  lemma ZeroedStep(m: Message, path: Path)
    requires |path| > 1
    ensures Zeroed(m, path) <==>
              && path[0] in m.fields && m.fields[path[0]].Sub?
              && if |path| == 2 then m.fields[path[0]].msg.timed && m.fields[path[0]].msg.fields == map[]
                 else Zeroed(m.fields[path[0]].msg, path[1..])
  {
    if |path| > 2 { ParentBelow(m, path); } else { ParentDirect(m, path); }
  }

  // The holder of a leaf in a merge.
  lemma {:induction false} MergeParent(a: Message, b: Message, d: Desc, path: Path)
    requires WellFormed(d) && Conforms(a, d) && Conforms(b, d) && DeclaredLeaf(d, path)
    requires !d.timed
    ensures Zeroed(Merge(a, b), path) <==> Zeroed(b, path) || (Zeroed(a, path) && ParentAt(b, path).None?)
    decreases |path|
  {
    if |path| > 1 {
      var k := path[0];
      var sd := d.kinds[k].desc;
      LookupMerge(a, b, k);
      ZeroedStep(a, path);
      ZeroedStep(b, path);
      ZeroedStep(Merge(a, b), path);
      if k in b.fields { IntoTyped(a, b, d, k); }
      hide Conforms, WellFormed, Merge, Zeroed;
      if |path| == 2 {
        ParentDirect(b, path);
        if k in b.fields { MergedEmptiness(Mutable(Lookup(a, k), b.fields[k].msg.timed), b.fields[k].msg); }
      } else {
        ParentBelow(b, path);
        DeepIsUntimed(d, path);
        if k in b.fields {
          var into := Mutable(Lookup(a, k), b.fields[k].msg.timed);
          SubWellFormed(d, k);
          MergeParent(into, b.fields[k].msg, sd, path[1..]);
          if k !in a.fields { NothingZeroed(into, path[1..]); }
        }
      }
    }
  }

  lemma SubWellFormed(d: Desc, k: string)
    requires WellFormed(d) && k in d.kinds && d.kinds[k].MessageKind?
    ensures WellFormed(d.kinds[k].desc)
  {
  }

  lemma MergedEmptiness(a: Message, b: Message)
    requires b.timed == a.timed
    ensures Merge(a, b).timed == a.timed
    ensures Merge(a, b).fields == map[] <==> b.fields == map[] && (a.timed || a.fields == map[])
  {
  }

  lemma NothingZeroed(m: Message, path: Path)
    requires m.fields == map[]
    ensures !Zeroed(m, path)
  {
  }

  // ----- Keep -----

  lemma {:induction false} KeepConforms(m: Message, d: Desc, mask: Mask)
    requires Conforms(m, d)
    ensures Conforms(Keep(m, mask), d)
    decreases m
  {
    var out := Keep(m, mask);
    forall k | k in out.fields
      ensures k in d.kinds && FieldConforms(out.fields[k], d.kinds[k])
    {
      FieldByField(m, mask, k);
      assert FieldConforms(m.fields[k], d.kinds[k]);
      if m.fields[k].Sub? { KeepConforms(m.fields[k].msg, d.kinds[k].desc, Below(mask, k)); }
    }
  }

  // What a mask names is kept whole.
  lemma {:induction false} KeepNamed(m: Message, mask: Mask, path: Path)
    requires Names(mask, path)
    ensures FieldAt(Keep(m, mask), path) == FieldAt(m, path)
    decreases |path|
  {
    var k := path[0];
    NamesBelow(mask, path);
    FieldByField(m, mask, k);
    if k in m.fields {
      if k in mask {
        assert k <= k;
      } else {
        NamedIsReached(mask, path);
        if m.fields[k].Sub? {
          KeepNamed(m.fields[k].msg, Below(mask, k), path[1..]);
        }
      }
    }
  }

  lemma {:induction false} NamedIsReached(mask: Mask, path: Path)
    requires Names(mask, path)
    ensures HasPrefix(mask, path[0])
    decreases |path|
  {
  }

  // A zero Duration or Timestamp survives only when the mask names it or an ancestor.
  lemma {:induction false} KeepZeroed(m: Message, mask: Mask, path: Path)
    requires |path| > 1
    ensures Zeroed(Keep(m, mask), path) <==> Zeroed(m, path) && Names(mask, path[..|path| - 1])
    decreases |path|
  {
    var k, parent := path[0], path[..|path| - 1];
    FieldByField(m, mask, k);
    NamesBelow(mask, parent);
    ZeroedStep(m, path);
    ZeroedStep(Keep(m, mask), path);
    if k in mask { assert k <= k; }
    if |path| > 2 {
      assert parent[1..] == path[1..][..|path[1..]| - 1];
      if Names(mask, parent) { NamedIsReached(mask, parent); }
      if k in m.fields && m.fields[k].Sub? && k !in mask {
        KeepZeroed(m.fields[k].msg, Below(mask, k), path[1..]);
        var sub := Keep(m.fields[k].msg, Below(mask, k));
        if sub.fields == map[] { NothingZeroed(sub, path[1..]); }
      }
    } else if k in m.fields && m.fields[k].Sub? && m.fields[k].msg.fields == map[] && k !in mask {
      assert Keep(m.fields[k].msg, Below(mask, k)).fields == map[];
    }
  }
}

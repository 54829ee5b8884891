// What restricting a message by a mask means: leaf by leaf, for the two halves together, and for
// masks that are valid for a type.
module MaskLaws {
  import opened Basics
  import opened Messages
  import opened Masks
  import opened Merging

  // ----- Leaf semantics -----

  // The mask covers a path: it names one of the path's ancestors, or some text that
  // starts with the path's own.
  predicate Covers(mask: Mask, path: Path)
    decreases |path|
  {
    if path == [] then false
    else if |path| == 1 then HasPrefix(mask, path[0])
    else path[0] in mask || Covers(Below(mask, path[0]), path[1..])
  }

  lemma {:induction false} CoveredIsReached(mask: Mask, path: Path)
    requires Covers(mask, path)
    ensures HasPrefix(mask, path[0])
    decreases |path|
  {
    if |path| > 1 && path[0] !in mask {
      CoveredIsReached(Below(mask, path[0]), path[1..]);
      var r :| r in Below(mask, path[0]) && path[1] <= r;
      InRelative(mask, path[0] + ".", r);
      assert path[0] <= path[0] + "." + r;
    }
  }

  // The two functions field by field.
  lemma FieldByField(m: Message, mask: Mask, k: string)
    ensures k !in m.fields ==> k !in Keep(m, mask).fields && k !in Discard(m, mask).fields
    ensures k in m.fields ==> Lookup(Keep(m, mask), k) == KeepField(m.fields[k], k, mask)
    ensures k in m.fields ==> Lookup(Discard(m, mask), k) == DiscardField(m.fields[k], k, mask)
  {
  }

  // Keeping leaves exactly the covered leaves.
  lemma {:induction false} KeepLeaves(m: Message, mask: Mask, path: Path)
    ensures LeafAt(Keep(m, mask), path) == if Covers(mask, path) then LeafAt(m, path) else None
    decreases |path|
  {
    if path != [] {
      var k := path[0];
      FieldByField(m, mask, k);
      if k in m.fields && |path| > 1 {
        var f := m.fields[k];
        if Covers(mask, path) { CoveredIsReached(mask, path); }
        if f.Sub? && HasPrefix(mask, k) && k !in mask {
          KeepLeaves(f.msg, Below(mask, k), path[1..]);
          assert LeafAt(m, path) == LeafAt(f.msg, path[1..]);
        }
      }
    }
  }

  // Discarding leaves exactly the leaves that are not covered.
  lemma {:induction false} DiscardLeaves(m: Message, mask: Mask, path: Path)
    ensures LeafAt(Discard(m, mask), path) == if Covers(mask, path) then None else LeafAt(m, path)
    decreases |path|
  {
    if path != [] {
      var k := path[0];
      FieldByField(m, mask, k);
      if k in m.fields && |path| > 1 {
        var f := m.fields[k];
        if Covers(mask, path) { CoveredIsReached(mask, path); }
        if f.Sub? && HasPrefix(mask, k) && k !in mask {
          DiscardLeaves(f.msg, Below(mask, k), path[1..]);
          assert LeafAt(m, path) == LeafAt(f.msg, path[1..]);
        }
      }
    }
  }

  // Every leaf survives in exactly one of the two results, unchanged.
  lemma Partition(m: Message, mask: Mask, path: Path)
    ensures var kept, dropped := LeafAt(Keep(m, mask), path), LeafAt(Discard(m, mask), path);
            LeafAt(m, path).Some? ==>
              (kept == LeafAt(m, path) && dropped.None?) || (kept.None? && dropped == LeafAt(m, path))
    ensures LeafAt(m, path).None? ==> LeafAt(Keep(m, mask), path).None? && LeafAt(Discard(m, mask), path).None?
  {
    KeepLeaves(m, mask, path);
    DiscardLeaves(m, mask, path);
  }

  // The mask reaches into a sub-message without naming it, and there is nothing in it, or the same
  // happens further down.
  ghost predicate Loses(mask: Mask, m: Message)
    decreases m, 1
  {
    exists k :: k in m.fields && FieldLoses(mask, m.fields[k], k)
  }

  ghost predicate FieldLoses(mask: Mask, f: Field, k: string)
    decreases f, 0
  {
    && f.Sub? && HasPrefix(mask, k) && k !in mask
    && (f.msg.fields == map[] || Loses(Below(mask, k), f.msg))
  }

  // Merging what was discarded, if anything, into what was kept gives the message back.
  ghost predicate Restored(m: Message, mask: Mask) {
    var kept, dropped := Keep(m, mask), Discard(m, mask);
    m == if dropped.fields == map[] then kept else Merge(kept, dropped)
  }

  ghost predicate FieldRestored(f: Field, k: string, mask: Mask) {
    var kept, dropped := KeepField(f, k, mask), DiscardField(f, k, mask);
    if dropped.None? then kept == Some(f) else MergeField(kept, dropped.value) == f
  }

  lemma {:induction false} RestoredExactly(m: Message, mask: Mask)
    ensures Restored(m, mask) <==> !Loses(mask, m)
    decreases m, 1
  {
    forall k | k in m.fields
      ensures FieldRestored(m.fields[k], k, mask) <==> !FieldLoses(mask, m.fields[k], k)
    {
      FieldRestoredExactly(m.fields[k], k, mask);
    }
    hide FieldLoses;
    FieldsRestored(m, mask);
  }

  lemma {:induction false} FieldRestoredExactly(f: Field, k: string, mask: Mask)
    ensures FieldRestored(f, k, mask) <==> !FieldLoses(mask, f, k)
    decreases f, 0
  {
    if f.Sub? {
      var below := Below(mask, k);
      if !HasPrefix(mask, k) {
        MergeIntoEmpty(f.msg);
      } else if k !in mask {
        RestoredExactly(f.msg, below);
        hide Loses, Merge;
        EmptyHalves(f.msg, below);
      }
    }
  }

  lemma EmptyHalves(m: Message, mask: Mask)
    ensures Keep(m, mask).timed == Discard(m, mask).timed == m.timed
    ensures m.fields == map[] ==> Keep(m, mask).fields == Discard(m, mask).fields == map[]
  {
  }

  // A message is restored when each of its fields is.
  lemma FieldsRestored(m: Message, mask: Mask)
    ensures Restored(m, mask) <==> forall k | k in m.fields :: FieldRestored(m.fields[k], k, mask)
  {
    var kept, dropped := Keep(m, mask), Discard(m, mask);
    var whole := if dropped.fields == map[] then kept else Merge(kept, dropped);
    EmptyHalves(m, mask);
    hide KeepField, DiscardField, Keep, Discard, Merge;
    forall k
      ensures k in m.fields ==> (FieldRestored(m.fields[k], k, mask) <==> Lookup(whole, k) == Some(m.fields[k]))
      ensures k !in m.fields ==> Lookup(whole, k) == None
    {
      FieldByField(m, mask, k);
      if dropped.fields != map[] { LookupMerge(kept, dropped, k); }
    }
    hide FieldRestored;
    if dropped.fields != map[] { LookupMerge(kept, dropped, ""); }
    if k :| k in m.fields && !FieldRestored(m.fields[k], k, mask) {
      assert Lookup(whole, k) != Some(m.fields[k]);
    }
    if forall k | k in m.fields :: FieldRestored(m.fields[k], k, mask) {
      forall k
        ensures k in whole.fields <==> k in m.fields
        ensures k in m.fields ==> whole.fields[k] == m.fields[k]
      {
        assert k in m.fields ==> Lookup(whole, k) == Some(m.fields[k]);
      }
      assert whole.fields == m.fields;
    }
  }

  // Merging the two halves restores the message exactly when the mask loses no sub-message.
  lemma HalvesRestoreExactly(m: Message, mask: Mask)
    requires !m.timed
    ensures Merge(Keep(m, mask), Discard(m, mask)) == m <==> !Loses(mask, m)
  {
    RestoredExactly(m, mask);
    EmptyHalves(m, mask);
    MergeEmpty(Keep(m, mask), false);
    hide Keep, Discard, Merge;
    assert Discard(m, mask).fields == map[] ==> Discard(m, mask) == EmptyMessage(false);
  }

  lemma {:induction false} NothingToLose(m: Message, mask: Mask)
    requires NoEmptySub(m)
    ensures !Loses(mask, m)
    decreases m
  {
    forall k | k in m.fields && m.fields[k].Sub?
      ensures !FieldLoses(mask, m.fields[k], k)
    {
      NothingToLose(m.fields[k].msg, Below(mask, k));
    }
  }

  // No mask loses anything when no sub-message is present but empty; otherwise some mask does.
  lemma {:induction false} EmptySubIsLost(m: Message, d: Desc) returns (mask: Mask)
    requires WellFormed(d) && Conforms(m, d) && !NoEmptySub(m)
    ensures mask != {} && Loses(mask, m)
    decreases m
  {
    if k :| k in m.fields && m.fields[k].Sub? && m.fields[k].msg.fields == map[] {
      mask := {k + "."};
      assert k <= k + "." && k != k + ".";
      assert FieldLoses(mask, m.fields[k], k);
    } else {
      var k :| k in m.fields && m.fields[k].Sub? && !NoEmptySub(m.fields[k].msg);
      assert FieldConforms(m.fields[k], d.kinds[k]);
      var inner := EmptySubIsLost(m.fields[k].msg, d.kinds[k].desc);
      mask := Nest(k, inner);
      NestAt(k, inner);
      assert FieldLoses(mask, m.fields[k], k);
    }
  }

  // For every set of texts the halves restore m, exactly when no sub-message is present but empty.
  lemma RestoringExactly(m: Message, d: Desc)
    requires WellFormed(d) && Conforms(m, d) && !m.timed
    ensures NoEmptySub(m) <==> forall mask :: Merge(Keep(m, mask), Discard(m, mask)) == m
  {
    if NoEmptySub(m) {
      forall mask
        ensures Merge(Keep(m, mask), Discard(m, mask)) == m
      {
        NothingToLose(m, mask);
        HalvesRestoreExactly(m, mask);
      }
    } else {
      var mask := EmptySubIsLost(m, d);
      HalvesRestoreExactly(m, mask);
    }
  }

  // A valid mask reaches into sub-message k without naming it through a field that k's type
  // declares, or through a sibling whose name k's starts.
  predicate Reachable(d: Desc, k: string)
    requires k in d.kinds && d.kinds[k].MessageKind?
  {
    d.kinds[k].desc.kinds != map[] || exists j :: j in d.kinds && j != k && k <= j
  }

  // Some present but empty sub-message can be reached.
  ghost predicate Losable(m: Message, d: Desc)
    decreases m, 1
  {
    exists k :: k in m.fields && k in d.kinds && FieldLosable(m.fields[k], d, k)
  }

  ghost predicate FieldLosable(f: Field, d: Desc, k: string)
    requires k in d.kinds
    decreases f, 0
  {
    && f.Sub? && d.kinds[k].MessageKind?
    && if f.msg.fields == map[] then Reachable(d, k) else Losable(f.msg, d.kinds[k].desc)
  }

  lemma {:induction false} LostIsLosable(m: Message, d: Desc, mask: Mask)
    requires WellFormed(d) && Conforms(m, d) && ValidMask(mask, d) && Loses(mask, m)
    ensures Losable(m, d)
    decreases m
  {
    var k :| k in m.fields && FieldLoses(mask, m.fields[k], k);
    assert FieldConforms(m.fields[k], d.kinds[k]);
    if m.fields[k].msg.fields == map[] {
      var p :| p in mask && k <= p;
      StartsWith(d, k, p);
    } else {
      ValidBelow(mask, d, k);
      LostIsLosable(m.fields[k].msg, d.kinds[k].desc, Below(mask, k));
    }
    assert FieldLosable(m.fields[k], d, k);
  }

  lemma {:induction false} LosableIsLost(m: Message, d: Desc) returns (mask: Mask)
    requires WellFormed(d) && Conforms(m, d) && Losable(m, d)
    ensures mask != {} && ValidMask(mask, d) && Loses(mask, m)
    decreases m
  {
    var k :| k in m.fields && k in d.kinds && FieldLosable(m.fields[k], d, k);
    var sub, sd := m.fields[k].msg, d.kinds[k].desc;
    assert FieldConforms(m.fields[k], d.kinds[k]);
    hide AllPaths, HasPrefix, Below;
    if sub.fields == map[] {
      mask := ReachingMask(d, k);
    } else {
      var inner := LosableIsLost(sub, sd);
      mask := Nest(k, inner);
      NestAt(k, inner);
      NestValid(d, k, inner);
    }
    assert FieldLoses(mask, m.fields[k], k);
  }

  lemma ReachingMask(d: Desc, k: string) returns (mask: Mask)
    requires WellFormed(d) && k in d.kinds && d.kinds[k].MessageKind? && Reachable(d, k)
    ensures mask != {} && ValidMask(mask, d) && HasPrefix(mask, k) && k !in mask
  {
    if j :| j in d.kinds && j != k && k <= j {
      mask := {j};
      BelowAllPaths(d, j);
    } else {
      var n :| n in d.kinds[k].desc.kinds;
      BelowAllPaths(d.kinds[k].desc, n);
      NestAt(k, {n});
      NestValid(d, k, {n});
      mask := Nest(k, {n});
    }
  }

  // For every valid mask the halves restore m, exactly when no present but empty sub-message
  // can be reached.
  lemma RestoringValidExactly(m: Message, d: Desc)
    requires WellFormed(d) && Conforms(m, d) && !m.timed
    ensures !Losable(m, d) <==> forall mask | ValidMask(mask, d) :: Merge(Keep(m, mask), Discard(m, mask)) == m
  {
    if Losable(m, d) {
      var mask := LosableIsLost(m, d);
      HalvesRestoreExactly(m, mask);
    } else {
      forall mask | ValidMask(mask, d)
        ensures Merge(Keep(m, mask), Discard(m, mask)) == m
      {
        HalvesRestoreExactly(m, mask);
        if Loses(mask, m) { LostIsLosable(m, d, mask); }
      }
    }
  }

  // ----- Covering by text and naming by segments -----

  // The mask names the path or one of its ancestors.
  predicate Names(mask: Mask, path: Path) {
    exists i | 0 < i <= |path| :: Join(path[..i]) in mask
  }

  lemma {:induction false} NamesBelow(mask: Mask, path: Path)
    requires path != []
    ensures Names(mask, path) <==> path[0] in mask || (|path| > 1 && Names(Below(mask, path[0]), path[1..]))
  {
    var k, below := path[0], Below(mask, path[0]);
    forall i | 1 < i <= |path|
      ensures Join(path[..i]) in mask <==> Join(path[1..][..i - 1]) in below
    {
      assert path[..i][0] == k && path[..i][1..] == path[1..][..i - 1];
      InRelative(mask, k + ".", Join(path[1..][..i - 1]));
    }
    if Names(mask, path) {
      var i :| 0 < i <= |path| && Join(path[..i]) in mask;
      if i == 1 { assert path[..1] == [k]; } else { assert 0 < i - 1 <= |path[1..]|; }
    }
    if k in mask { assert path[..1] == [k] && Join(path[..1]) in mask; }
    if |path| > 1 && Names(below, path[1..]) {
      var i :| 0 < i <= |path[1..]| && Join(path[1..][..i]) in below;
      assert Join(path[..i + 1]) in mask;
    }
  }

  // Every text path of a type.
  function AllPaths(d: Desc): set<string> {
    PathSet(d.kinds.Keys, map k | k in d.kinds && d.kinds[k].MessageKind? :: AllPaths(d.kinds[k].desc))
  }

  // They are the texts of the declared paths.
  lemma AllPathsDeclared(d: Desc, p: string)
    requires WellFormed(d)
    ensures p in AllPaths(d) <==> exists path :: Declared(d, path) && Join(path) == p
  {
    hide AllPaths, WellFormed, Declared, Join;
    if p in AllPaths(d) { var path := ListedIsDeclared(d, p); }
    if path :| Declared(d, path) && Join(path) == p { DeclaredIsListed(d, path); }
  }

  lemma {:induction false} ListedIsDeclared(d: Desc, p: string) returns (path: Path)
    requires WellFormed(d) && p in AllPaths(d)
    ensures Declared(d, path) && Join(path) == p
    decreases d
  {
    hide AllPaths, WellFormed;
    if p in d.kinds {
      path := [p];
    } else {
      var k, q := BelowName(d, p);
      var rest := ListedIsDeclared(d.kinds[k].desc, q);
      path := [k] + rest;
      assert path[1..] == rest;
    }
  }

  lemma BelowName(d: Desc, p: string) returns (k: string, q: string)
    requires WellFormed(d) && p in AllPaths(d) && p !in d.kinds
    ensures k in d.kinds && d.kinds[k].MessageKind? && p == k + "." + q && q in AllPaths(d.kinds[k].desc)
    ensures WellFormed(d.kinds[k].desc)
  {
    var subs := map n | n in d.kinds && d.kinds[n].MessageKind? :: AllPaths(d.kinds[n].desc);
    k, q :| k in subs && q in subs[k] && p == k + "." + q;
  }

  lemma {:induction false} DeclaredIsListed(d: Desc, path: Path)
    requires WellFormed(d) && Declared(d, path)
    ensures Join(path) in AllPaths(d)
    decreases |path|
  {
    var k := path[0];
    BelowAllPaths(d, k);
    if |path| > 1 {
      DeclaredIsListed(d.kinds[k].desc, path[1..]);
      InRelative(AllPaths(d), k + ".", Join(path[1..]));
    }
  }

  // What FieldMask.IsValid checks.
  predicate ValidMask(mask: Mask, d: Desc) { mask <= AllPaths(d) }

  // No leaf's name is a proper prefix of a sibling's name.
  ghost predicate LeafPrefixFree(d: Desc) {
    && (forall a, b | a in d.kinds && b in d.kinds && d.kinds[a].LeafKind? && a <= b :: a == b)
    && (forall k | k in d.kinds && d.kinds[k].MessageKind? :: LeafPrefixFree(d.kinds[k].desc))
  }

  lemma BelowAllPaths(d: Desc, k: string)
    requires WellFormed(d) && NoDot(k)
    ensures k in AllPaths(d) <==> k in d.kinds
    ensures Below(AllPaths(d), k) == if k in d.kinds && d.kinds[k].MessageKind? then AllPaths(d.kinds[k].desc) else {}
  {
    PathSetAt(d.kinds.Keys, map n | n in d.kinds && d.kinds[n].MessageKind? :: AllPaths(d.kinds[n].desc), k);
  }

  lemma ValidBelow(mask: Mask, d: Desc, k: string)
    requires WellFormed(d) && ValidMask(mask, d) && k in d.kinds && d.kinds[k].MessageKind?
    ensures ValidMask(Below(mask, k), d.kinds[k].desc)
  {
    BelowAllPaths(d, k);
    forall r | r in Below(mask, k)
      ensures r in AllPaths(d.kinds[k].desc)
    {
      InRelative(mask, k + ".", r);
      InRelative(AllPaths(d), k + ".", r);
    }
  }

  // A valid mask covers a leaf exactly when it names it, as long as names are leaf-prefix-free.
  lemma {:induction false} CoveringIsNaming(mask: Mask, d: Desc, path: Path)
    requires WellFormed(d) && LeafPrefixFree(d) && ValidMask(mask, d) && DeclaredLeaf(d, path)
    ensures Covers(mask, path) <==> Names(mask, path)
    decreases |path|
  {
    var k := path[0];
    NamesBelow(mask, path);
    if |path| == 1 {
      if HasPrefix(mask, k) {
        var p :| p in mask && k <= p;
        StartsWith(d, k, p);
      }
    } else {
      ValidBelow(mask, d, k);
      CoveringIsNaming(Below(mask, k), d.kinds[k].desc, path[1..]);
    }
  }

  // A declared text that starts with a field's name is that name, is below it, or belongs to a
  // sibling whose name starts with it.
  lemma StartsWith(d: Desc, k: string, p: string)
    requires WellFormed(d) && k in d.kinds
    requires p in AllPaths(d) && k <= p
    ensures p == k || (exists j :: j in d.kinds && j != k && k <= j) ||
            (d.kinds[k].MessageKind? && d.kinds[k].desc.kinds != map[])
  {
    if p !in d.kinds {
      var subs := map n | n in d.kinds && d.kinds[n].MessageKind? :: AllPaths(d.kinds[n].desc);
      var j, q :| j in subs && q in subs[j] && p == j + "." + q;
      DottedPrefix(k, j, q);
      if j == k { SomeFieldDeclared(d.kinds[k].desc, q); }
    }
  }

  lemma SomeFieldDeclared(d: Desc, p: string)
    requires p in AllPaths(d)
    ensures d.kinds != map[]
  {
  }

  // The hypothesis is exact: when one leaf's name starts another name, some valid mask
  // covers a leaf it does not name.
  lemma {:induction false} ShadowWitness(d: Desc) returns (mask: Mask, path: Path)
    requires WellFormed(d) && !LeafPrefixFree(d)
    ensures ValidMask(mask, d) && DeclaredLeaf(d, path) && mask != {}
    ensures Covers(mask, path) && !Names(mask, path)
    decreases d
  {
    if a, b :| a in d.kinds && b in d.kinds && d.kinds[a].LeafKind? && a <= b && a != b {
      mask, path := {b}, [a];
      BelowAllPaths(d, b);
      NamesBelow(mask, path);
    } else {
      var k :| k in d.kinds && d.kinds[k].MessageKind? && !LeafPrefixFree(d.kinds[k].desc);
      var inner, rest := ShadowWitness(d.kinds[k].desc);
      mask, path := Nest(k, inner), [k] + rest;
      assert path[0] == k && path[1..] == rest;
      NestAt(k, inner);
      NamesBelow(mask, path);
      NestValid(d, k, inner);
    }
  }

  lemma NestValid(d: Desc, k: string, inner: Mask)
    requires WellFormed(d) && k in d.kinds && d.kinds[k].MessageKind? && ValidMask(inner, d.kinds[k].desc)
    ensures ValidMask(Nest(k, inner), d)
  {
    forall p | p in Nest(k, inner)
      ensures p in AllPaths(d)
    {
      var r :| r in inner && p == k + "." + r;
      BelowAllPaths(d, k);
      InRelative(AllPaths(d), k + ".", r);
    }
  }

  lemma CoveringIsNamingExactly(d: Desc)
    requires WellFormed(d)
    ensures LeafPrefixFree(d) <==>
              forall mask, path | ValidMask(mask, d) && DeclaredLeaf(d, path) ::
                Covers(mask, path) <==> Names(mask, path)
  {
    if LeafPrefixFree(d) {
      forall mask, path | ValidMask(mask, d) && DeclaredLeaf(d, path)
        ensures Covers(mask, path) <==> Names(mask, path)
      {
        CoveringIsNaming(mask, d, path);
      }
    } else {
      var mask, path := ShadowWitness(d);
    }
  }
}

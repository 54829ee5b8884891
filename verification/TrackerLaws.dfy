// What the tracker's operations mean, over every state of its two stores.
module TrackerLaws {
  import opened Basics
  import opened Messages
  import opened Masks
  import opened MaskLaws
  import opened Presence
  import opened Merging
  import opened LeafMerging
  import opened StoreLog
  import opened Configs
  import opened TrackerSpec

  // ----- Reset, leaf by leaf -----

  // The leaf that Reset stores. covered: the mask names the leaf or an ancestor; whole: it names
  // the message that holds the leaf, or an ancestor of that. A Duration or Timestamp kept whole and
  // explicitly zero overrides what it is merged over.
  function ResetLeaf(default_: Message, active: Message, patch: Message, covered: bool, whole: bool, path: Path)
    : Option<Field>
  {
    if covered && LeafAt(patch, path).Some? then LeafAt(patch, path)
    else if whole && Zeroed(patch, path) then None
    else if covered && LeafAt(active, path).Some? then LeafAt(active, path)
    else if whole && Zeroed(active, path) && ParentAt(patch, path).None? then None
    else LeafAt(default_, path)
  }

  predicate NamesParent(mask: Mask, path: Path) { |path| > 1 && Names(mask, path[..|path| - 1]) }

  // Two keeps and two merges, for any covering mask.
  lemma ResetByCovering(default_: Message, active: Message, patch: Message, mask: Mask, d: Desc, path: Path)
    requires WellFormed(d) && !d.timed && DeclaredLeaf(d, path)
    requires Conforms(default_, d) && Conforms(active, d) && Conforms(patch, d)
    ensures LeafAt(ResetValue(default_, active, patch, mask), path) ==
              ResetLeaf(default_, active, patch, Covers(mask, path), NamesParent(mask, path), path)
  {
    hide LeafAt, FieldAt, Merge, Keep, Conforms, WellFormed, Covers, Names;
    var ka, kp := Keep(active, mask), Keep(patch, mask);
    KeepConforms(active, d, mask);
    KeepConforms(patch, d, mask);
    MergeConforms(ka, kp, d);
    MergeLeaf(ka, kp, d, path);
    MergeParent(ka, kp, d, path);
    MergeLeaf(default_, Merge(ka, kp), d, path);
    KeepLeaves(active, mask, path);
    KeepLeaves(patch, mask, path);
    if |path| > 1 {
      KeepZeroed(active, mask, path);
      KeepZeroed(patch, mask, path);
      if NamesParent(mask, path) { KeepNamed(patch, mask, path[..|path| - 1]); }
    }
  }

  // With a valid mask and names none of which is a leaf's name extended, covering is naming.
  lemma ResetLeaves(default_: Message, active: Message, patch: Message, mask: Mask, d: Desc, path: Path)
    requires WellFormed(d) && !d.timed && DeclaredLeaf(d, path)
    requires Conforms(default_, d) && Conforms(active, d) && Conforms(patch, d)
    requires LeafPrefixFree(d) && ValidMask(mask, d)
    ensures LeafAt(ResetValue(default_, active, patch, mask), path) ==
              ResetLeaf(default_, active, patch, Names(mask, path), NamesParent(mask, path), path)
  {
    ResetByCovering(default_, active, patch, mask, d, path);
    CoveringIsNaming(mask, d, path);
  }

  // Without explicitly zero times: patch, else active, where the mask covers; default elsewhere.
  lemma ResetLeavesPlain(default_: Message, active: Message, patch: Message, mask: Mask, d: Desc, path: Path)
    requires WellFormed(d) && !d.timed && DeclaredLeaf(d, path)
    requires Conforms(default_, d) && Conforms(active, d) && Conforms(patch, d)
    requires LeafPrefixFree(d) && ValidMask(mask, d)
    requires NoZeroTime(active) && NoZeroTime(patch)
    ensures LeafAt(ResetValue(default_, active, patch, mask), path) ==
              if Names(mask, path) && LeafAt(patch, path).Some? then LeafAt(patch, path)
              else if Names(mask, path) && LeafAt(active, path).Some? then LeafAt(active, path)
              else LeafAt(default_, path)
  {
    ResetLeaves(default_, active, patch, mask, d, path);
    NoZeroTimeNothingZeroed(active, path);
    NoZeroTimeNothingZeroed(patch, path);
  }

  lemma {:induction false} NoZeroTimeNothingZeroed(m: Message, path: Path)
    requires NoZeroTime(m)
    ensures !Zeroed(m, path)
    decreases |path|
  {
    if |path| > 1 {
      ZeroedStep(m, path);
      if |path| > 2 && path[0] in m.fields && m.fields[path[0]].Sub? {
        NoZeroTimeNothingZeroed(m.fields[path[0]].msg, path[1..]);
      }
    }
  }

  // A successful Reset with a mask stores that value, with the patch's secrets resolved from the
  // kept part of the active config.
  lemma ResetStores(t: ConfigType, s: Stores, mask: Mask, patch: Message, at: Option<int>, path: Path)
    requires ValidStores(t, s) && Conforms(patch, t.desc)
    requires LeafPrefixFree(t.desc) && DeclaredLeaf(t.desc, path)
    requires Reset(t, s, Some(mask), patch, at).Ok?
    ensures var stored := Reset(t, s, Some(mask), patch, at).value;
            var active, default_, norm := ReadLog(s.active, at).value.value, DefaultConfig(t, s, None).value.config,
                Normalize(mask);
            && stored.Stored? && ValidMask(norm, t.desc)
            && LeafAt(stored.config, path) ==
                 ResetLeaf(default_, active, Restore(patch, Keep(active, norm), t.secrets), Names(norm, path),
                     NamesParent(norm, path), path)
  {
    hide LeafAt, Merge, Keep, Conforms, WellFormed, Normalize, ValidMask, LeafPrefixFree;
    var active, norm := ReadLog(s.active, at).value.value, Normalize(mask);
    RestoreConforms(patch, Keep(active, norm), t);
    ReadTyped(t, s);
    ResetLeaves(DefaultConfig(t, s, None).value.config, active, Restore(patch, Keep(active, norm), t.secrets), norm,
        t.desc, path);
  }

  // Reads give messages of the type.
  lemma ReadTyped(t: ConfigType, s: Stores)
    requires ValidStores(t, s)
    ensures forall at | ReadLog(s.active, at).Ok? :: Conforms(ReadLog(s.active, at).value.value, t.desc)
    ensures forall at | DefaultConfig(t, s, at).Ok? :: Conforms(DefaultConfig(t, s, at).value.config, t.desc)
    ensures forall at | ActiveOrDefault(t, s, at).Ok? :: Conforms(ActiveOrDefault(t, s, at).value.config, t.desc)
  {
  }

  // ----- Rollback -----

  // The mask of present fields names exactly the leaves that are present, and no message.
  lemma {:induction false} PresentNamesLeaves(m: Message, d: Desc, path: Path)
    requires WellFormed(d) && Conforms(m, d) && Declared(d, path)
    ensures Names(Present(m), path) <==> LeafAt(m, path).Some?
    decreases |path|
  {
    var k := path[0];
    NamesBelow(Present(m), path);
    PresentAt(m, d, k);
    if k in m.fields { assert FieldConforms(m.fields[k], d.kinds[k]); }
    if |path| > 1 {
      LeafStep(m, path);
      if k in m.fields && m.fields[k].Sub? {
        PresentNamesLeaves(m.fields[k].msg, d.kinds[k].desc, path[1..]);
      } else {
        NothingNamed(path[1..]);
      }
    }
  }

  lemma NothingNamed(path: Path)
    ensures !Names({}, path)
  {
  }

  lemma {:induction false} PresentIsValid(m: Message, d: Desc)
    requires WellFormed(d) && Conforms(m, d)
    ensures ValidMask(Present(m), d)
    decreases m
  {
    forall p | p in Present(m)
      ensures p in AllPaths(d)
    {
      if p in PresentNames(m) {
        BelowAllPaths(d, p);
      } else {
        var k, q :| k in PresentSubs(m) && q in PresentSubs(m)[k] && p == k + "." + q;
        assert FieldConforms(m.fields[k], d.kinds[k]);
        PresentIsValid(m.fields[k].msg, d.kinds[k].desc);
        BelowAllPaths(d, k);
        InRelative(AllPaths(d), k + ".", q);
      }
    }
  }

  // Resetting to an earlier config, with the mask of its present fields and the config as patch,
  // stores its leaves, secrets resolved, over the default. Nothing else of the active config is left.
  lemma RollbackStores(t: ConfigType, s: Stores, target: Message, at: Option<int>, path: Path)
    requires ValidStores(t, s) && Conforms(target, t.desc)
    requires LeafPrefixFree(t.desc) && DeclaredLeaf(t.desc, path)
    requires Reset(t, s, Some(Normalize(Present(target))), target, at).Ok?
    ensures var stored := Reset(t, s, Some(Normalize(Present(target))), target, at).value;
            var kept := Keep(ReadLog(s.active, at).value.value, Present(target));
            && stored.Stored?
            && LeafAt(stored.config, path) ==
                 if LeafAt(target, path).Some? then LeafAt(Restore(target, kept, t.secrets), path)
                 else LeafAt(DefaultConfig(t, s, None).value.config, path)
  {
    hide Merge, Keep, Conforms, WellFormed, Normalize, ValidMask, LeafPrefixFree, Present;
    var d, mask := t.desc, Present(target);
    var norm := Normalize(Normalize(mask));
    var active, default_ := ReadLog(s.active, at).value.value, DefaultConfig(t, s, None).value.config;
    ReadTyped(t, s);
    KeepNormalized(active, d, mask);
    KeepNormalized(active, d, Normalize(mask));
    var resolved := Restore(target, Keep(active, mask), t.secrets);
    RestoreConforms(target, Keep(active, mask), t);
    KeepNormalized(resolved, d, mask);
    KeepNormalized(resolved, d, Normalize(mask));
    assert Keep(active, norm) == Keep(active, mask) && Keep(resolved, norm) == Keep(resolved, mask);
    PresentIsValid(target, d);
    ResetLeaves(default_, active, resolved, mask, d, path);
    PresentNamesLeaves(target, d, path);
    RestoreLeaves(target, Keep(active, mask), t.secrets, path);
    if |path| > 1 {
      ParentDeclared(d, path);
      PresentNamesLeaves(target, d, path[..|path| - 1]);
      if Names(mask, path[..|path| - 1]) { PresentIsDeclared(target, d, path[..|path| - 1]); }
    }
  }

  // Restoring secrets changes which text a leaf holds, never which leaves there are.
  lemma RestoreLeaves(m: Message, from: Message, secrets: seq<string>, path: Path)
    ensures LeafAt(Restore(m, from, secrets), path).Some? <==> LeafAt(m, path).Some?
    ensures |path| > 1 ==> LeafAt(Restore(m, from, secrets), path) == LeafAt(m, path)
  {
  }
}

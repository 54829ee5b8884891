// What reaches the stores through the server, leaf by leaf: masked fields of requests are dropped,
// everything else arrives.
module ServerLaws {
  import opened Basics
  import opened Messages
  import opened Masks
  import opened MaskLaws
  import opened Presence
  import opened LeafMerging
  import opened StoreLog
  import opened Configs
  import opened TrackerSpec
  import opened TrackerLaws
  import opened ApplyLaws
  import opened WriteLaws
  import opened Servers

  lemma ClearedLeaf(m: Message, masked: seq<string>, path: Path)
    requires path != []
    ensures LeafAt(Cleared(m, masked), path) == if path[0] in masked then None else LeafAt(m, path)
    ensures Zeroed(Cleared(m, masked), path) <==> path[0] !in masked && Zeroed(m, path)
    ensures ParentAt(Cleared(m, masked), path) == if path[0] in masked then None else ParentAt(m, path)
  {
    assert Lookup(Cleared(m, masked), path[0]) == if path[0] in masked then None else Lookup(m, path[0]);
    if |path| > 1 {
      ZeroedStep(m, path);
      ZeroedStep(Cleared(m, masked), path);
    }
    if |path| == 2 {
      ParentDirect(m, path);
      ParentDirect(Cleared(m, masked), path);
    } else if |path| > 2 {
      ParentBelow(m, path);
      ParentBelow(Cleared(m, masked), path);
    }
  }

  // Some secret of a request is redacted, is not dropped, and has no value to get.
  predicate Unresolvable(t: ConfigType, m: Message, from: Message) {
    exists k :: k in t.secrets && k !in t.masked && IsRedacted(Lookup(m, k)) && !NonEmptyText(Lookup(from, k))
  }

  lemma ClearedResolves(t: ConfigType, m: Message, from: Message)
    requires ValidType(t)
    ensures Discontinuous(Cleared(m, t.masked), from, t.secrets) <==> Unresolvable(t, m, from)
    ensures RevisionNumber(Cleared(m, t.masked), t.revision) == RevisionNumber(m, t.revision)
    ensures RevisionOrZero(Cleared(m, t.masked), t.revision) == RevisionOrZero(m, t.revision)
  {
    var cleared := Cleared(m, t.masked);
    DiscontinuousExactly(cleared, from, t.secrets);
    assert forall k :: Lookup(cleared, k) == if k in t.masked then None else Lookup(m, k);
  }

  // ----- Set -----

  // With an active config Set succeeds exactly when the revision given, if any, is the current one and
  // the secrets of unmasked fields resolve.
  lemma SetSucceedsExactly(t: ConfigType, s: Stores, spec: Message)
    requires ValidType(t) && Exists(s.active)
    ensures var r := RevisionNumber(spec, t.revision);
            Handle(t, s, SetRequest(spec)) != s <==>
              (r.None? || r.value == |s.active|) && !Unresolvable(t, spec, Active(s))
  {
    var cleared := Cleared(spec, t.masked);
    ClearedResolves(t, spec, Active(s));
    ApplyIsCompareAndSwap(t, s, cleared);
    hide Cleared, Apply, Discontinuous, Unresolvable, RevisionNumber;
    Grows(s);
  }

  // What it then stores: at every leaf under an unmasked field the request's where it has one, and what
  // it started from everywhere else.
  lemma SetStoresLeaf(t: ConfigType, s: Stores, spec: Message, path: Path)
    requires ValidStores(t, s) && Conforms(spec, t.desc) && DeclaredLeaf(t.desc, path) && path[0] != t.revision
    requires Handle(t, s, SetRequest(spec)) != s
    ensures var next := Handle(t, s, SetRequest(spec));
            && Exists(next.active) && next.active[..|next.active| - 1] == s.active && next.default_ == s.default_
            && LeafAt(Active(next), path) ==
                 if path[0] in t.masked || AsRedacted(t, spec, path) ||
                    (LeafAt(spec, path).None? && !Zeroed(spec, path))
                 then LeafAt(Current(t, s), path) else LeafAt(spec, path)
  {
    var cleared := Cleared(spec, t.masked);
    SetStores(t, s, spec);
    ClearedConforms(spec, t);
    ClearedLeaf(spec, t.masked, path);
    ApplyStoresLeaf(t, s, cleared, path);
    hide *;
    ClearedRedacted(t, spec, path);
  }

  lemma SetStores(t: ConfigType, s: Stores, spec: Message)
    requires Handle(t, s, SetRequest(spec)) != s
    ensures var next, applied := Handle(t, s, SetRequest(spec)), Apply(t, s, Cleared(spec, t.masked));
            && applied.Ok? && Exists(next.active) && next.active[..|next.active| - 1] == s.active
            && next.default_ == s.default_ && Active(next) == applied.value
  {
    hide Apply, Cleared;
  }

  lemma ClearedRedacted(t: ConfigType, m: Message, path: Path)
    requires path != []
    ensures AsRedacted(t, Cleared(m, t.masked), path) <==> path[0] !in t.masked && AsRedacted(t, m, path)
  {
    ClearedLeaf(m, t.masked, path);
    hide Cleared, LeafAt;
  }

  // ----- SetDefault -----

  lemma SetDefaultSucceedsExactly(t: ConfigType, s: Stores, spec: Message)
    requires ValidType(t)
    ensures var r := RevisionOrZero(spec, t.revision);
            Handle(t, s, SetDefaultRequest(spec)) != s <==>
              && (if r == 0 then !Exists(s.default_) else r == |s.default_|)
              && !Unresolvable(t, spec, CurrentDefault(t, s))
  {
    var cleared := Cleared(spec, t.masked);
    ClearedResolves(t, spec, CurrentDefault(t, s));
    SetDefaultIsCompareAndSwap(t, s, cleared);
    hide Cleared, SetDefault, Discontinuous, Unresolvable, RevisionOrZero;
    forall config
      ensures WithDefault(s, config) != s
    {
      assert |WithDefault(s, config).default_| == |s.default_| + 1;
    }
  }

  // It stores the request without its masked fields.
  lemma SetDefaultStoresLeaf(t: ConfigType, s: Stores, spec: Message, path: Path)
    requires path != [] && path[0] != t.revision && Handle(t, s, SetDefaultRequest(spec)) != s
    ensures var next := Handle(t, s, SetDefaultRequest(spec));
            && Exists(next.default_) && next.default_[..|next.default_| - 1] == s.default_ && next.active == s.active
            && LeafAt(CurrentDefault(t, next), path) ==
                 if path[0] in t.masked then None
                 else if AsRedacted(t, spec, path) then LeafAt(CurrentDefault(t, s), path) else LeafAt(spec, path)
  {
    ClearedLeaf(spec, t.masked, path);
    hide LeafAt, Cleared, SetDefault, Zeroed;
    WriteLaws.SetDefaultStoresLeaf(t, s, Cleared(spec, t.masked), path);
  }

  // ----- Reset -----

  // Adding the masked fields to a mask names no leaf under another field.
  lemma MaskNamesMore(t: ConfigType, mask: Mask, path: Path)
    requires ValidType(t) && Declared(t.desc, path)
    ensures Names(mask + AsTree(t.masked), path) <==> path[0] in t.masked || Names(mask, path)
  {
    var full := mask + AsTree(t.masked);
    if path[0] in t.masked {
      assert path[..1] == [path[0]] && Join(path[..1]) in full;
    }
    if Names(full, path) && !Names(mask, path) {
      var i :| 0 < i <= |path| && Join(path[..i]) in full;
      assert Join(path[..i]) in t.masked && NoDot(Join(path[..i]));
      if i > 1 { NotDotted(Join(path[..i]), path[..i][0], Join(path[..i][1..])); }
      assert path[..1] == [path[0]];
    }
    if Names(mask, path) {
      var i :| 0 < i <= |path| && Join(path[..i]) in mask;
      assert Join(path[..i]) in full;
    }
  }

  // A Reset with a mask, or of a type with masked fields, stores at every leaf under an unmasked field
  // what ResetLeaf says by the request's own mask and patch, and under a masked one the active leaf,
  // or the default's where there is none.
  lemma ServerResetStoresLeaf(t: ConfigType, s: Stores, mask: Option<Mask>, patch: Message, path: Path)
    requires ValidStores(t, s) && Conforms(patch, t.desc) && LeafPrefixFree(t.desc) && DeclaredLeaf(t.desc, path)
    requires mask.Some? || t.masked != []
    requires Handle(t, s, ResetRequest(mask, patch)) != s
    ensures var next := Handle(t, s, ResetRequest(mask, patch));
            var own := if mask.Some? then mask.value else {};
            var default_ := CurrentDefault(t, s);
            && Exists(s.active) && Exists(next.active) && next.default_ == s.default_
            && LeafAt(Active(next), path) ==
                 if path[0] in t.masked then ResetLeaf(default_, Active(s), EmptyMessage(false), true, |path| > 1, path)
                 else if AsRedacted(t, patch, path) then LeafAt(Active(s), path)
                 else ResetLeaf(default_, Active(s), patch, Names(own, path), NamesParent(own, path), path)
  {
    var own := if mask.Some? then mask.value else {};
    hide *;
    ServerResetStores(t, s, mask, patch);
    ServerResetLeaf(t, s, own, patch, path);
  }

  // The request is handled as a Reset with the masked fields in its mask and none in its patch.
  lemma ServerResetStores(t: ConfigType, s: Stores, mask: Option<Mask>, patch: Message)
    requires mask.Some? || t.masked != []
    requires Handle(t, s, ResetRequest(mask, patch)) != s
    ensures var next := Handle(t, s, ResetRequest(mask, patch));
            var full := (if mask.Some? then mask.value else {}) + AsTree(t.masked);
            var outcome := Reset(t, s, Some(full), Cleared(patch, t.masked), None);
            && outcome.Ok? && outcome.value.Stored? && Exists(s.active) && Exists(next.active)
            && next.default_ == s.default_ && Active(next) == outcome.value.config
  {
    var own := if mask.Some? then mask.value else {};
    var cleared, full := Cleared(patch, t.masked), own + AsTree(t.masked);
    assert ServerMask(mask, t.masked) == Some(full) by {
      if t.masked == [] { assert full == mask.value; }
    }
    HandleReset(t, s, mask, patch);
    hide Cleared, Reset, Handle, ServerMask;
    ResetSucceedsExactly(t, s, Some(full), cleared, None);
  }

  lemma ServerResetLeaf(t: ConfigType, s: Stores, mask: Mask, patch: Message, path: Path)
    requires ValidStores(t, s) && Conforms(patch, t.desc) && LeafPrefixFree(t.desc) && DeclaredLeaf(t.desc, path)
    requires Reset(t, s, Some(mask + AsTree(t.masked)), Cleared(patch, t.masked), None).Ok?
    requires Reset(t, s, Some(mask + AsTree(t.masked)), Cleared(patch, t.masked), None).value.Stored?
    ensures path != []
    ensures var config := Reset(t, s, Some(mask + AsTree(t.masked)), Cleared(patch, t.masked), None).value.config;
            Exists(s.active) &&
            LeafAt(config, path) ==
              if path[0] in t.masked
              then ResetLeaf(CurrentDefault(t, s), Active(s), EmptyMessage(false), true, |path| > 1, path)
              else if AsRedacted(t, patch, path) then LeafAt(Active(s), path)
              else ResetLeaf(CurrentDefault(t, s), Active(s), patch, Names(mask, path), NamesParent(mask, path), path)
  {
    var full := mask + AsTree(t.masked);
    MaskNamesMore(t, mask, path);
    ParentNamesMore(t, mask, path);
    ClearedConforms(patch, t);
    ResetStoresLeaf(t, s, full, Cleared(patch, t.masked), None, path);
    hide *;
    ClearedRedacted(t, patch, path);
    ClearedReset(t, CurrentDefault(t, s), Active(s), patch, Names(full, path), NamesParent(full, path), path);
  }

  // What ResetLeaf says of a patch without its masked fields.
  lemma ClearedReset(
    t: ConfigType, default_: Message, active: Message, patch: Message, covered: bool, whole: bool, path: Path)
    requires path != []
    ensures var left := if path[0] in t.masked then EmptyMessage(false) else patch;
            ResetLeaf(default_, active, Cleared(patch, t.masked), covered, whole, path) ==
              ResetLeaf(default_, active, left, covered, whole, path)
  {
    ClearedLeaf(patch, t.masked, path);
    EmptyLeaf(path);
    hide Cleared, LeafAt, Zeroed, ParentAt;
  }

  lemma ParentNamesMore(t: ConfigType, mask: Mask, path: Path)
    requires ValidType(t) && Declared(t.desc, path)
    ensures NamesParent(mask + AsTree(t.masked), path) <==>
              |path| > 1 && (path[0] in t.masked || NamesParent(mask, path))
  {
    if |path| > 1 {
      ParentDeclared(t.desc, path);
      MaskNamesMore(t, mask, path[..|path| - 1]);
    }
  }

  lemma EmptyLeaf(path: Path)
    requires path != []
    ensures LeafAt(EmptyMessage(false), path) == None && !Zeroed(EmptyMessage(false), path)
    ensures ParentAt(EmptyMessage(false), path) == None
  {
    if |path| == 2 { ParentDirect(EmptyMessage(false), path); }
    if |path| > 2 { ParentBelow(EmptyMessage(false), path); }
  }

  // Such a Reset succeeds exactly when a config is active, the mask with the masked fields added is valid
  // once normalised, and the patch's unmasked redacted secrets are ones it keeps.
  lemma ServerResetSucceedsExactly(t: ConfigType, s: Stores, mask: Option<Mask>, patch: Message)
    requires ValidType(t) && (mask.Some? || t.masked != [])
    ensures var full := Normalize((if mask.Some? then mask.value else {}) + AsTree(t.masked));
            Handle(t, s, ResetRequest(mask, patch)) != s <==>
              Exists(s.active) && ValidMask(full, t.desc) && !Unresolvable(t, patch, Keep(Active(s), full))
  {
    var full := (if mask.Some? then mask.value else {}) + AsTree(t.masked);
    var cleared := Cleared(patch, t.masked);
    assert ServerMask(mask, t.masked) == Some(full) by {
      if t.masked == [] { assert full == mask.value; }
    }
    HandleReset(t, s, mask, patch);
    ResetSucceedsExactly(t, s, Some(full), cleared, None);
    if Exists(s.active) { ClearedResolves(t, patch, Keep(Active(s), Normalize(full))); }
    hide Cleared, Reset, Handle, ServerMask, Normalize, Keep, Unresolvable, Discontinuous, ValidMask;
    Grows(s);
  }

  lemma Grows(s: Stores)
    ensures forall config :: WithActive(s, config) != s
    ensures s.(active := s.active + [Deleted]) != s
  {
    forall config
      ensures WithActive(s, config) != s
    {
      assert |WithActive(s, config).active| == |s.active| + 1;
    }
    assert |s.(active := s.active + [Deleted]).active| == |s.active| + 1;
  }

  // Without a mask, and for a type without masked fields, it deletes the active config if there is one.
  lemma ServerResetDeletes(t: ConfigType, s: Stores, patch: Message)
    requires t.masked == []
    ensures Handle(t, s, ResetRequest(None, patch)) ==
              if Exists(s.active) then s.(active := s.active + [Deleted]) else s
  {
    HandleReset(t, s, None, patch);
    ResetSucceedsExactly(t, s, None, Cleared(patch, t.masked), None);
  }

  // ----- ResetDefault -----

  lemma ResetDefaultSucceedsExactly(t: ConfigType, s: Stores)
    ensures var next := Handle(t, s, ResetDefaultRequest);
            && (next != s <==> Exists(s.default_)) && next.active == s.active
            && !Exists(next.default_) && CurrentDefault(t, next) == t.newDefault
  {
    ResetDefaultExactly(t, s, None);
    if Exists(s.default_) { assert |Handle(t, s, ResetDefaultRequest).default_| == |s.default_| + 1; }
  }
}

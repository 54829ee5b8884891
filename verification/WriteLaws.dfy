// What the writes of the tracker store and what its reads show, leaf by leaf, over every state of its
// stores; and exactly when they succeed.
module WriteLaws {
  import opened Basics
  import opened Messages
  import opened Merging
  import opened Masks
  import opened MaskLaws
  import opened Presence
  import opened LeafMerging
  import opened StoreLog
  import StoreLaws
  import opened Configs
  import opened TrackerSpec
  import opened TrackerLaws
  import opened ApplyLaws

  // ----- Reads -----

  // A secret that is shown is "***" unless it has nothing to hide.
  lemma ShownSecret(t: ConfigType, v: Versioned, k: string)
    requires ValidType(t) && k in t.secrets
    ensures Lookup(Shown(t, v), k) ==
              if NonEmptyText(Lookup(v.config, k)) then Some(Value(Text("***"))) else Lookup(v.config, k)
  {
    RedactShows(v.config, t.secrets, k);
    OnlyTheRevision(Redact(v.config, t.secrets), v.config, t.revision, v.revision, k);
  }

  // Configs that differ only in what their secrets say are shown as the same.
  lemma ShownHides(t: ConfigType, a: Message, b: Message, revision: int)
    requires a.timed == b.timed
    requires forall k :: Lookup(a, k) == Lookup(b, k) ||
                         (k in t.secrets && NonEmptyText(Lookup(a, k)) && NonEmptyText(Lookup(b, k)))
    ensures Shown(t, Versioned(a, revision)) == Shown(t, Versioned(b, revision))
  {
    RedactHides(a, b, t.secrets);
  }

  // Every other leaf that is shown, but for the revision, is the stored one.
  lemma ShownLeaf(t: ConfigType, v: Versioned, path: Path)
    requires path != [] && path[0] !in t.secrets && path[0] != t.revision
    ensures LeafAt(Shown(t, v), path) == LeafAt(v.config, path)
  {
    RedactShows(v.config, t.secrets, path[0]);
    OnlyTheRevision(Redact(v.config, t.secrets), v.config, t.revision, v.revision, path[0]);
    hide Redact, SetRevision;
    LeafByField(Shown(t, v), v.config, path);
  }

  // A leaf is a matter of the top field it is under.
  lemma LeafByField(a: Message, b: Message, path: Path)
    requires path != [] && Lookup(a, path[0]) == Lookup(b, path[0])
    ensures LeafAt(a, path) == LeafAt(b, path)
  {
  }

  // Reading a revision gives the config it held, whatever fewer than 64 writes followed.
  lemma ActivePointInTime(t: ConfigType, s: Stores, more: Log)
    requires Exists(s.active)
    ensures ActiveOrDefault(t, s.(active := s.active + more), Some(|s.active|)) ==
              if |more| < 64 then Ok(Versioned(Active(s), |s.active|))
              else Ok(Versioned(CurrentDefault(t, s), 0))
  {
    StoreLaws.ReadStable(s.active, more);
    CurrentReads(t, s);
  }

  lemma DefaultPointInTime(t: ConfigType, s: Stores, more: Log)
    requires Exists(s.default_)
    ensures DefaultConfig(t, s.(default_ := s.default_ + more), Some(|s.default_|)) ==
              if |more| < 64 then Ok(Versioned(CurrentDefault(t, s), |s.default_|))
              else Ok(Versioned(t.newDefault, 0))
  {
    StoreLaws.ReadStable(s.default_, more);
  }

  lemma FutureRevision(t: ConfigType, s: Stores, r: int)
    ensures r > |s.active| ==> ActiveOrDefault(t, s, Some(r)) == Err(StoreFailure(OutOfRange))
    ensures r > |s.default_| ==> DefaultConfig(t, s, Some(r)) == Err(StoreFailure(OutOfRange))
  {
  }

  // ----- Apply -----

  // What a write of the active config starts from.
  function Current(t: ConfigType, s: Stores): Message {
    if Exists(s.active) then Active(s) else CurrentDefault(t, s)
  }

  // The request gives the leaf as a redacted secret.
  predicate AsRedacted(t: ConfigType, m: Message, path: Path) {
    |path| == 1 && path[0] in t.secrets && IsRedacted(LeafAt(m, path))
  }

  // What the leaf of a request is once its secrets are resolved.
  lemma ResolvedLeaf(t: ConfigType, m: Message, from: Message, path: Path)
    requires path != [] && !Discontinuous(m, from, t.secrets)
    ensures LeafAt(Restore(m, from, t.secrets), path) ==
              if AsRedacted(t, m, path) then LeafAt(from, path) else LeafAt(m, path)
    ensures AsRedacted(t, m, path) ==> NonEmptyText(LeafAt(from, path))
  {
    DiscontinuousExactly(m, from, t.secrets);
    RestoreResolves(m, from, t.secrets, path[0]);
    RestoreLeaves(m, from, t.secrets, path);
    hide Restore, Discontinuous;
    if |path| == 1 {
      if AsRedacted(t, m, path) { assert IsRedacted(Lookup(m, path[0])) && NonEmptyText(Lookup(from, path[0])); }
    }
  }

  lemma ResolvedZeroed(m: Message, from: Message, secrets: seq<string>, path: Path)
    requires path != []
    ensures Zeroed(Restore(m, from, secrets), path) <==> Zeroed(m, path)
  {
    if |path| > 1 {
      ZeroedStep(m, path);
      ZeroedStep(Restore(m, from, secrets), path);
    }
  }

  // Apply stores the request's leaves where it has them, a redacted secret counting as none, and those
  // of the config it starts from elsewhere. An explicitly zero Duration or Timestamp resets its leaves.
  lemma ApplyStoresLeaf(t: ConfigType, s: Stores, newConfig: Message, path: Path)
    requires ValidStores(t, s) && Conforms(newConfig, t.desc) && DeclaredLeaf(t.desc, path) && path[0] != t.revision
    requires Apply(t, s, newConfig).Ok?
    ensures LeafAt(Apply(t, s, newConfig).value, path) ==
              if AsRedacted(t, newConfig, path) || (LeafAt(newConfig, path).None? && !Zeroed(newConfig, path))
              then LeafAt(Current(t, s), path) else LeafAt(newConfig, path)
    ensures Lookup(Apply(t, s, newConfig).value, t.revision) == None
  {
    var base := Current(t, s);
    var resolved := Restore(newConfig, base, t.secrets);
    CurrentTyped(t, s);
    Applied(t, s, newConfig);
    RestoreConforms(newConfig, base, t);
    hide LeafAt, Restore, Discontinuous, Conforms, Merge, UnsetRevision, Apply, Zeroed, WellFormed, KindAt;
    ResolvedLeaf(t, newConfig, base, path);
    ResolvedZeroed(newConfig, base, t.secrets, path);
    MergeLeaf(base, resolved, t.desc, path);
    OnlyTheRevision(Merge(base, resolved), base, t.revision, 0, path[0]);
    TheRevision(Merge(base, resolved), base, t.revision, 0);
    LeafByField(UnsetRevision(Merge(base, resolved), t.revision), Merge(base, resolved), path);
  }

  lemma CurrentTyped(t: ConfigType, s: Stores)
    requires ValidStores(t, s)
    ensures Conforms(Current(t, s), t.desc) && Conforms(CurrentDefault(t, s), t.desc)
  {
  }

  lemma Applied(t: ConfigType, s: Stores, newConfig: Message)
    requires Apply(t, s, newConfig).Ok?
    ensures var base := Current(t, s);
            && !Discontinuous(newConfig, base, t.secrets)
            && Apply(t, s, newConfig).value ==
                 UnsetRevision(Merge(base, Restore(newConfig, base, t.secrets)), t.revision)
  {
    hide Merge, Restore, UnsetRevision, Discontinuous, Apply;
    if Exists(s.active) { ApplyIsCompareAndSwap(t, s, newConfig); } else { ApplyOntoDefault(t, s, newConfig); }
  }

  // ----- SetDefault -----

  // SetDefault succeeds exactly when the revision given is the store's, or none is given and no default
  // is stored, and its secrets resolve.
  lemma SetDefaultIsCompareAndSwap(t: ConfigType, s: Stores, newDefault: Message)
    ensures var r := RevisionOrZero(newDefault, t.revision);
            SetDefault(t, s, newDefault).Ok? <==>
              && (if r == 0 then !Exists(s.default_) else r == |s.default_|)
              && !Discontinuous(newDefault, CurrentDefault(t, s), t.secrets)
    ensures SetDefault(t, s, newDefault).Ok? ==>
              SetDefault(t, s, newDefault).value ==
                UnsetRevision(Restore(newDefault, CurrentDefault(t, s), t.secrets), t.revision)
  {
    hide Restore, UnsetRevision, Discontinuous;
    CurrentReads(t, s);
  }

  // It stores the request, a redacted secret keeping its value. Nothing else of the default is left.
  lemma SetDefaultStoresLeaf(t: ConfigType, s: Stores, newDefault: Message, path: Path)
    requires path != [] && path[0] != t.revision && SetDefault(t, s, newDefault).Ok?
    ensures LeafAt(SetDefault(t, s, newDefault).value, path) ==
              if AsRedacted(t, newDefault, path) then LeafAt(CurrentDefault(t, s), path) else LeafAt(newDefault, path)
    ensures Lookup(SetDefault(t, s, newDefault).value, t.revision) == None
  {
    var resolved := Restore(newDefault, CurrentDefault(t, s), t.secrets);
    SetDefaultIsCompareAndSwap(t, s, newDefault);
    hide LeafAt, Restore, Discontinuous, UnsetRevision, SetDefault;
    ResolvedLeaf(t, newDefault, CurrentDefault(t, s), path);
    OnlyTheRevision(resolved, resolved, t.revision, 0, path[0]);
    TheRevision(resolved, resolved, t.revision, 0);
    LeafByField(UnsetRevision(resolved, t.revision), resolved, path);
  }

  // ----- Reset -----

  // Reset succeeds exactly when a config is active, the revision given, if any, is the current one, and,
  // with a mask, the mask is valid once normalised and the patch's redacted secrets are ones it keeps.
  lemma ResetSucceedsExactly(t: ConfigType, s: Stores, mask: Option<Mask>, patch: Message, at: Option<int>)
    ensures Reset(t, s, mask, patch, at).Ok? <==>
              && Exists(s.active) && (at.None? || at.value == |s.active|)
              && (mask.Some? ==>
                    && ValidMask(Normalize(mask.value), t.desc)
                    && !Discontinuous(patch, Keep(Active(s), Normalize(mask.value)), t.secrets))
    ensures Reset(t, s, mask, patch, at).Ok? ==> (Reset(t, s, mask, patch, at).value.Removed? <==> mask.None?)
  {
    hide Merge, Restore, Discontinuous, Keep, Normalize, ValidMask;
    CurrentReads(t, s);
    if at.Some? && at.value != |s.active| { OldRead(s.active, at.value); }
  }

  lemma OldRead(log: Log, r: int)
    requires r != |log|
    ensures ReadLog(log, Some(r)).Ok? ==> ReadLog(log, Some(r)).value.revision != |log|
  {
  }

  // With a mask it stores, at every declared leaf, what ResetLeaf says of the default, the active config
  // and the patch, by what the mask names; a redacted secret of the patch keeps its active value.
  lemma ResetStoresLeaf(t: ConfigType, s: Stores, mask: Mask, patch: Message, at: Option<int>, path: Path)
    requires ValidStores(t, s) && Conforms(patch, t.desc)
    requires LeafPrefixFree(t.desc) && DeclaredLeaf(t.desc, path)
    requires Reset(t, s, Some(mask), patch, at).Ok?
    ensures Exists(s.active) && Reset(t, s, Some(mask), patch, at).value.Stored?
    ensures LeafAt(Reset(t, s, Some(mask), patch, at).value.config, path) ==
              if AsRedacted(t, patch, path) then LeafAt(Active(s), path)
              else ResetLeaf(CurrentDefault(t, s), Active(s), patch, Names(mask, path), NamesParent(mask, path), path)
  {
    hide LeafAt, Restore, Discontinuous, Conforms, Normalize, Keep, Reset, ResetLeaf, ValidMask, LeafPrefixFree, Names;
    assert path != [] && WellFormed(t.desc);
    hide NamesParent, KindAt, Typed, ValidType, WellFormed;
    ResetSucceedsExactly(t, s, Some(mask), patch, at);
    ResetByNames(t, s, mask, patch, at, path);
    KeptLeaf(t, s, Normalize(mask), path);
    NamesNormalized(mask, t.desc, path);
    ResolvedReset(t, s, patch, Normalize(mask), Names(mask, path), NamesParent(mask, path), path);
  }

  lemma ResetByNames(t: ConfigType, s: Stores, mask: Mask, patch: Message, at: Option<int>, path: Path)
    requires ValidStores(t, s) && Conforms(patch, t.desc)
    requires LeafPrefixFree(t.desc) && DeclaredLeaf(t.desc, path)
    requires Reset(t, s, Some(mask), patch, at).Ok?
    ensures Exists(s.active) && Reset(t, s, Some(mask), patch, at).value.Stored?
    ensures ValidMask(Normalize(mask), t.desc)
    ensures var resolved := Restore(patch, Keep(Active(s), Normalize(mask)), t.secrets);
            LeafAt(Reset(t, s, Some(mask), patch, at).value.config, path) ==
              ResetLeaf(CurrentDefault(t, s), Active(s), resolved, Names(mask, path), NamesParent(mask, path), path)
  {
    ResetSucceedsExactly(t, s, Some(mask), patch, at);
    ResetReads(t, s, at);
    assert |path| > 0;
    hide LeafAt, Restore, Discontinuous, Conforms, Normalize, Keep, Reset, ResetLeaf, ValidMask, LeafPrefixFree, Names;
    hide KindAt, Exists, Typed, ReadLog;
    ResetStores(t, s, mask, patch, at, path);
    NamesNormalized(mask, t.desc, path);
    if |path| > 1 {
      ParentDeclared(t.desc, path);
      NamesNormalized(mask, t.desc, path[..|path| - 1]);
    }
  }

  // A redacted secret of the patch is one the mask keeps, and gets its active value.
  lemma ResolvedReset(t: ConfigType, s: Stores, patch: Message, mask: Mask, covered: bool, whole: bool, path: Path)
    requires Exists(s.active) && path != [] && !Discontinuous(patch, Keep(Active(s), mask), t.secrets)
    requires LeafAt(Keep(Active(s), mask), path) == if covered then LeafAt(Active(s), path) else None
    ensures var resolved := Restore(patch, Keep(Active(s), mask), t.secrets);
            ResetLeaf(CurrentDefault(t, s), Active(s), resolved, covered, whole, path) ==
              if AsRedacted(t, patch, path) then LeafAt(Active(s), path)
              else ResetLeaf(CurrentDefault(t, s), Active(s), patch, covered, whole, path)
  {
    var kept := Keep(Active(s), mask);
    hide LeafAt, Restore, Discontinuous, Keep, Zeroed;
    ResolvedLeaf(t, patch, kept, path);
    ResolvedZeroed(patch, kept, t.secrets, path);
    ResolvedParent(patch, kept, t.secrets, path);
  }

  lemma ResetReads(t: ConfigType, s: Stores, at: Option<int>)
    requires Exists(s.active) && (at.None? || at.value == |s.active|)
    ensures ReadLog(s.active, at) == Ok(Revised(Active(s), |s.active|))
    ensures DefaultConfig(t, s, None).Ok? && DefaultConfig(t, s, None).value.config == CurrentDefault(t, s)
  {
    CurrentReads(t, s);
  }

  lemma ResolvedParent(m: Message, from: Message, secrets: seq<string>, path: Path)
    requires path != []
    ensures ParentAt(Restore(m, from, secrets), path).None? <==> ParentAt(m, path).None?
  {
    if |path| == 2 {
      ParentDirect(m, path);
      ParentDirect(Restore(m, from, secrets), path);
    } else if |path| > 2 {
      ParentBelow(m, path);
      ParentBelow(Restore(m, from, secrets), path);
    }
  }

  // A leaf that is kept is covered by the mask.
  lemma KeptLeaf(t: ConfigType, s: Stores, mask: Mask, path: Path)
    requires ValidStores(t, s) && Exists(s.active) && ValidMask(mask, t.desc)
    requires LeafPrefixFree(t.desc) && DeclaredLeaf(t.desc, path)
    ensures LeafAt(Keep(Active(s), mask), path) == if Names(mask, path) then LeafAt(Active(s), path) else None
  {
    hide Keep, LeafAt, ValidMask, Covers, Names;
    KeepLeaves(Active(s), mask, path);
    CoveringIsNaming(mask, t.desc, path);
  }

  // ----- Dry runs -----

  // The current half of a dry run is what a read shows now, but for the revision field; what is
  // predicted has the same revision field.
  lemma DryRunApplyShowsCurrent(t: ConfigType, s: Stores, newConfig: Message)
    requires DryRunApply(t, s, newConfig).Ok?
    ensures var dry := DryRunApply(t, s, newConfig).value;
            && UnsetRevision(dry.current, t.revision) == NextRead(t, s)
            && Lookup(dry.modified, t.revision) == Lookup(dry.current, t.revision)
  {
    var current := ActiveOrDefault(t, s, None).value;
    var dry := DryRunApply(t, s, newConfig).value;
    CurrentReads(t, s);
    hide Redact, Restore, Discontinuous, Merge, SetRevision, UnsetRevision, CopyRevision;
    UnsetForgets(Redact(current.config, t.secrets), current.config, t.revision, current.revision);
    var merged := Merge(current.config, Restore(newConfig, current.config, t.secrets));
    TheRevision(Redact(merged, t.secrets), dry.current, t.revision, 0);
  }

  lemma DryRunSetDefaultShowsCurrent(t: ConfigType, s: Stores, newDefault: Message)
    requires DryRunSetDefault(t, s, newDefault).Ok?
    ensures var dry := DryRunSetDefault(t, s, newDefault).value;
            && UnsetRevision(dry.current, t.revision) == NextDefaultRead(t, s)
            && Lookup(dry.modified, t.revision) == Lookup(dry.current, t.revision)
  {
    var current := DefaultConfig(t, s, None).value;
    var dry := DryRunSetDefault(t, s, newDefault).value;
    CurrentReads(t, s);
    hide Redact, Restore, Discontinuous, SetRevision, UnsetRevision, CopyRevision;
    TheRevision(Redact(Restore(newDefault, current.config, t.secrets), t.secrets), dry.current, t.revision, 0);
  }

  // A dry run of Reset shows the config it would reset, at the revision asked for.
  lemma DryRunResetShowsCurrent(t: ConfigType, s: Stores, mask: Option<Mask>, patch: Message, at: Option<int>)
    requires DryRunReset(t, s, mask, patch, at).Ok?
    ensures var dry := DryRunReset(t, s, mask, patch, at).value;
            && ActiveOrDefault(t, s, at).Ok?
            && UnsetRevision(dry.current, t.revision) ==
                 UnsetRevision(Shown(t, ActiveOrDefault(t, s, at).value), t.revision)
  {
    var active := ReadLog(s.active, at).value;
    hide Redact, SetRevision, UnsetRevision, PlanReset;
    UnsetForgets(Redact(active.value, t.secrets), active.value, t.revision, active.revision);
  }

  // ----- Resetting the default -----

  // It succeeds exactly when a default is stored, at the revision given, if any; the built-in one is
  // then read again.
  lemma ResetDefaultExactly(t: ConfigType, s: Stores, at: Option<int>)
    ensures DeleteError(s.default_, at).None? <==> Exists(s.default_) && (at.None? || at.value == |s.default_|)
    ensures DeleteError(s.default_, at).None? ==>
              DefaultConfig(t, s.(default_ := s.default_ + [Deleted]), None) == Ok(Versioned(t.newDefault, 0))
  {
    StoreLaws.DeleteExactly(s.default_, at);
  }

  // ----- Errors -----

  // A revision that cannot be read comes before a secret that cannot be resolved, and that before a
  // conflict; nothing else goes wrong.
  lemma ApplyErrors(t: ConfigType, s: Stores, newConfig: Message)
    requires Apply(t, s, newConfig).Err?
    ensures var existing := ActiveOrDefault(t, s, RevisionNumber(newConfig, t.revision));
            Apply(t, s, newConfig).error ==
              if existing.Err? then StoreFailure(OutOfRange)
              else if Discontinuous(newConfig, existing.value.config, t.secrets) then Discontinuity
              else StoreFailure(Conflict)
  {
    hide Merge, Restore, UnsetRevision, Discontinuous;
  }

  lemma SetDefaultErrors(t: ConfigType, s: Stores, newDefault: Message)
    requires SetDefault(t, s, newDefault).Err?
    ensures SetDefault(t, s, newDefault).error ==
              if Discontinuous(newDefault, CurrentDefault(t, s), t.secrets) then Discontinuity
              else StoreFailure(Conflict)
  {
    hide Restore, UnsetRevision, Discontinuous;
    CurrentReads(t, s);
  }

  lemma ResetErrors(t: ConfigType, s: Stores, mask: Option<Mask>, patch: Message, at: Option<int>)
    requires Reset(t, s, mask, patch, at).Err?
    ensures var e, active := Reset(t, s, mask, patch, at).error, ReadLog(s.active, at);
            && (active.Err? ==> e == StoreFailure(active.error))
            && (e == InvalidMask <==> active.Ok? && mask.Some? && !ValidMask(Normalize(mask.value), t.desc))
            && (e == Discontinuity <==>
                  && active.Ok? && mask.Some? && ValidMask(Normalize(mask.value), t.desc)
                  && Discontinuous(patch, Keep(active.value.value, Normalize(mask.value)), t.secrets))
            && (e == StoreFailure(Conflict) ==> active.Ok? && active.value.revision != |s.active|)
  {
    hide Merge, Restore, Discontinuous, Keep, Normalize, ValidMask;
    CurrentReads(t, s);
  }
}

// Compare-and-swap, read-modify-write and dry runs of the tracker, over every state of its stores.
module ApplyLaws {
  import opened Basics
  import opened Messages
  import opened Merging
  import opened Masks
  import opened MaskLaws
  import opened Presence
  import opened StoreLog
  import opened Configs
  import opened TrackerSpec

  // The active config.
  function Active(s: Stores): Message
    requires Exists(s.active)
  {
    s.active[|s.active| - 1].value
  }

  function CurrentDefault(t: ConfigType, s: Stores): Message {
    if Exists(s.default_) then s.default_[|s.default_| - 1].value else t.newDefault
  }

  lemma CurrentReads(t: ConfigType, s: Stores)
    ensures Exists(s.active) ==> ReadLog(s.active, None) == Ok(Revised(Active(s), |s.active|))
    ensures Exists(s.active) ==> ReadLog(s.active, Some(|s.active|)) == Ok(Revised(Active(s), |s.active|))
    ensures !Exists(s.active) ==>
            ReadLog(s.active, None) == Err(NotFound) && ReadLog(s.active, Some(0)) == Err(NotFound)
    ensures DefaultConfig(t, s, None) ==
            Ok(Versioned(CurrentDefault(t, s), if Exists(s.default_) then |s.default_| else 0))
    ensures ActiveOrDefault(t, s, None) ==
              Ok(if Exists(s.active) then Versioned(Active(s), |s.active|) else Versioned(CurrentDefault(t, s), 0))
  {
  }

  // While a config is active, Apply succeeds exactly when its explicit revision, if any, is the
  // current one and its secrets resolve. A stale revision fails whether it is still readable,
  // was deleted or has left the ring.
  lemma ApplyIsCompareAndSwap(t: ConfigType, s: Stores, newConfig: Message)
    requires Exists(s.active)
    ensures var r := RevisionNumber(newConfig, t.revision);
            Apply(t, s, newConfig).Ok? <==>
              (r.None? || r.value == |s.active|) && !Discontinuous(newConfig, Active(s), t.secrets)
    ensures Apply(t, s, newConfig).Ok? ==>
              Apply(t, s, newConfig).value ==
                  UnsetRevision(Merge(Active(s), Restore(newConfig, Active(s), t.secrets)), t.revision)
  {
  }

  // While none is, Apply starts from the default, and an explicit revision must not be that of a
  // value still in the ring, nor of the future.
  lemma ApplyOntoDefault(t: ConfigType, s: Stores, newConfig: Message)
    requires !Exists(s.active)
    ensures var r := RevisionNumber(newConfig, t.revision);
            Apply(t, s, newConfig).Ok? <==>
              && (r.None? || (r.value <= |s.active|
                              && !(r.value > |s.active| - 64 && WrittenAt(s.active, r.value))
                              && (s.active == [] ==> r.value == 0)))
              && !Discontinuous(newConfig, CurrentDefault(t, s), t.secrets)
    ensures Apply(t, s, newConfig).Ok? ==>
              Apply(t, s, newConfig).value ==
                UnsetRevision(Merge(CurrentDefault(t, s), Restore(newConfig, CurrentDefault(t, s), t.secrets)),
                    t.revision)
  {
    hide Merge, Restore, UnsetRevision, Discontinuous;
    CurrentReads(t, s);
  }

  // What a caller is shown, secrets redacted, can be applied straight back: it succeeds and
  // stores what was there, but for the revision field.
  lemma ApplyOwnRead(t: ConfigType, s: Stores)
    requires ValidType(t)
    ensures var read := ActiveOrDefault(t, s, None).value;
            Apply(t, s, Shown(t, read)) == Ok(UnsetRevision(read.config, t.revision))
  {
    var read := ActiveOrDefault(t, s, None).value;
    var m, shown := read.config, Shown(t, read);
    CurrentReads(t, s);
    ShownRevision(t, read);
    RestoreShown(t, read);
    MergeShown(m, Restore(shown, m, t.secrets), t.revision);
    hide Merge, Restore, UnsetRevision, Discontinuous, Redact, SetRevision, Shown;
    if !Exists(s.active) { assert ReadLog(s.active, Some(0)) == Err(NotFound); }
  }

  lemma ShownRevision(t: ConfigType, v: Versioned)
    ensures RevisionNumber(Shown(t, v), t.revision) == Some(v.revision)
  {
  }

  lemma RestoreShown(t: ConfigType, v: Versioned)
    requires ValidType(t)
    ensures !Discontinuous(Shown(t, v), v.config, t.secrets)
    ensures Restore(Shown(t, v), v.config, t.secrets).timed == v.config.timed
    ensures forall k | k != t.revision :: Lookup(Restore(Shown(t, v), v.config, t.secrets), k) == Lookup(v.config, k)
    ensures t.revision in Restore(Shown(t, v), v.config, t.secrets).fields
  {
    RestoreRedacted(v.config, t.secrets);
    assert forall k | k in t.secrets :: SecretText(Shown(t, v), k) == SecretText(Redact(v.config, t.secrets), k);
    forall k | k != t.revision
      ensures Lookup(Restore(Shown(t, v), v.config, t.secrets), k) == Lookup(v.config, k)
    {
      assert Lookup(Restore(Redact(v.config, t.secrets), v.config, t.secrets), k) == Lookup(v.config, k);
    }
  }

  // Merging over m a message that differs from it in one field at most changes no other.
  lemma MergeShown(m: Message, v: Message, field: string)
    requires v.timed == m.timed && field in v.fields
    requires forall k | k != field :: Lookup(v, k) == Lookup(m, k)
    ensures UnsetRevision(Merge(m, v), field) == UnsetRevision(m, field)
  {
    var merged := Merge(m, v);
    forall k | k != field
      ensures Lookup(merged, k) == Lookup(m, k)
    {
      LookupMerge(m, v, k);
      if k in m.fields {
        assert Lookup(v, k) == Some(m.fields[k]);
        if m.fields[k].Sub? { MergeSelf(m.fields[k].msg); }
      }
    }
    forall k
      ensures k in merged.fields - {field} <==> k in m.fields - {field}
      ensures k in merged.fields - {field} ==> merged.fields[k] == m.fields[k]
    {
      assert k != field ==> Lookup(merged, k) == Lookup(m, k);
    }
    assert UnsetRevision(merged, field).fields == UnsetRevision(m, field).fields;
  }

  // ----- Dry runs -----

  // What the next read of the active config shows, but for the revision field.
  function NextRead(t: ConfigType, s: Stores): Message {
    UnsetRevision(Shown(t, ActiveOrDefault(t, s, None).value), t.revision)
  }

  function NextDefaultRead(t: ConfigType, s: Stores): Message {
    UnsetRevision(Shown(t, DefaultConfig(t, s, None).value), t.revision)
  }

  lemma ReadAfterWrite(t: ConfigType, s: Stores, config: Message)
    requires ValidType(t)
    ensures NextRead(t, WithActive(s, config)) == UnsetRevision(Redact(config, t.secrets), t.revision)
    ensures NextDefaultRead(t, WithDefault(s, config)) == UnsetRevision(Redact(config, t.secrets), t.revision)
  {
    hide Redact, SetRevision, UnsetRevision;
    CurrentReads(t, WithActive(s, config));
    CurrentReads(t, WithDefault(s, config));
    UnsetForgets(Redact(config, t.secrets), config, t.revision, |s.active| + 1);
    UnsetForgets(Redact(config, t.secrets), config, t.revision, |s.default_| + 1);
  }

  lemma UnsetShown(t: ConfigType, m: Message, src: Message)
    requires ValidType(t)
    ensures UnsetRevision(Redact(UnsetRevision(m, t.revision), t.secrets), t.revision) ==
              UnsetRevision(CopyRevision(Redact(m, t.secrets), src, t.revision), t.revision)
    ensures UnsetRevision(Redact(UnsetRevision(m, t.revision), t.secrets), t.revision) ==
            UnsetRevision(Redact(m, t.secrets), t.revision)
  {
    RedactUnset(m, t);
    UnsetForgets(Redact(m, t.secrets), src, t.revision, 0);
  }

  // A dry run of Apply succeeds exactly when Apply does and a revision given is the current one;
  // the next read then shows what it predicted.
  lemma DryRunApplyExactly(t: ConfigType, s: Stores, newConfig: Message)
    requires ValidType(t)
    ensures var current := ActiveOrDefault(t, s, None).value;
            DryRunApply(t, s, newConfig).Ok? <==>
              Apply(t, s, newConfig).Ok? &&
                  (t.revision in newConfig.fields ==> RevisionOrZero(newConfig, t.revision) == current.revision)
    ensures DryRunApply(t, s, newConfig).Ok? ==>
              NextRead(t, WithActive(s, Apply(t, s, newConfig).value)) ==
                  UnsetRevision(DryRunApply(t, s, newConfig).value.modified, t.revision)
  {
    var current := ActiveOrDefault(t, s, None).value;
    CurrentReads(t, s);
    RevisionNeedsField(t, newConfig);
    hide Merge, Restore, Discontinuous, Redact, SetRevision, UnsetRevision, CopyRevision, NextRead;
    if DryRunApply(t, s, newConfig).Ok? {
      var merged := Merge(current.config, Restore(newConfig, current.config, t.secrets));
      assert Apply(t, s, newConfig) == Ok(UnsetRevision(merged, t.revision));
      ReadAfterWrite(t, s, UnsetRevision(merged, t.revision));
      UnsetShown(t, merged, Redact(current.config, t.secrets));
    }
  }

  lemma RevisionNeedsField(t: ConfigType, m: Message)
    ensures RevisionNumber(m, t.revision).Some? ==> t.revision in m.fields
    ensures RevisionNumber(m, t.revision).None? ==> RevisionOrZero(m, t.revision) == 0
  {
  }

  // Reset succeeds exactly when its dry run does and the config was read at the current revision;
  // the next read then shows what the dry run predicted, deletion included.
  lemma DryRunResetExactly(t: ConfigType, s: Stores, mask: Option<Mask>, patch: Message, at: Option<int>)
    requires ValidType(t)
    ensures Reset(t, s, mask, patch, at).Ok? <==>
              DryRunReset(t, s, mask, patch, at).Ok? && ReadLog(s.active, at).value.revision == |s.active|
    ensures Reset(t, s, mask, patch, at).Ok? ==>
              NextRead(t, AfterReset(s, Reset(t, s, mask, patch, at).value)) ==
                UnsetRevision(DryRunReset(t, s, mask, patch, at).value.modified, t.revision)
  {
    CurrentReads(t, s);
    hide Merge, Restore, Discontinuous, Redact, SetRevision, UnsetRevision, Keep, Normalize, ValidMask, NextRead,
        PlanReset;
    if Reset(t, s, mask, patch, at).Ok? {
      match Reset(t, s, mask, patch, at).value
      case Stored(config) =>
        ReadAfterWrite(t, s, config);
      case Removed =>
        ReadAfterRemoval(t, s);
    }
  }

  lemma ReadAfterRemoval(t: ConfigType, s: Stores)
    ensures NextRead(t, AfterReset(s, Removed)) == UnsetRevision(Redact(CurrentDefault(t, s), t.secrets), t.revision)
  {
    var after := AfterReset(s, Removed);
    CurrentReads(t, after);
    UnsetForgets(Redact(CurrentDefault(t, s), t.secrets), t.newDefault, t.revision, 0);
  }

  // After a successful dry run, SetDefault succeeds exactly when a revision was given or no default
  // is stored; the next read of the default then shows what was predicted.
  lemma DryRunSetDefaultExactly(t: ConfigType, s: Stores, newDefault: Message)
    requires ValidType(t) && DryRunSetDefault(t, s, newDefault).Ok?
    ensures SetDefault(t, s, newDefault).Ok? <==> t.revision in newDefault.fields || !Exists(s.default_)
    ensures SetDefault(t, s, newDefault).Ok? ==>
              NextDefaultRead(t, WithDefault(s, SetDefault(t, s, newDefault).value)) ==
                UnsetRevision(DryRunSetDefault(t, s, newDefault).value.modified, t.revision)
  {
    CurrentReads(t, s);
    RevisionNeedsField(t, newDefault);
    hide Restore, Discontinuous, Redact, SetRevision, UnsetRevision, CopyRevision, NextDefaultRead, Shown;
    var current := DefaultConfig(t, s, None).value;
    var config := Restore(newDefault, current.config, t.secrets);
    if SetDefault(t, s, newDefault).Ok? {
      ReadAfterWrite(t, s, UnsetRevision(config, t.revision));
      UnsetShown(t, config, Shown(t, current));
    }
  }
}

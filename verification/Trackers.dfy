// server/config.go: the tracker over its two stores. Each method runs under the tracker's lock,
// so a call is one step. Results are those of TrackerSpec on the logs of the stores.
module Trackers {
  import opened Basics
  import opened Messages
  import opened Masks
  import opened MaskLaws
  import opened Merging
  import opened LeafMerging
  import opened Presence
  import opened StoreLog
  import opened ValueStores
  import opened Configs
  import TrackerSpec
  import opened TrackerLaws

  type ConfigError = TrackerSpec.ConfigError

  lemma TypedPut(t: ConfigType, log: seq<Entry<Message>>, m: Message)
    requires TrackerSpec.Typed(t, log) && Conforms(m, t.desc)
    ensures TrackerSpec.Typed(t, log + [Written(m)])
  {
  }

  lemma TypedDelete(t: ConfigType, log: seq<Entry<Message>>)
    requires TrackerSpec.Typed(t, log) && Exists(log)
    ensures TrackerSpec.Typed(t, log + [Deleted])
  {
  }

  class Tracker {
    const t: ConfigType
    const active: ValueStore<Message>
    const default_: ValueStore<Message>

    ghost predicate Valid()
      reads this, active, active.ring, default_, default_.ring
    {
      && active != default_ && active.ring != default_.ring
      && active.Valid() && default_.Valid()
      && TrackerSpec.ValidStores(t, State())
    }

    ghost function State(): TrackerSpec.Stores
      reads active, default_
    {
      TrackerSpec.Stores(active.log, default_.log)
    }

    constructor (t: ConfigType, default_: ValueStore<Message>, active: ValueStore<Message>)
      requires ValidType(t) && active != default_ && active.ring != default_.ring
      requires active.Valid() && default_.Valid()
      requires TrackerSpec.Typed(t, active.log) && TrackerSpec.Typed(t, default_.log)
      ensures Valid() && this.t == t && this.active == active && this.default_ == default_
    {
      this.t, this.active, this.default_ := t, active, default_;
    }

    method GetDefaultConfig(at: Option<int>) returns (res: Result<TrackerSpec.Versioned, ConfigError>)
      requires Valid()
      ensures res == TrackerSpec.DefaultConfig(t, State(), at)
    {
      var def := default_.Get(at);
      if def.Err? {
        if !def.error.NotFound? {
          return Err(TrackerSpec.StoreFailure(def.error));
        }
        return Ok(TrackerSpec.Versioned(t.newDefault, 0));
      }
      return Ok(TrackerSpec.Versioned(def.value.value, def.value.revision));
    }

    method GetConfigOrDefault(at: Option<int>) returns (res: Result<TrackerSpec.Versioned, ConfigError>)
      requires Valid()
      ensures res == TrackerSpec.ActiveOrDefault(t, State(), at)
    {
      var def := default_.Get(None);
      var act := active.Get(at);
      if act.Err? {
        if !act.error.NotFound? {
          return Err(TrackerSpec.StoreFailure(act.error));
        }
        if def.Err? {
          return Ok(TrackerSpec.Versioned(t.newDefault, 0));
        }
        return Ok(TrackerSpec.Versioned(def.value.value, 0));
      }
      return Ok(TrackerSpec.Versioned(act.value.value, act.value.revision));
    }

    method GetActiveOrDefault(at: Option<int>) returns (res: Result<Message, ConfigError>)
      requires Valid()
      ensures res == match TrackerSpec.ActiveOrDefault(t, State(), at) {
                case Ok(v) => Ok(TrackerSpec.Shown(t, v))
                case Err(e) => Err(e) }
      ensures res.Ok? ==> Conforms(res.value, t.desc) && RevisionNumber(res.value, t.revision).Some?
      ensures res.Ok? ==>
                forall k | k in t.secrets && NonEmptyText(Lookup(res.value, k)) :: IsRedacted(Lookup(res.value, k))
    {
      hide Conforms, Redact, SetRevision, RevisionNumber, TrackerSpec.Typed;
      var found := GetConfigOrDefault(at);
      if found.Err? {
        return Err(found.error);
      }
      ReadTyped(t, State());
      RedactConforms(found.value.config, t);
      NothingShown(t, found.value);
      SetRevisionConforms(Redact(found.value.config, t.secrets), t, found.value.revision);
      return Ok(TrackerSpec.Shown(t, found.value));
    }

    method Apply(newConfig: Message) returns (err: Option<ConfigError>)
      requires Valid() && Conforms(newConfig, t.desc)
      modifies active, active.ring
      ensures Valid()
      ensures match TrackerSpec.Apply(t, old(State()), newConfig) {
                case Err(e) => err == Some(e) && State() == old(State())
                case Ok(config) => err.None? && State() == TrackerSpec.WithActive(old(State()), config) }
    {
      hide Conforms, WellFormed, Merge, Restore, Discontinuous, TrackerSpec.Typed, ValidType;
      var existing := GetConfigOrDefault(RevisionNumber(newConfig, t.revision));
      if existing.Err? {
        return Some(existing.error);
      }
      var config := TrackerSpec.Unredact(t, newConfig, existing.value.config);
      if config.Err? {
        return Some(config.error);
      }
      var merged := MergeMessage(existing.value.config, config.value);
      merged := UnsetRevision(merged, t.revision);
      ApplyTyped(t, State(), newConfig, existing.value.config);
      var put := active.Put(merged, Some(existing.value.revision));
      if put.Err? {
        return Some(TrackerSpec.StoreFailure(put.error));
      }
      TypedPut(t, old(active.log), merged);
      return None;
    }

    method Reset(mask: Option<Mask>, patch: Message, at: Option<int>) returns (err: Option<ConfigError>)
      requires Valid() && Conforms(patch, t.desc)
      modifies active, active.ring
      ensures Valid()
      ensures match TrackerSpec.Reset(t, old(State()), mask, patch, at) {
                case Err(e) => err == Some(e) && State() == old(State())
                case Ok(outcome) => err.None? && State() == TrackerSpec.AfterReset(old(State()), outcome) }
    {
      hide Conforms, WellFormed, Merge, Restore, Discontinuous, TrackerSpec.Typed, ValidType, Keep, Normalize,
          TrackerSpec.PlanReset;
      var activeConfig := active.Get(at);
      if activeConfig.Err? {
        return Some(TrackerSpec.StoreFailure(activeConfig.error));
      }
      var revision := activeConfig.value.revision;
      if mask.None? {
        var failed := active.Delete(Some(revision));
        if failed.Some? {
          return Some(TrackerSpec.StoreFailure(failed.value));
        }
        TypedDelete(t, old(active.log));
        return None;
      }
      ReadTyped(t, State());
      var config := PrepareReset(activeConfig.value.value, mask.value, patch);
      if config.Err? {
        return Some(config.error);
      }
      var put := active.Put(config.value, Some(revision));
      if put.Err? {
        return Some(TrackerSpec.StoreFailure(put.error));
      }
      TypedPut(t, old(active.log), config.value);
      return None;
    }

    // The part that Reset and DryRunReset have in common.
    method PrepareReset(activeConfig: Message, mask: Mask, patch: Message) returns (res: Result<Message, ConfigError>)
      requires Valid() && Conforms(activeConfig, t.desc) && Conforms(patch, t.desc)
      ensures res == TrackerSpec.PlanReset(t, State(), activeConfig, mask, patch)
      ensures res.Ok? ==> Conforms(res.value, t.desc)
    {
      hide Conforms, WellFormed, Merge, Restore, Discontinuous, TrackerSpec.Typed, Keep, Normalize;
      var defaultConfig := GetDefaultConfig(None);
      if defaultConfig.Err? {
        return Err(defaultConfig.error);
      }
      var normalized := Normalize(mask);
      if !ValidMask(normalized, t.desc) {
        return Err(TrackerSpec.InvalidMask);
      }
      var kept := ExclusiveKeep(activeConfig, t.desc, Some(normalized));
      KeepConforms(activeConfig, t.desc, normalized);
      var resolved := TrackerSpec.Unredact(t, patch, kept);
      if resolved.Err? {
        return Err(resolved.error);
      }
      RestoreConforms(patch, kept, t);
      var patched := ExclusiveKeep(resolved.value, t.desc, Some(normalized));
      KeepConforms(resolved.value, t.desc, normalized);
      var merged := MergeMessage(kept, patched);
      MergeConforms(kept, patched, t.desc);
      var config := MergeMessage(defaultConfig.value.config, merged);
      ReadTyped(t, State());
      MergeConforms(defaultConfig.value.config, merged, t.desc);
      return Ok(config);
    }

    method SetDefault(newDefault: Message) returns (err: Option<ConfigError>)
      requires Valid() && Conforms(newDefault, t.desc)
      modifies default_, default_.ring
      ensures Valid()
      ensures match TrackerSpec.SetDefault(t, old(State()), newDefault) {
                case Err(e) => err == Some(e) && State() == old(State())
                case Ok(config) => err.None? && State() == TrackerSpec.WithDefault(old(State()), config) }
    {
      hide Conforms, WellFormed, Restore, Discontinuous, TrackerSpec.Typed, ValidType;
      var existing := GetDefaultConfig(None);
      if existing.Err? {
        return Some(existing.error);
      }
      var config := TrackerSpec.Unredact(t, newDefault, existing.value.config);
      if config.Err? {
        return Some(config.error);
      }
      RestoreConforms(newDefault, existing.value.config, t);
      UnsetConforms(config.value, t);
      var stored := UnsetRevision(config.value, t.revision);
      var put := default_.Put(stored, Some(RevisionOrZero(newDefault, t.revision)));
      if put.Err? {
        return Some(TrackerSpec.StoreFailure(put.error));
      }
      TypedPut(t, old(default_.log), stored);
      return None;
    }

    method ResetDefault(at: Option<int>) returns (err: Option<ConfigError>)
      requires Valid()
      modifies default_, default_.ring
      ensures Valid() && active.log == old(active.log)
      ensures match DeleteError(old(default_.log), at) {
                case Some(e) => err == Some(TrackerSpec.StoreFailure(e)) && default_.log == old(default_.log)
                case None => err.None? && default_.log == old(default_.log) + [Deleted] }
    {
      hide TrackerSpec.Typed, ValidType;
      var failed := default_.Delete(at);
      if failed.Some? {
        return Some(TrackerSpec.StoreFailure(failed.value));
      }
      TypedDelete(t, old(default_.log));
      return None;
    }

    method DryRunApply(newConfig: Message) returns (res: Result<TrackerSpec.DryRun, ConfigError>)
      requires Valid() && Conforms(newConfig, t.desc)
      ensures res == TrackerSpec.DryRunApply(t, State(), newConfig)
    {
      var current := GetConfigOrDefault(None);
      if current.Err? {
        return Err(current.error);
      }
      if t.revision in newConfig.fields && RevisionOrZero(newConfig, t.revision) != current.value.revision {
        return Err(TrackerSpec.StoreFailure(Conflict));
      }
      var config := TrackerSpec.Unredact(t, newConfig, current.value.config);
      if config.Err? {
        return Err(config.error);
      }
      var modified := MergeMessage(current.value.config, config.value);
      var shown := Redact(current.value.config, t.secrets);
      return Ok(TrackerSpec.DryRun(shown, CopyRevision(Redact(modified, t.secrets), shown, t.revision)));
    }

    method DryRunReset(mask: Option<Mask>, patch: Message, at: Option<int>)
        returns (res: Result<TrackerSpec.DryRun, ConfigError>)
      requires Valid() && Conforms(patch, t.desc)
      ensures res == TrackerSpec.DryRunReset(t, State(), mask, patch, at)
    {
      hide Conforms, WellFormed, Merge, Restore, Discontinuous, TrackerSpec.Typed, Keep, Normalize,
          TrackerSpec.PlanReset, Redact;
      var activeConfig := active.Get(at);
      if activeConfig.Err? {
        return Err(TrackerSpec.StoreFailure(activeConfig.error));
      }
      var defaultConfig := GetDefaultConfig(None);
      if defaultConfig.Err? {
        return Err(defaultConfig.error);
      }
      var current := Redact(activeConfig.value.value, t.secrets);
      if mask.None? {
        return Ok(TrackerSpec.DryRun(current, Redact(defaultConfig.value.config, t.secrets)));
      }
      ReadTyped(t, State());
      var config := PrepareReset(activeConfig.value.value, mask.value, patch);
      if config.Err? {
        return Err(config.error);
      }
      return Ok(TrackerSpec.DryRun(current, Redact(config.value, t.secrets)));
    }

    method DryRunSetDefault(newDefault: Message) returns (res: Result<TrackerSpec.DryRun, ConfigError>)
      requires Valid() && Conforms(newDefault, t.desc)
      ensures res == TrackerSpec.DryRunSetDefault(t, State(), newDefault)
    {
      var current := GetDefaultConfig(None);
      if current.Err? {
        return Err(current.error);
      }
      if t.revision in newDefault.fields && RevisionOrZero(newDefault, t.revision) != current.value.revision {
        return Err(TrackerSpec.StoreFailure(Conflict));
      }
      var config := TrackerSpec.Unredact(t, newDefault, current.value.config);
      if config.Err? {
        return Err(config.error);
      }
      var shown := TrackerSpec.Shown(t, current.value);
      return Ok(TrackerSpec.DryRun(shown, CopyRevision(Redact(config.value, t.secrets), shown, t.revision)));
    }
  }

  // What Apply stores is of the type.
  lemma ApplyTyped(t: ConfigType, s: TrackerSpec.Stores, newConfig: Message, existing: Message)
    requires TrackerSpec.ValidStores(t, s) && Conforms(newConfig, t.desc)
    requires var found := TrackerSpec.ActiveOrDefault(t, s, RevisionNumber(newConfig, t.revision));
             found.Ok? && found.value.config == existing
    ensures Conforms(UnsetRevision(Merge(existing, Restore(newConfig, existing, t.secrets)), t.revision), t.desc)
  {
    ReadTyped(t, s);
    RestoreConforms(newConfig, existing, t);
    var config := Restore(newConfig, existing, t.secrets);
    MergeConforms(existing, config, t.desc);
    UnsetConforms(Merge(existing, config), t);
  }

  // No secret is shown.
  lemma NothingShown(t: ConfigType, v: TrackerSpec.Versioned)
    requires ValidType(t)
    ensures forall k | k in t.secrets && NonEmptyText(Lookup(TrackerSpec.Shown(t, v), k)) ::
              IsRedacted(Lookup(TrackerSpec.Shown(t, v), k))
  {
    forall k | k in t.secrets
      ensures Lookup(TrackerSpec.Shown(t, v), k) == Lookup(Redact(v.config, t.secrets), k)
    {
      OnlyTheRevision(Redact(v.config, t.secrets), v.config, t.revision, v.revision, k);
    }
  }
}

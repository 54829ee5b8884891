// What the operations of the config tracker (server/config.go) answer and store, stated on
// the logs of its two stores.
module TrackerSpec {
  import opened Basics
  import opened Messages
  import opened Merging
  import opened Masks
  import opened MaskLaws
  import opened Presence
  import opened StoreLog
  import opened Configs

  type Log = seq<Entry<Message>>

  datatype Stores = Stores(active: Log, default_: Log)

  datatype ConfigError = StoreFailure(error: StoreError) | InvalidMask | Discontinuity

  datatype Versioned = Versioned(config: Message, revision: int)

  // A config written to the active store, or its deletion.
  datatype Outcome = Stored(config: Message) | Removed

  datatype DryRun = DryRun(current: Message, modified: Message)

  // The stored default, or the built-in one at revision 0.
  function DefaultConfig(t: ConfigType, s: Stores, at: Option<int>): Result<Versioned, ConfigError> {
    match ReadLog(s.default_, at)
    case Ok(r) => Ok(Versioned(r.value, r.revision))
    case Err(NotFound) => Ok(Versioned(t.newDefault, 0))
    case Err(e) => Err(StoreFailure(e))
  }

  // The active config, or the default one, which then counts as active revision 0.
  function ActiveOrDefault(t: ConfigType, s: Stores, at: Option<int>): Result<Versioned, ConfigError> {
    match ReadLog(s.active, at)
    case Ok(r) => Ok(Versioned(r.value, r.revision))
    case Err(NotFound) =>
      (match ReadLog(s.default_, None)
       case Ok(d) => Ok(Versioned(d.value, 0))
       case Err(_) => Ok(Versioned(t.newDefault, 0)))
    case Err(e) => Err(StoreFailure(e))
  }

  // What callers are shown: secrets redacted, the store's revision filled in.
  function Shown(t: ConfigType, v: Versioned): Message {
    SetRevision(Redact(v.config, t.secrets), t.revision, v.revision)
  }

  function Unredact(t: ConfigType, m: Message, from: Message): Result<Message, ConfigError> {
    if Discontinuous(m, from, t.secrets) then Err(Discontinuity) else Ok(Restore(m, from, t.secrets))
  }

  function Apply(t: ConfigType, s: Stores, newConfig: Message): Result<Message, ConfigError> {
    match ActiveOrDefault(t, s, RevisionNumber(newConfig, t.revision))
    case Err(e) => Err(e)
    case Ok(existing) =>
      match Unredact(t, newConfig, existing.config)
      case Err(e) => Err(e)
      case Ok(config) =>
        if !MayPut(s.active, Some(existing.revision)) then Err(StoreFailure(Conflict))
        else Ok(UnsetRevision(Merge(existing.config, config), t.revision))
  }

  // The two keeps and two merges of Reset.
  function ResetValue(default_: Message, active: Message, patch: Message, mask: Mask): Message {
    Merge(default_, Merge(Keep(active, mask), Keep(patch, mask)))
  }

  // Reset up to the final write; a nil mask asks for deletion.
  function PlanReset(t: ConfigType, s: Stores, active: Message, mask: Mask, patch: Message)
    : Result<Message, ConfigError>
  {
    match DefaultConfig(t, s, None)
    case Err(e) => Err(e)
    case Ok(default_) =>
      if !ValidMask(Normalize(mask), t.desc) then Err(InvalidMask)
      else match Unredact(t, patch, Keep(active, Normalize(mask)))
        case Err(e) => Err(e)
        case Ok(resolved) => Ok(ResetValue(default_.config, active, resolved, Normalize(mask)))
  }

  function Reset(t: ConfigType, s: Stores, mask: Option<Mask>, patch: Message, at: Option<int>)
    : Result<Outcome, ConfigError>
  {
    match ReadLog(s.active, at)
    case Err(e) => Err(StoreFailure(e))
    case Ok(active) =>
      if mask.None? then
        var err := DeleteError(s.active, Some(active.revision));
        if err.Some? then Err(StoreFailure(err.value)) else Ok(Removed)
      else match PlanReset(t, s, active.value, mask.value, patch)
        case Err(e) => Err(e)
        case Ok(config) =>
          if MayPut(s.active, Some(active.revision)) then Ok(Stored(config)) else Err(StoreFailure(Conflict))
  }

  function SetDefault(t: ConfigType, s: Stores, newDefault: Message): Result<Message, ConfigError> {
    match DefaultConfig(t, s, None)
    case Err(e) => Err(e)
    case Ok(existing) =>
      match Unredact(t, newDefault, existing.config)
      case Err(e) => Err(e)
      case Ok(config) =>
        if MayPut(s.default_, Some(RevisionOrZero(newDefault, t.revision))) then Ok(UnsetRevision(config, t.revision))
        else Err(StoreFailure(Conflict))
  }

  function DryRunApply(t: ConfigType, s: Stores, newConfig: Message): Result<DryRun, ConfigError> {
    match ActiveOrDefault(t, s, None)
    case Err(e) => Err(e)
    case Ok(current) =>
      if t.revision in newConfig.fields && RevisionOrZero(newConfig, t.revision) != current.revision
      then Err(StoreFailure(Conflict))
      else match Unredact(t, newConfig, current.config)
        case Err(e) => Err(e)
        case Ok(config) =>
          var modified := Redact(Merge(current.config, config), t.secrets);
          var shown := Redact(current.config, t.secrets);
          Ok(DryRun(shown, CopyRevision(modified, shown, t.revision)))
  }

  function DryRunReset(t: ConfigType, s: Stores, mask: Option<Mask>, patch: Message, at: Option<int>)
    : Result<DryRun, ConfigError>
  {
    match ReadLog(s.active, at)
    case Err(e) => Err(StoreFailure(e))
    case Ok(active) =>
      match DefaultConfig(t, s, None)
      case Err(e) => Err(e)
      case Ok(default_) =>
        if mask.None? then Ok(DryRun(Redact(active.value, t.secrets), Redact(default_.config, t.secrets)))
        else match PlanReset(t, s, active.value, mask.value, patch)
          case Err(e) => Err(e)
          case Ok(config) => Ok(DryRun(Redact(active.value, t.secrets), Redact(config, t.secrets)))
  }

  function DryRunSetDefault(t: ConfigType, s: Stores, newDefault: Message): Result<DryRun, ConfigError> {
    match DefaultConfig(t, s, None)
    case Err(e) => Err(e)
    case Ok(current) =>
      if t.revision in newDefault.fields && RevisionOrZero(newDefault, t.revision) != current.revision
      then Err(StoreFailure(Conflict))
      else match Unredact(t, newDefault, current.config)
        case Err(e) => Err(e)
        case Ok(config) =>
          var shown := Shown(t, current);
          Ok(DryRun(shown, CopyRevision(Redact(config, t.secrets), shown, t.revision)))
  }

  // ----- The stores after a successful call -----

  function WithActive(s: Stores, config: Message): Stores { s.(active := s.active + [Written(config)]) }

  function WithDefault(s: Stores, config: Message): Stores { s.(default_ := s.default_ + [Written(config)]) }

  function AfterReset(s: Stores, outcome: Outcome): Stores {
    match outcome
    case Stored(config) => WithActive(s, config)
    case Removed => s.(active := s.active + [Deleted])
  }

  // Every stored message is of the configuration type.
  ghost predicate Typed(t: ConfigType, log: Log) {
    && WellFormedLog(log)
    && forall i | 0 <= i < |log| && log[i].Written? :: Conforms(log[i].value, t.desc)
  }

  ghost predicate ValidStores(t: ConfigType, s: Stores) {
    ValidType(t) && Typed(t, s.active) && Typed(t, s.default_)
  }
}

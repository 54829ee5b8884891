// server/server.go: the config server in front of the tracker, which protects masked fields.
module Servers {
  import opened Basics
  import opened Messages
  import opened Masks
  import opened MaskLaws
  import opened Merging
  import opened LeafMerging
  import opened Presence
  import opened StoreLog
  import opened Configs
  import opened TrackerSpec
  import opened TrackerLaws
  import opened ApplyLaws
  import opened Trackers

  datatype Request =
    | SetRequest(spec: Message)
    | ResetRequest(mask: Option<Mask>, patch: Message)
    | SetDefaultRequest(spec: Message)
    | ResetDefaultRequest

  // m without the masked fields.
  function Cleared(m: Message, masked: seq<string>): Message {
    m.(fields := m.fields - AsTree(masked))
  }

  // When there are masked fields a Reset always has a mask, which names them.
  function ServerMask(mask: Option<Mask>, masked: seq<string>): Option<Mask> {
    if masked == [] then mask else Some((if mask.Some? then mask.value else {}) + AsTree(masked))
  }

  // The stores after a request; a failing one leaves them.
  function Handle(t: ConfigType, s: Stores, req: Request): Stores {
    match req
    case SetRequest(spec) =>
      (match Apply(t, s, Cleared(spec, t.masked)) case Ok(config) => WithActive(s, config) case Err(_) => s)
    case ResetRequest(mask, patch) =>
      (match Reset(t, s, ServerMask(mask, t.masked), Cleared(patch, t.masked), None)
       case Ok(outcome) => AfterReset(s, outcome) case Err(_) => s)
    case SetDefaultRequest(spec) =>
      (match SetDefault(t, s, Cleared(spec, t.masked)) case Ok(config) => WithDefault(s, config) case Err(_) => s)
    case ResetDefaultRequest =>
      if DeleteError(s.default_, None).None? then s.(default_ := s.default_ + [Deleted]) else s
  }

  lemma OneMoreName(names: seq<string>, i: nat)
    requires i < |names|
    ensures AsTree(names[..i + 1]) == AsTree(names[..i]) + {names[i]}
  {
  }

  function HandleAll(t: ConfigType, s: Stores, reqs: seq<Request>): Stores
    decreases |reqs|
  {
    if reqs == [] then s else HandleAll(t, Handle(t, s, reqs[0]), reqs[1..])
  }

  ghost predicate TypedRequest(t: ConfigType, req: Request) {
    match req
    case SetRequest(spec) => Conforms(spec, t.desc)
    case ResetRequest(_, patch) => Conforms(patch, t.desc)
    case SetDefaultRequest(spec) => Conforms(spec, t.desc)
    case ResetDefaultRequest => true
  }

  // ----- Masked fields over whole runs -----

  // The active config exists and holds v in field f.
  predicate HoldsField(s: Stores, f: string, v: Field) {
    Exists(s.active) && Lookup(Active(s), f) == Some(v)
  }

  lemma ClearedConforms(m: Message, t: ConfigType)
    requires Conforms(m, t.desc)
    ensures Conforms(Cleared(m, t.masked), t.desc)
  {
  }

  lemma SetKeepsField(t: ConfigType, s: Stores, spec: Message, f: string, v: Field)
    requires ValidType(t) && f in t.masked && HoldsField(s, f, v) && Conforms(spec, t.desc)
    ensures HoldsField(Handle(t, s, SetRequest(spec)), f, v)
  {
    var cleared := Cleared(spec, t.masked);
    ApplyIsCompareAndSwap(t, s, cleared);
    if Apply(t, s, cleared).Ok? {
      var config := Restore(cleared, Active(s), t.secrets);
      assert f !in config.fields;
      LookupMerge(Active(s), config, f);
    }
  }

  // The active config exists and holds v in the leaf.
  predicate HoldsLeaf(s: Stores, path: Path, v: Field) {
    Exists(s.active) && LeafAt(Active(s), path) == Some(v)
  }

  // A leaf is a matter of the top field it is under.
  lemma LeafByField(a: Message, b: Message, path: Path)
    requires path != [] && Lookup(a, path[0]) == Lookup(b, path[0])
    ensures LeafAt(a, path) == LeafAt(b, path)
  {
  }

  lemma SetKeepsLeaf(t: ConfigType, s: Stores, spec: Message, path: Path, v: Field)
    requires ValidType(t) && path != [] && path[0] in t.masked && HoldsLeaf(s, path, v) && Conforms(spec, t.desc)
    ensures HoldsLeaf(Handle(t, s, SetRequest(spec)), path, v)
  {
    hide Handle;
    SetKeepsField(t, s, spec, path[0], Active(s).fields[path[0]]);
    LeafByField(Active(s), Active(Handle(t, s, SetRequest(spec))), path);
  }

  // Keeping with a mask that names the leaf's top field, and resetting with a patch that lacks it,
  // keeps the leaf.
  lemma ResetValueKeepsLeaf(
    default_: Message, active: Message, patch: Message, mask: Mask, d: Desc, path: Path, v: Field)
    requires WellFormed(d) && !d.timed && Conforms(default_, d) && Conforms(active, d) && Conforms(patch, d)
    requires LeafAt(active, path) == Some(v) && path[0] in mask && path[0] !in patch.fields
    ensures LeafAt(ResetValue(default_, active, patch, mask), path) == Some(v)
  {
    PresentIsDeclared(active, d, path);
    assert DeclaredLeaf(d, path);
    assert path[0] <= path[0] && Covers(mask, path);
    if |path| > 1 { ZeroedStep(patch, path); }
    hide Conforms, WellFormed, Covers;
    ResetByCovering(default_, active, patch, mask, d, path);
  }

  lemma ResetKeepsLeaf(t: ConfigType, s: Stores, mask: Option<Mask>, patch: Message, path: Path, v: Field)
    requires ValidStores(t, s) && path != [] && path[0] in t.masked && HoldsLeaf(s, path, v) && Conforms(patch, t.desc)
    ensures HoldsLeaf(Handle(t, s, ResetRequest(mask, patch)), path, v)
  {
    assert ValidType(t) && Exists(s.active);
    ProtectedRequest(t, mask, patch, path[0]);
    ClearedConforms(patch, t);
    var cleared, full := Cleared(patch, t.masked), ServerMask(mask, t.masked).value;
    hide *;
    CurrentReset(t, s, full, cleared);
    HandleReset(t, s, mask, patch);
    match PlanReset(t, s, Active(s), full, cleared)
    case Ok(config) =>
      LeafSurvives(t, s, full, cleared, path, v);
      HoldsAfterWrite(s, config, path, v);
    case Err(_) =>
  }

  lemma ProtectedRequest(t: ConfigType, mask: Option<Mask>, patch: Message, f: string)
    requires f in t.masked && ValidType(t) && Conforms(patch, t.desc)
    ensures ServerMask(mask, t.masked).Some? && f in ServerMask(mask, t.masked).value
    ensures f !in Cleared(patch, t.masked).fields && !Cleared(patch, t.masked).timed
  {
  }

  lemma HandleReset(t: ConfigType, s: Stores, mask: Option<Mask>, patch: Message)
    ensures Handle(t, s, ResetRequest(mask, patch)) ==
              match Reset(t, s, ServerMask(mask, t.masked), Cleared(patch, t.masked), None)
              case Ok(Stored(config)) => WithActive(s, config)
              case Ok(Removed) => s.(active := s.active + [Deleted])
              case Err(_) => s
  {
  }

  lemma HoldsAfterWrite(s: Stores, config: Message, path: Path, v: Field)
    requires LeafAt(config, path) == Some(v)
    ensures HoldsLeaf(WithActive(s, config), path, v)
  {
  }

  // With an active config, Reset without a revision stores what it planned.
  lemma CurrentReset(t: ConfigType, s: Stores, mask: Mask, patch: Message)
    requires Exists(s.active)
    ensures Reset(t, s, Some(mask), patch, None) ==
              match PlanReset(t, s, Active(s), mask, patch) {
                case Ok(config) => Ok(Stored(config))
                case Err(e) => Err(e) }
  {
  }

  lemma LeafSurvives(t: ConfigType, s: Stores, mask: Mask, patch: Message, path: Path, v: Field)
    requires ValidStores(t, s) && path != [] && path[0] in t.masked && path[0] in mask && HoldsLeaf(s, path, v)
    requires path[0] !in patch.fields && Conforms(patch, t.desc) && PlanReset(t, s, Active(s), mask, patch).Ok?
    ensures LeafAt(PlanReset(t, s, Active(s), mask, patch).value, path) == Some(v)
  {
    var norm := Normalize(mask);
    var resolved := Restore(patch, Keep(Active(s), norm), t.secrets);
    assert path[0] in t.desc.kinds && path[0] !in resolved.fields;
    NormalizeAt(mask, path[0]);
    RestoreConforms(patch, Keep(Active(s), norm), t);
    CurrentTyped(t, s);
    PlannedValue(t, s, mask, patch);
    hide LeafAt, Keep, Restore, Normalize, Conforms, ResetValue, PlanReset, CurrentDefault, Typed, WellFormed;
    ResetValueKeepsLeaf(CurrentDefault(t, s), Active(s), resolved, norm, t.desc, path, v);
  }

  lemma CurrentTyped(t: ConfigType, s: Stores)
    requires ValidStores(t, s) && Exists(s.active)
    ensures Conforms(Active(s), t.desc) && Conforms(CurrentDefault(t, s), t.desc)
  {
  }

  lemma PlannedValue(t: ConfigType, s: Stores, mask: Mask, patch: Message)
    requires Exists(s.active) && PlanReset(t, s, Active(s), mask, patch).Ok?
    ensures var norm := Normalize(mask);
            PlanReset(t, s, Active(s), mask, patch).value ==
              ResetValue(CurrentDefault(t, s), Active(s), Restore(patch, Keep(Active(s), norm), t.secrets), norm)
  {
    hide Normalize, Keep, Restore, Discontinuous, ValidMask, ResetValue;
    CurrentReads(t, s);
  }

  // Typing survives every request.
  lemma HandleTyped(t: ConfigType, s: Stores, req: Request)
    requires ValidStores(t, s) && TypedRequest(t, req)
    ensures ValidStores(t, Handle(t, s, req))
  {
    hide Merge, Keep, Restore, Normalize, ResetValue, Discontinuous, UnsetRevision, Conforms;
    ReadTyped(t, s);
    match req
    case SetRequest(spec) =>
      var m := Cleared(spec, t.masked);
      ClearedConforms(spec, t);
      if Apply(t, s, m).Ok? {
        ApplyTyped(t, s, m, ActiveOrDefault(t, s, RevisionNumber(m, t.revision)).value.config);
        TypedPut(t, s.active, Apply(t, s, m).value);
      }
    case ResetRequest(mask, patch) =>
      ClearedConforms(patch, t);
      var full, m := ServerMask(mask, t.masked), Cleared(patch, t.masked);
      if Reset(t, s, full, m, None).Ok? { ResetTyped(t, s, full, m); }
    case SetDefaultRequest(spec) =>
      var m := Cleared(spec, t.masked);
      ClearedConforms(spec, t);
      if SetDefault(t, s, m).Ok? {
        var existing := DefaultConfig(t, s, None).value.config;
        RestoreConforms(m, existing, t);
        UnsetConforms(Restore(m, existing, t.secrets), t);
        TypedPut(t, s.default_, SetDefault(t, s, m).value);
      }
    case ResetDefaultRequest =>
      if DeleteError(s.default_, None).None? { TypedDelete(t, s.default_); }
  }

  lemma ResetTyped(t: ConfigType, s: Stores, mask: Option<Mask>, patch: Message)
    requires ValidStores(t, s) && Conforms(patch, t.desc) && Reset(t, s, mask, patch, None).Ok?
    ensures ValidStores(t, AfterReset(s, Reset(t, s, mask, patch, None).value))
  {
    hide Merge, Keep, Restore, Normalize, Discontinuous, Conforms, ValidMask, WellFormed;
    ReadTyped(t, s);
    if mask.None? {
      TypedDelete(t, s.active);
    } else {
      var active, norm := ReadLog(s.active, None).value.value, Normalize(mask.value);
      var kept := Keep(active, norm);
      var resolved := Restore(patch, kept, t.secrets);
      KeepConforms(active, t.desc, norm);
      RestoreConforms(patch, kept, t);
      KeepConforms(resolved, t.desc, norm);
      MergeConforms(kept, Keep(resolved, norm), t.desc);
      MergeConforms(DefaultConfig(t, s, None).value.config, Merge(kept, Keep(resolved, norm)), t.desc);
      TypedPut(t, s.active, Reset(t, s, mask, patch, None).value.config);
    }
  }

  // Once the active config holds v in a leaf that is a masked field or is under one, every sequence of
  // requests leaves v there and the config active.
  lemma {:induction false} MaskedFieldIsSafe(t: ConfigType, s: Stores, reqs: seq<Request>, path: Path, v: Field)
    requires ValidStores(t, s) && path != [] && path[0] in t.masked && HoldsLeaf(s, path, v)
    requires forall req | req in reqs :: TypedRequest(t, req)
    ensures HoldsLeaf(HandleAll(t, s, reqs), path, v)
    decreases |reqs|
  {
    if reqs != [] {
      var req := reqs[0];
      HandleTyped(t, s, req);
      match req {
        case SetRequest(spec) => SetKeepsLeaf(t, s, spec, path, v);
        case ResetRequest(mask, patch) => ResetKeepsLeaf(t, s, mask, patch, path, v);
        case SetDefaultRequest(_) =>
        case ResetDefaultRequest =>
      }
      MaskedFieldIsSafe(t, Handle(t, s, req), reqs[1..], path, v);
    }
  }

  // ----- The server -----

  class Server {
    const tracker: Tracker

    constructor (tracker: Tracker)
      ensures this.tracker == tracker
    {
      this.tracker := tracker;
    }

    ghost predicate Valid()
      reads this, tracker, tracker.active, tracker.active.ring, tracker.default_, tracker.default_.ring
    {
      tracker.Valid()
    }

    method ClearMaskedFields(m: Message) returns (out: Message)
      ensures out == Cleared(m, tracker.t.masked) && out.timed == m.timed
      ensures forall k :: Lookup(out, k) == if k in tracker.t.masked then None else Lookup(m, k)
    {
      out := m;
      for i := 0 to |tracker.t.masked|
        invariant out == Cleared(m, tracker.t.masked[..i])
      {
        var field := tracker.t.masked[i];
        OneMoreName(tracker.t.masked, i);
        if field in out.fields {
          out := out.(fields := out.fields - {field});
        }
      }
      assert tracker.t.masked[..|tracker.t.masked|] == tracker.t.masked;
    }

    method Set(spec: Message) returns (err: Option<TrackerSpec.ConfigError>)
      requires Valid() && Conforms(spec, tracker.t.desc)
      modifies tracker.active, tracker.active.ring
      ensures Valid() && tracker.State() == Handle(tracker.t, old(tracker.State()), SetRequest(spec))
    {
      var cleared := ClearMaskedFields(spec);
      ClearedConforms(spec, tracker.t);
      err := tracker.Apply(cleared);
    }

    method Reset(mask: Option<Mask>, patch: Message) returns (err: Option<TrackerSpec.ConfigError>)
      requires Valid() && Conforms(patch, tracker.t.desc)
      modifies tracker.active, tracker.active.ring
      ensures Valid() && tracker.State() == Handle(tracker.t, old(tracker.State()), ResetRequest(mask, patch))
    {
      var fullMask, fullPatch := mask, patch;
      if |tracker.t.masked| > 0 {
        var all := AppendMaskedFields(if mask.Some? then mask.value else {});
        fullMask := Some(all);
        fullPatch := ClearMaskedFields(patch);
      }
      assert tracker.t.masked == [] ==> Cleared(patch, tracker.t.masked) == patch by {
        assert patch.fields - AsTree([]) == patch.fields;
      }
      ClearedConforms(patch, tracker.t);
      hide Cleared, TrackerSpec.ValidStores;
      err := tracker.Reset(fullMask, fullPatch, None);
    }

    method AppendMaskedFields(mask: Mask) returns (out: Mask)
      ensures out == mask + AsTree(tracker.t.masked)
    {
      out := mask;
      for i := 0 to |tracker.t.masked|
        invariant out == mask + AsTree(tracker.t.masked[..i])
      {
        OneMoreName(tracker.t.masked, i);
        out := out + {tracker.t.masked[i]};
      }
      assert tracker.t.masked[..|tracker.t.masked|] == tracker.t.masked;
    }

    method SetDefault(spec: Message) returns (err: Option<TrackerSpec.ConfigError>)
      requires Valid() && Conforms(spec, tracker.t.desc)
      modifies tracker.default_, tracker.default_.ring
      ensures Valid() && tracker.State() == Handle(tracker.t, old(tracker.State()), SetDefaultRequest(spec))
    {
      var cleared := ClearMaskedFields(spec);
      ClearedConforms(spec, tracker.t);
      err := tracker.SetDefault(cleared);
    }

    method ResetDefault() returns (err: Option<TrackerSpec.ConfigError>)
      requires Valid()
      modifies tracker.default_, tracker.default_.ring
      ensures Valid() && tracker.State() == Handle(tracker.t, old(tracker.State()), ResetDefaultRequest)
    {
      err := tracker.ResetDefault(None);
    }
  }
}

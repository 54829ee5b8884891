// The masks built from a message's own presence and absence (util/fieldmask/masks.go:13-96),
// with the laws its documentation states for them.
module Presence {
  import opened Basics
  import opened Messages
  import opened Masks
  import opened MaskLaws

  // Texts of the populated leaves.
  function Present(m: Message): set<string>
    decreases m, 1
  {
    PathSet(PresentNames(m), PresentSubs(m))
  }

  function PresentSubs(m: Message): map<string, set<string>>
    decreases m, 0
  {
    map k | k in m.fields && m.fields[k].Sub? :: Present(m.fields[k].msg)
  }

  function PresentNames(m: Message): set<string> {
    set k | k in m.fields && !m.fields[k].Sub?
  }

  // Texts of the highest unpopulated fields.
  function Absent(m: Message, d: Desc): set<string>
    decreases m, 1
  {
    PathSet(d.kinds.Keys - m.fields.Keys, AbsentSubs(m, d))
  }

  function AbsentSubs(m: Message, d: Desc): map<string, set<string>>
    decreases m, 0
  {
    map k | k in m.fields && m.fields[k].Sub? && k in d.kinds && d.kinds[k].MessageKind? ::
      Absent(m.fields[k].msg, d.kinds[k].desc)
  }

  lemma PresentAt(m: Message, d: Desc, k: string)
    requires WellFormed(d) && Conforms(m, d) && k in d.kinds
    ensures k in Present(m) <==> k in m.fields && !m.fields[k].Sub?
    ensures Below(Present(m), k) == if k in m.fields && m.fields[k].Sub? then Present(m.fields[k].msg) else {}
  {
    PathSetAt(PresentNames(m), PresentSubs(m), k);
  }

  lemma AbsentAt(m: Message, d: Desc, k: string)
    requires WellFormed(d) && Conforms(m, d) && k in d.kinds
    ensures k in m.fields && m.fields[k].Sub? ==> d.kinds[k].MessageKind?
    ensures k in Absent(m, d) <==> k !in m.fields
    ensures Below(Absent(m, d), k) == if k in m.fields && m.fields[k].Sub?
            then Absent(m.fields[k].msg, d.kinds[k].desc) else {}
  {
    PathSetAt(d.kinds.Keys - m.fields.Keys, AbsentSubs(m, d), k);
    assert k in m.fields ==> FieldConforms(m.fields[k], d.kinds[k]);
  }

  // ----- The source's loops -----

  method AppendBelow(paths: seq<string>, name: string, nested: seq<string>) returns (out: seq<string>)
    ensures out == paths + Prefixed(name + ".", nested)
  {
    out := paths;
    for i := 0 to |nested|
      invariant out == paths + Prefixed(name + ".", nested)[..i]
    {
      out := out + [name + "." + nested[i]];
    }
  }

  // The share of Present and Absent that comes from the fields in done.
  ghost function PresentNamesIn(m: Message, done: seq<string>): set<string> {
    set k | k in done && k in m.fields && !m.fields[k].Sub?
  }

  ghost function PresentSubsIn(m: Message, done: seq<string>): map<string, set<string>> {
    map k | k in done && k in m.fields && m.fields[k].Sub? :: Present(m.fields[k].msg)
  }

  ghost function AbsentNamesIn(m: Message, done: seq<string>): set<string> {
    set k | k in done && k !in m.fields
  }

  ghost function AbsentSubsIn(m: Message, d: Desc, done: seq<string>): map<string, set<string>> {
    map k | k in done && k in m.fields && m.fields[k].Sub? && k in d.kinds && d.kinds[k].MessageKind? ::
      Absent(m.fields[k].msg, d.kinds[k].desc)
  }

  lemma OneMorePresent(m: Message, d: Desc, done: seq<string>, k: string)
    requires k !in done && k in d.kinds && (k in m.fields ==> FieldConforms(m.fields[k], d.kinds[k]))
    ensures var names, subs := PresentNamesIn(m, done), PresentSubsIn(m, done);
            var leaf, sub := k in m.fields && !m.fields[k].Sub?, k in m.fields && m.fields[k].Sub?;
            && k !in names && k !in subs
            && PresentNamesIn(m, done + [k]) == (if leaf then names + {k} else names)
            && PresentSubsIn(m, done + [k]) == (if sub then subs[k := Present(m.fields[k].msg)] else subs)
  {
    hide Present;
    assert forall j :: j in done + [k] <==> j in done || j == k;
  }

  lemma OneMoreAbsent(m: Message, d: Desc, done: seq<string>, k: string)
    requires k !in done && k in d.kinds && (k in m.fields ==> FieldConforms(m.fields[k], d.kinds[k]))
    ensures var names, subs := AbsentNamesIn(m, done), AbsentSubsIn(m, d, done);
            var none, sub := k !in m.fields, k in m.fields && m.fields[k].Sub?;
            && k !in names && k !in subs
            && (sub ==> d.kinds[k].MessageKind?)
            && AbsentNamesIn(m, done + [k]) == (if none then names + {k} else names)
            && AbsentSubsIn(m, d, done + [k]) ==
                 (if sub then subs[k := Absent(m.fields[k].msg, d.kinds[k].desc)] else subs)
  {
  }

  lemma AllFields(m: Message, d: Desc)
    requires WellFormed(d) && Conforms(m, d)
    ensures PathSet(PresentNamesIn(m, d.names), PresentSubsIn(m, d.names)) == Present(m)
    ensures PathSet(AbsentNamesIn(m, d.names), AbsentSubsIn(m, d, d.names)) == Absent(m, d)
  {
    assert PresentNamesIn(m, d.names) == PresentNames(m);
    assert PresentSubsIn(m, d.names) == PresentSubs(m);
    assert AbsentNamesIn(m, d.names) == d.kinds.Keys - m.fields.Keys;
    assert AbsentSubsIn(m, d, d.names) == AbsentSubs(m, d);
  }

  method RangePresentMessageFields(msg: Message, d: Desc) returns (paths: seq<string>)
    requires WellFormed(d) && Conforms(msg, d)
    ensures NoDuplicates(paths) && (set p | p in paths) == Present(msg)
    decreases d
  {
    paths := [];
    assert Collected(paths, PresentNamesIn(msg, []), PresentSubsIn(msg, []));
    for i := 0 to |d.names|
      invariant Collected(paths, PresentNamesIn(msg, d.names[..i]), PresentSubsIn(msg, d.names[..i]))
    {
      hide Collected, Present, PresentNamesIn, PresentSubsIn, Conforms, WellFormed;
      var field := d.names[i];
      FieldTyped(msg, d, i);
      assert d.names[..i + 1] == d.names[..i] + [field];
      OneMorePresent(msg, d, d.names[..i], field);
      if field !in msg.fields {
        continue;
      }
      if msg.fields[field].Sub? {
        var nested := RangePresentMessageFields(msg.fields[field].msg, d.kinds[field].desc);
        CollectSub(paths, PresentNamesIn(msg, d.names[..i]), PresentSubsIn(msg, d.names[..i]), field, nested);
        paths := AppendBelow(paths, field, nested);
      } else {
        CollectName(paths, PresentNamesIn(msg, d.names[..i]), PresentSubsIn(msg, d.names[..i]), field);
        paths := paths + [field];
      }
    }
    assert d.names[..|d.names|] == d.names;
    AllFields(msg, d);
  }

  method RangeAbsentMessageFields(msg: Message, d: Desc) returns (paths: seq<string>)
    requires WellFormed(d) && Conforms(msg, d)
    ensures NoDuplicates(paths) && (set p | p in paths) == Absent(msg, d)
    decreases d
  {
    paths := [];
    assert Collected(paths, AbsentNamesIn(msg, []), AbsentSubsIn(msg, d, []));
    for i := 0 to |d.names|
      invariant Collected(paths, AbsentNamesIn(msg, d.names[..i]), AbsentSubsIn(msg, d, d.names[..i]))
    {
      hide Collected, Absent, AbsentNamesIn, AbsentSubsIn, Conforms, WellFormed;
      var field := d.names[i];
      FieldTyped(msg, d, i);
      assert d.names[..i + 1] == d.names[..i] + [field];
      OneMoreAbsent(msg, d, d.names[..i], field);
      if field !in msg.fields {
        CollectName(paths, AbsentNamesIn(msg, d.names[..i]), AbsentSubsIn(msg, d, d.names[..i]), field);
        paths := paths + [field];
        continue;
      }
      if msg.fields[field].Sub? {
        var nested := RangeAbsentMessageFields(msg.fields[field].msg, d.kinds[field].desc);
        CollectSub(paths, AbsentNamesIn(msg, d.names[..i]), AbsentSubsIn(msg, d, d.names[..i]), field, nested);
        paths := AppendBelow(paths, field, nested);
      }
    }
    assert d.names[..|d.names|] == d.names;
    AllFields(msg, d);
  }

  // ----- The documented laws -----

  // m without the sub-messages that hold no leaf at any depth.
  function Prune(m: Message): Message {
    Message(m.timed, map k | k in m.fields && (m.fields[k].Sub? ==> Prune(m.fields[k].msg).fields != map[]) ::
                       if m.fields[k].Sub? then Sub(Prune(m.fields[k].msg)) else m.fields[k])
  }

  lemma {:induction false} PresentEmpty(m: Message)
    ensures Present(m) == {} <==> Prune(m).fields == map[]
    decreases m
  {
    forall k | k in m.fields && m.fields[k].Sub?
      ensures Present(m.fields[k].msg) == {} <==> Prune(m.fields[k].msg).fields == map[]
    {
      PresentEmpty(m.fields[k].msg);
    }
    var subs := PresentSubs(m);
    if p :| p in Present(m) {
      if p in PresentNames(m) {
        assert p in Prune(m).fields;
      } else {
        var k, q :| k in subs && q in subs[k] && p == k + "." + q;
        assert k in Prune(m).fields;
      }
    }
    if k :| k in Prune(m).fields {
      if m.fields[k].Sub? {
        var q :| q in subs[k];
        assert k + "." + q in Present(m);
      } else {
        assert k in Present(m);
      }
    }
  }

  // Keeping the present fields drops leafless sub-messages and nothing else.
  lemma {:induction false} KeepPresent(m: Message, d: Desc)
    requires WellFormed(d) && Conforms(m, d)
    ensures Keep(m, Present(m)) == Prune(m)
    decreases m
  {
    var kept := Keep(m, Present(m));
    forall k
      ensures k in kept.fields <==> k in Prune(m).fields
      ensures k in kept.fields ==> kept.fields[k] == Prune(m).fields[k]
    {
      FieldByField(m, Present(m), k);
      if k in m.fields {
        PresentAt(m, d, k);
        assert FieldConforms(m.fields[k], d.kinds[k]);
        if m.fields[k].Sub? {
          var sub := m.fields[k].msg;
          KeepPresent(sub, d.kinds[k].desc);
          PresentEmpty(sub);
          if q :| q in Present(sub) {
            InRelative(Present(m), k + ".", q);
            assert k <= k + "." + q;
          }
        } else {
          assert k <= k;
        }
      }
    }
  }

  lemma {:induction false} PruneIsIdentity(m: Message)
    ensures Prune(m) == m <==> NoEmptySub(m)
    decreases m
  {
    forall k | k in m.fields && m.fields[k].Sub?
      ensures Prune(m.fields[k].msg) == m.fields[k].msg <==> NoEmptySub(m.fields[k].msg)
    {
      PruneIsIdentity(m.fields[k].msg);
    }
    if Prune(m) == m {
      forall k | k in m.fields && m.fields[k].Sub?
        ensures m.fields[k].msg.fields != map[] && NoEmptySub(m.fields[k].msg)
      {
        assert Prune(m).fields[k] == Sub(Prune(m.fields[k].msg));
      }
    }
    if NoEmptySub(m) { assert Prune(m).fields == m.fields; }
  }

  // The first documented law of ExclusiveKeep holds exactly when no sub-message is present but empty.
  lemma KeepPresentExactly(m: Message, d: Desc)
    requires WellFormed(d) && Conforms(m, d)
    ensures Keep(m, Present(m)) == m <==> NoEmptySub(m)
  {
    KeepPresent(m, d);
    PruneIsIdentity(m);
  }

  // Without empty sub-messages the present fields cover everything.
  lemma {:induction false} DiscardPresent(m: Message, d: Desc)
    requires WellFormed(d) && Conforms(m, d) && NoEmptySub(m)
    ensures Discard(m, Present(m)).fields == map[]
    decreases m
  {
    forall k | k in m.fields
      ensures k !in Discard(m, Present(m)).fields
    {
      FieldByField(m, Present(m), k);
      PresentAt(m, d, k);
      assert FieldConforms(m.fields[k], d.kinds[k]);
      if m.fields[k].Sub? {
        var sub := m.fields[k].msg;
        DiscardPresent(sub, d.kinds[k].desc);
        PresentEmpty(sub);
        PruneIsIdentity(sub);
        var q :| q in Present(sub);
        InRelative(Present(m), k + ".", q);
        assert k <= k + "." + q;
      } else {
        assert k <= k;
      }
    }
    if k :| k in Discard(m, Present(m)).fields { FieldByField(m, Present(m), k); }
  }

  // No sibling's name is a prefix of another's.
  ghost predicate PrefixFree(d: Desc) {
    && (forall a, b | a in d.kinds && b in d.kinds && a <= b :: a == b)
    && (forall k | k in d.kinds && d.kinds[k].MessageKind? :: PrefixFree(d.kinds[k].desc))
  }

  // A populated sibling's name starts with k's, and something of that sibling is present.
  ghost predicate Sheltered(m: Message, k: string) {
    exists j :: j in m.fields && j != k && k <= j && (m.fields[j].Sub? ==> Present(m.fields[j].msg) != {})
  }

  // Some sub-message is not covered by the present leaves: it has none of its own, and either holds
  // something all the same or is not reached through a sibling's name either.
  ghost predicate Leftover(m: Message)
    decreases m, 1
  {
    exists k :: k in m.fields && FieldLeftover(m, k)
  }

  ghost predicate FieldLeftover(m: Message, k: string)
    requires k in m.fields
    decreases m, 0
  {
    && m.fields[k].Sub?
    && if Present(m.fields[k].msg) == {} then m.fields[k].msg.fields != map[] || !Sheltered(m, k)
       else Leftover(m.fields[k].msg)
  }

  lemma PresentReaches(m: Message, k: string)
    requires NoDot(k) && k in m.fields && m.fields[k].Sub?
    ensures HasPrefix(Present(m), k) <==> Sheltered(m, k) || Present(m.fields[k].msg) != {}
  {
    var names, subs := PresentNames(m), PresentSubs(m);
    PathSetPrefix(names, subs, k);
    hide Present, PathSet;
    if Present(m.fields[k].msg) != {} { assert k in subs && k <= k; }
    if j :| j in m.fields && j != k && k <= j && (m.fields[j].Sub? ==> Present(m.fields[j].msg) != {}) {
      if m.fields[j].Sub? { assert j in subs; } else { assert j in names; }
    }
  }

  // The first documented law of ExclusiveDiscard, with its exact condition.
  lemma {:induction false} DiscardPresentExactly(m: Message, d: Desc)
    requires WellFormed(d) && Conforms(m, d)
    ensures Discard(m, Present(m)).fields == map[] <==> !Leftover(m)
    decreases m, 1
  {
    var out := Discard(m, Present(m));
    forall k | k in m.fields
      ensures k in out.fields <==> FieldLeftover(m, k)
    {
      DiscardPresentField(m, d, k);
    }
    if k :| k in out.fields { FieldByField(m, Present(m), k); }
  }

  lemma {:induction false} DiscardPresentField(m: Message, d: Desc, k: string)
    requires WellFormed(d) && Conforms(m, d) && k in m.fields
    ensures k in Discard(m, Present(m)).fields <==> FieldLeftover(m, k)
    decreases m, 0
  {
    assert FieldConforms(m.fields[k], d.kinds[k]);
    FieldByField(m, Present(m), k);
    PresentAt(m, d, k);
    if m.fields[k].Sub? {
      var sub := m.fields[k].msg;
      PresentReaches(m, k);
      NothingDiscarded(sub);
      hide Present, Discard, HasPrefix, Sheltered, Conforms, WellFormed;
      DiscardPresentExactly(sub, d.kinds[k].desc);
    } else {
      assert k <= k;
    }
  }

  // With prefix-free names that condition is that no sub-message is present but empty.
  lemma {:induction false} LeftoverIsEmptySub(m: Message, d: Desc)
    requires WellFormed(d) && Conforms(m, d) && PrefixFree(d)
    ensures Leftover(m) <==> !NoEmptySub(m)
    decreases m, 1
  {
    if NoEmptySub(m) {
      DiscardPresent(m, d);
      DiscardPresentExactly(m, d);
    } else {
      var k :| k in m.fields && m.fields[k].Sub? && (m.fields[k].msg.fields == map[] || !NoEmptySub(m.fields[k].msg));
      EmptySubIsLeftover(m, d, k);
    }
  }

  lemma {:induction false} EmptySubIsLeftover(m: Message, d: Desc, k: string)
    requires WellFormed(d) && Conforms(m, d) && PrefixFree(d)
    requires k in m.fields && m.fields[k].Sub? && (m.fields[k].msg.fields == map[] || !NoEmptySub(m.fields[k].msg))
    ensures FieldLeftover(m, k)
    decreases m, 0
  {
    assert FieldConforms(m.fields[k], d.kinds[k]);
    assert forall j | j in m.fields :: j in d.kinds;
    assert !Sheltered(m, k);
    if m.fields[k].msg.fields == map[] {
      PresentEmpty(m.fields[k].msg);
    } else if Present(m.fields[k].msg) != {} {
      hide Present, Sheltered, NoEmptySub;
      LeftoverIsEmptySub(m.fields[k].msg, d.kinds[k].desc);
    }
  }

  // Without that hypothesis it is weaker: a sibling's name can reach an empty sub-message.
  lemma ShelteredSubIsCleared()
    ensures var d := Desc(false, ["s", "st"],
            map["s" := MessageKind(Desc(false, [], map[])), "st" := LeafKind(Value(Number(0)))]);
            var m := Message(false, map["s" := Sub(EmptyMessage(false)), "st" := Value(Number(1))]);
            WellFormed(d) && Conforms(m, d) && !NoEmptySub(m) && Discard(m, Present(m)).fields == map[]
  {
    var inner := Desc(false, [], map[]);
    var d := Desc(false, ["s", "st"], map["s" := MessageKind(inner), "st" := LeafKind(Value(Number(0)))]);
    var m := Message(false, map["s" := Sub(EmptyMessage(false)), "st" := Value(Number(1))]);
    hide Present, Discard;
    assert d.names[0] == "s" && d.names[1] == "st";
    assert WellFormed(inner) && Conforms(EmptyMessage(false), inner);
    assert m.fields["s"].Sub? && m.fields["s"].msg.fields == map[];
    assert "st" in m.fields && "st" != "s" && "s" <= "st";
    assert Sheltered(m, "s");
    PresentEmpty(EmptyMessage(false));
    assert !Leftover(m);
    DiscardPresentExactly(m, d);
  }

  // A sibling of k that is unpopulated, or has unpopulated fields of its own, starts with k's name.
  ghost predicate ShadowedName(m: Message, d: Desc, k: string) {
    exists j :: j in d.kinds && j != k && k <= j && (j !in m.fields || HasAbsent(m, d, j))
  }

  ghost predicate HasAbsent(m: Message, d: Desc, j: string) {
    && j in m.fields && m.fields[j].Sub? && j in d.kinds && d.kinds[j].MessageKind?
    && Absent(m.fields[j].msg, d.kinds[j].desc) != {}
  }

  // Some populated leaf is shadowed.
  ghost predicate Shadowed(m: Message, d: Desc)
    decreases m, 1
  {
    exists k :: k in m.fields && k in d.kinds && FieldShadowed(m, d, k)
  }

  ghost predicate FieldShadowed(m: Message, d: Desc, k: string)
    requires k in m.fields && k in d.kinds
    decreases m, 0
  {
    if m.fields[k].Sub? then d.kinds[k].MessageKind? && Shadowed(m.fields[k].msg, d.kinds[k].desc)
    else ShadowedName(m, d, k)
  }

  lemma AbsentReaches(m: Message, d: Desc, k: string)
    requires WellFormed(d) && Conforms(m, d) && k in m.fields
    ensures HasPrefix(Absent(m, d), k) <==> ShadowedName(m, d, k) || HasAbsent(m, d, k)
  {
    var names, subs := d.kinds.Keys - m.fields.Keys, AbsentSubs(m, d);
    PathSetPrefix(names, subs, k);
    AbsentNameStarts(m, d, k);
    AbsentSubStarts(m, d, k);
    hide PathSet, NameStarts, SubStarts, ShadowedName, HasAbsent, HasPrefix, Conforms, WellFormed, AbsentSubs;
  }

  lemma AbsentNameStarts(m: Message, d: Desc, k: string)
    requires k in m.fields
    ensures NameStarts(d.kinds.Keys - m.fields.Keys, k) ==> ShadowedName(m, d, k)
  {
  }

  lemma AbsentSubStarts(m: Message, d: Desc, k: string)
    ensures SubStarts(AbsentSubs(m, d), k) ==> ShadowedName(m, d, k) || HasAbsent(m, d, k)
    ensures HasAbsent(m, d, k) ==> SubStarts(AbsentSubs(m, d), k)
    ensures ShadowedName(m, d, k) ==> SubStarts(AbsentSubs(m, d), k) || NameStarts(d.kinds.Keys - m.fields.Keys, k)
  {
    hide Absent;
    if HasAbsent(m, d, k) { assert k in AbsentSubs(m, d) && k <= k; }
    if ShadowedName(m, d, k) {
      var j :| j in d.kinds && j != k && k <= j && (j !in m.fields || HasAbsent(m, d, j));
      if j in m.fields { assert j in AbsentSubs(m, d); } else { assert j in d.kinds.Keys - m.fields.Keys; }
    }
    if SubStarts(AbsentSubs(m, d), k) {
      var n :| n in AbsentSubs(m, d) && AbsentSubs(m, d)[n] != {} && k <= n;
      assert HasAbsent(m, d, n);
    }
  }

  // The second documented law of ExclusiveKeep holds exactly when no populated leaf is shadowed.
  lemma {:induction false} KeepAbsentExactly(m: Message, d: Desc)
    requires WellFormed(d) && Conforms(m, d)
    ensures Keep(m, Absent(m, d)).fields == map[] <==> !Shadowed(m, d)
    ensures Shadowed(m, d) ==> Absent(m, d) != {}
    decreases m, 1
  {
    var kept := Keep(m, Absent(m, d));
    forall k | k in m.fields
      ensures k in kept.fields <==> FieldShadowed(m, d, k)
      ensures FieldShadowed(m, d, k) ==> Absent(m, d) != {}
    {
      KeepAbsentField(m, d, k);
    }
    if k :| k in kept.fields { FieldByField(m, Absent(m, d), k); }
  }

  lemma {:induction false} KeepAbsentField(m: Message, d: Desc, k: string)
    requires WellFormed(d) && Conforms(m, d) && k in m.fields
    ensures k in Keep(m, Absent(m, d)).fields <==> FieldShadowed(m, d, k)
    ensures FieldShadowed(m, d, k) ==> Absent(m, d) != {}
    decreases m, 0
  {
    var mask := Absent(m, d);
    assert FieldConforms(m.fields[k], d.kinds[k]);
    FieldByField(m, mask, k);
    AbsentAt(m, d, k);
    AbsentReaches(m, d, k);
    hide Absent, Keep, Conforms, WellFormed;
    if m.fields[k].Sub? {
      var sub, sd := m.fields[k].msg, d.kinds[k].desc;
      KeepAbsentExactly(sub, sd);
    }
    if HasPrefix(mask, k) { assert mask != {}; }
  }

  // Leaf-prefix-free names never shadow.
  lemma {:induction false} NothingShadowed(m: Message, d: Desc)
    requires WellFormed(d) && Conforms(m, d) && LeafPrefixFree(d)
    ensures !Shadowed(m, d)
    decreases m
  {
    forall k | k in m.fields && k in d.kinds
      ensures !FieldShadowed(m, d, k)
    {
      assert FieldConforms(m.fields[k], d.kinds[k]);
      if m.fields[k].Sub? { NothingShadowed(m.fields[k].msg, d.kinds[k].desc); }
    }
  }

  // Some present but empty sub-message is reached by the mask of unpopulated fields: it declares
  // a field of its own, or its name is shadowed.
  ghost predicate Exposed(m: Message, d: Desc)
    decreases m, 1
  {
    exists k :: k in m.fields && k in d.kinds && FieldExposed(m, d, k)
  }

  ghost predicate FieldExposed(m: Message, d: Desc, k: string)
    requires k in m.fields && k in d.kinds
    decreases m, 0
  {
    && m.fields[k].Sub? && d.kinds[k].MessageKind?
    && if m.fields[k].msg.fields == map[] then d.kinds[k].desc.kinds != map[] || ShadowedName(m, d, k)
       else Exposed(m.fields[k].msg, d.kinds[k].desc)
  }

  // The second documented law of ExclusiveDiscard, with its exact condition.
  lemma {:induction false} DiscardAbsentExactly(m: Message, d: Desc)
    requires WellFormed(d) && Conforms(m, d)
    ensures Discard(m, Absent(m, d)) == m <==> !Shadowed(m, d) && !Exposed(m, d)
    ensures Exposed(m, d) ==> Absent(m, d) != {}
    decreases m, 1
  {
    var out := Discard(m, Absent(m, d));
    forall k | k in m.fields
      ensures Lookup(out, k) == Some(m.fields[k]) <==> !FieldShadowed(m, d, k) && !FieldExposed(m, d, k)
      ensures FieldExposed(m, d, k) ==> Absent(m, d) != {}
    {
      DiscardAbsentField(m, d, k);
    }
    forall k | k in out.fields
      ensures k in m.fields
    {
      FieldByField(m, Absent(m, d), k);
    }
    assert out.fields == m.fields <==> forall k | k in m.fields :: Lookup(out, k) == Some(m.fields[k]);
  }

  lemma {:induction false} DiscardAbsentField(m: Message, d: Desc, k: string)
    requires WellFormed(d) && Conforms(m, d) && k in m.fields
    ensures Lookup(Discard(m, Absent(m, d)), k) == Some(m.fields[k]) <==>
            !FieldShadowed(m, d, k) && !FieldExposed(m, d, k)
    ensures FieldExposed(m, d, k) ==> Absent(m, d) != {}
    decreases m, 0
  {
    var mask := Absent(m, d);
    assert FieldConforms(m.fields[k], d.kinds[k]);
    FieldByField(m, mask, k);
    AbsentAt(m, d, k);
    AbsentReaches(m, d, k);
    KeepAbsentField(m, d, k);
    if HasPrefix(mask, k) { assert mask != {}; }
    hide Conforms, WellFormed, HasPrefix;
    if m.fields[k].Sub? {
      var sub, sd := m.fields[k].msg, d.kinds[k].desc;
      DiscardAbsentExactly(sub, sd);
      KeepAbsentExactly(sub, sd);
      if sub.fields == map[] {
        EmptyAbsent(sub, sd);
        assert Discard(sub, Absent(sub, sd)).fields == map[];
        assert !Shadowed(sub, sd) && !Exposed(sub, sd);
      }
      hide Absent;
    }
  }

  lemma EmptyAbsent(m: Message, d: Desc)
    requires m.fields == map[]
    ensures Absent(m, d) == {} <==> d.kinds == map[]
  {
    assert AbsentSubs(m, d) == map[];
    assert Absent(m, d) == PathSet(d.kinds.Keys, map[]);
    assert PathSet(d.kinds.Keys, map[]) == d.kinds.Keys;
    if k :| k in d.kinds { assert k in d.kinds.Keys; }
  }

  // The hypotheses are needed: an unpopulated sibling "ab" protects leaf "a" from being cleared,
  // and an empty sub-message is lost.
  lemma ShadowedLeafIsKept()
    ensures var d := Desc(false, ["a", "ab"],
            map["a" := LeafKind(Value(Number(0))), "ab" := LeafKind(Value(Number(0)))]);
            var m := Message(false, map["a" := Value(Number(1))]);
            WellFormed(d) && Conforms(m, d) && Keep(m, Absent(m, d)).fields != map[]
  {
    var d := Desc(false, ["a", "ab"], map["a" := LeafKind(Value(Number(0))), "ab" := LeafKind(Value(Number(0)))]);
    var m := Message(false, map["a" := Value(Number(1))]);
    assert "ab" in d.kinds && "a" <= "ab" && "ab" != "a" && "ab" !in m.fields;
    assert FieldShadowed(m, d, "a");
    KeepAbsentExactly(m, d);
  }

  lemma EmptySubIsDropped()
    ensures var d := Desc(false, ["s"], map["s" := MessageKind(Desc(false, [], map[]))]);
            var m := Message(false, map["s" := Sub(EmptyMessage(false))]);
            WellFormed(d) && Conforms(m, d) && Keep(m, Present(m)) != m && Discard(m, Present(m)) == m
  {
    var inner := Desc(false, [], map[]);
    var d := Desc(false, ["s"], map["s" := MessageKind(inner)]);
    var m := Message(false, map["s" := Sub(EmptyMessage(false))]);
    hide Present, Keep, Discard, Prune;
    assert WellFormed(inner) && Conforms(EmptyMessage(false), inner);
    assert d.names[0] == "s";
    assert m.fields["s"].Sub? && m.fields["s"].msg.fields == map[];
    assert !NoEmptySub(m);
    KeepPresentExactly(m, d);
    NothingPresent(m, "s");
    NothingDiscarded(m);
  }

  lemma NothingDiscarded(m: Message)
    ensures Discard(m, {}) == m
  {
    assert DiscardFates(m, {}) == map k | k in m.fields :: Some(m.fields[k]);
    assert Discard(m, {}).fields == m.fields;
  }

  lemma NothingPresent(m: Message, k: string)
    requires m.fields == map[k := Sub(EmptyMessage(false))]
    ensures Present(m) == {}
  {
    PresentEmpty(m);
    assert Prune(EmptyMessage(false)).fields == map[];
    assert Prune(m).fields == map[];
  }

  // ----- Normalised masks -----

  // FieldMask.Normalize: paths below another path of the mask are redundant and go.
  function Normalize(mask: Mask): Mask {
    set p | p in mask && !Redundant(mask, p)
  }

  predicate Redundant(mask: Mask, p: string) {
    exists q :: q in mask && q + "." <= p
  }

  lemma {:induction false} Topmost(mask: Mask, p: string) returns (q: string)
    requires p in mask
    ensures q in Normalize(mask) && (q == p || q + "." <= p)
    decreases |p|
  {
    if Redundant(mask, p) {
      var r :| r in mask && r + "." <= p;
      q := Topmost(mask, r);
      if q != r { assert q + "." <= r <= r + "." <= p; }
    } else {
      q := p;
    }
  }

  lemma NormalizeAt(mask: Mask, k: string)
    requires NoDot(k) && k != ""
    ensures k in Normalize(mask) <==> k in mask
    ensures HasPrefix(Normalize(mask), k) <==> HasPrefix(mask, k)
    ensures k !in mask ==> Below(Normalize(mask), k) == Normalize(Below(mask, k))
  {
    forall q ensures !(q + "." <= k) { NoDottedStart(k, q); }
    if HasPrefix(mask, k) {
      var p :| p in mask && k <= p;
      var q := Topmost(mask, p);
      TopStarts(q, k, p);
    }
    if k !in mask {
      forall r
        ensures r in Below(Normalize(mask), k) <==> r in Normalize(Below(mask, k))
      {
        InRelative(Normalize(mask), k + ".", r);
        InRelative(mask, k + ".", r);
        RedundantBelow(mask, k, r);
      }
    }
  }

  lemma TopStarts(q: string, k: string, p: string)
    requires NoDot(k) && k <= p && (q == p || q + "." <= p)
    ensures k <= q
  {
    if q != p {
      assert p[|q|] == (q + ".")[|q|] == '.';
      assert forall i | 0 <= i < |k| :: k[i] == p[i] && k[i] != '.';
    }
  }

  lemma RedundantBelow(mask: Mask, k: string, r: string)
    requires NoDot(k) && k != "" && k !in mask
    ensures Redundant(mask, k + "." + r) <==> Redundant(Below(mask, k), r)
  {
    var p := k + "." + r;
    if q :| q in mask && q + "." <= p {
      TopStarts(q, k, p);
      assert q != k;
      assert q[|k|] == p[|k|] == '.';
      var rest := q[|k| + 1..];
      assert q == k + "." + rest;
      InRelative(mask, k + ".", rest);
      assert rest + "." <= r by { assert p[|k| + 1..] == r && (q + ".")[|k| + 1..] == rest + "."; }
    }
    if q :| q in Below(mask, k) && q + "." <= r {
      InRelative(mask, k + ".", q);
      assert (k + "." + q) + "." <= p;
    }
  }

  // Normalising changes no result.
  lemma {:induction false} KeepNormalized(m: Message, d: Desc, mask: Mask)
    requires WellFormed(d) && Conforms(m, d)
    ensures Keep(m, Normalize(mask)) == Keep(m, mask)
    ensures Discard(m, Normalize(mask)) == Discard(m, mask)
    decreases m, 1
  {
    hide KeepField, DiscardField, Normalize;
    forall k | k in m.fields
      ensures KeepField(m.fields[k], k, Normalize(mask)) == KeepField(m.fields[k], k, mask)
      ensures DiscardField(m.fields[k], k, Normalize(mask)) == DiscardField(m.fields[k], k, mask)
    {
      FieldNormalized(m, d, mask, k);
    }
    assert KeepFates(m, Normalize(mask)) == KeepFates(m, mask);
    assert DiscardFates(m, Normalize(mask)) == DiscardFates(m, mask);
  }

  lemma {:induction false} FieldNormalized(m: Message, d: Desc, mask: Mask, k: string)
    requires WellFormed(d) && Conforms(m, d) && k in m.fields
    ensures KeepField(m.fields[k], k, Normalize(mask)) == KeepField(m.fields[k], k, mask)
    ensures DiscardField(m.fields[k], k, Normalize(mask)) == DiscardField(m.fields[k], k, mask)
    decreases m, 0
  {
    NormalizeAt(mask, k);
    assert FieldConforms(m.fields[k], d.kinds[k]);
    hide Normalize, HasPrefix, Below, Keep, Discard;
    if m.fields[k].Sub? { KeepNormalized(m.fields[k].msg, d.kinds[k].desc, Below(mask, k)); }
  }

  // The mask of unpopulated fields names exactly the declared paths at which the message has nothing.
  lemma {:induction false} AbsentNamesMissing(m: Message, d: Desc, path: Path)
    requires WellFormed(d) && Conforms(m, d) && Declared(d, path)
    ensures Names(Absent(m, d), path) <==> FieldAt(m, path) == None
    decreases |path|
  {
    var k := path[0];
    AbsentAt(m, d, k);
    NamesBelow(Absent(m, d), path);
    if |path| > 1 && k in m.fields {
      assert FieldConforms(m.fields[k], d.kinds[k]);
      AbsentNamesMissing(m.fields[k].msg, d.kinds[k].desc, path[1..]);
    }
  }

  // What is left of a mask when it is normalised: no text is below another, and every text that went is
  // below one that stayed.
  lemma NormalizedIsMinimal(mask: Mask)
    ensures Normalize(mask) <= mask
    ensures forall p, q | p in Normalize(mask) && q in Normalize(mask) :: !(q + "." <= p)
    ensures forall p | p in mask :: exists q :: q in Normalize(mask) && (q == p || q + "." <= p)
  {
    forall p | p in mask
      ensures exists q :: q in Normalize(mask) && (q == p || q + "." <= p)
    {
      var q := Topmost(mask, p);
    }
  }

  // A text that ends at a dot of a path's text is the text of an ancestor.
  lemma {:induction false} DottedStart(path: Path, q: string) returns (i: nat)
    requires path != [] && (forall j | 0 <= j < |path| :: NoDot(path[j])) && q + "." <= Join(path)
    ensures 0 < i < |path| && q == Join(path[..i])
    decreases |path|
  {
    var k, text := path[0], Join(path);
    assert (q + ".")[|q|] == '.' && text[|q|] == '.';
    if |path| == 1 {
      assert false;
    } else if |q| <= |k| {
      assert forall j | 0 <= j < |k| :: text[j] == k[j] != '.';
      assert q == text[..|q|] == k;
      i := 1;
      assert path[..1] == [k];
    } else {
      var rest := q[|k| + 1..];
      assert q == text[..|q|] && q == k + "." + rest;
      assert rest + "." == (q + ".")[|k| + 1..] && Join(path[1..]) == text[|k| + 1..];
      var j := DottedStart(path[1..], rest);
      i := j + 1;
      assert path[..i] == [k] + path[1..][..j];
      assert path[..i][1..] == path[1..][..j];
    }
  }

  lemma {:induction false} DeclaredDotless(d: Desc, path: Path)
    requires WellFormed(d) && Declared(d, path)
    ensures forall j | 0 <= j < |path| :: NoDot(path[j])
    decreases |path|
  {
    if |path| > 1 {
      DeclaredDotless(d.kinds[path[0]].desc, path[1..]);
      assert forall j | 0 < j < |path| :: path[j] == path[1..][j - 1];
    }
  }

  // Normalising changes no path that is named.
  lemma NamesNormalized(mask: Mask, d: Desc, path: Path)
    requires WellFormed(d) && Declared(d, path)
    ensures Names(Normalize(mask), path) <==> Names(mask, path)
  {
    DeclaredDotless(d, path);
    if Names(mask, path) {
      var i :| 0 < i <= |path| && Join(path[..i]) in mask;
      var q := Topmost(mask, Join(path[..i]));
      if q != Join(path[..i]) {
        var j := DottedStart(path[..i], q);
        assert path[..i][..j] == path[..j];
      }
    }
  }

  method ByPresence(msg: Message, d: Desc) returns (mask: Mask)
    requires WellFormed(d) && Conforms(msg, d)
    ensures mask == Normalize(Present(msg))
    ensures Keep(msg, mask) == msg <==> NoEmptySub(msg)
  {
    var paths := RangePresentMessageFields(msg, d);
    mask := Normalize(AsTree(paths));
    KeepNormalized(msg, d, Present(msg));
    KeepPresentExactly(msg, d);
  }

  method ByAbsence(msg: Message, d: Desc) returns (mask: Mask)
    requires WellFormed(d) && Conforms(msg, d)
    ensures mask == Normalize(Absent(msg, d))
    ensures Keep(msg, mask).fields == map[] <==> !Shadowed(msg, d)
    ensures Discard(msg, mask) == msg <==> !Shadowed(msg, d) && !Exposed(msg, d)
  {
    var paths := RangeAbsentMessageFields(msg, d);
    mask := Normalize(AsTree(paths));
    KeepNormalized(msg, d, Absent(msg, d));
    KeepAbsentExactly(msg, d);
    DiscardAbsentExactly(msg, d);
  }

  function AsTree(paths: seq<string>): Mask { set p | p in paths }

  // A nil mask is a no-op.
  method ExclusiveKeep(msg: Message, d: Desc, mask: Option<Mask>) returns (out: Message)
    requires WellFormed(d) && Conforms(msg, d)
    ensures out == if mask.None? then msg else Keep(msg, mask.value)
  {
    if mask.None? {
      return msg;
    }
    var kept;
    out, kept := KeepFields(msg, d, "", mask.value);
    WholeMask(mask.value);
  }

  method ExclusiveDiscard(msg: Message, d: Desc, mask: Option<Mask>) returns (out: Message)
    requires WellFormed(d) && Conforms(msg, d)
    ensures out == if mask.None? then msg else Discard(msg, mask.value)
  {
    if mask.None? {
      return msg;
    }
    var kept;
    out, kept := DiscardFields(msg, d, "", mask.value);
    WholeMask(mask.value);
  }

  lemma WholeMask(mask: Mask)
    ensures Relative(mask, "") == mask
  {
  }
}

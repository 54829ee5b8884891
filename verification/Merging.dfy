// util/merge/merge.go with ReplaceLists and ReplaceMaps set.
module Merging {
  import opened Basics
  import opened Messages

  // src merged over dst: leaves of src replace, sub-messages merge. An explicitly zero
  // Duration or Timestamp (present, no populated field) resets the one in dst.
  function Merge(dst: Message, src: Message): Message
    decreases src, 1
  {
    if src.timed && src.fields == map[] then EmptyMessage(dst.timed)
    else Message(dst.timed, map k | k in dst.fields.Keys + src.fields.Keys ::
                              if k in src.fields then MergeField(Lookup(dst, k), src.fields[k]) else dst.fields[k])
  }

  function MergeField(dst: Option<Field>, src: Field): Field
    decreases src, 0
  {
    if src.Sub? then Sub(Merge(Mutable(dst, src.msg.timed), src.msg)) else src
  }

  // The sub-message to merge into, created empty when it is not there yet.
  function Mutable(f: Option<Field>, timed: bool): Message {
    if f.Some? && f.value.Sub? then f.value.msg else EmptyMessage(timed)
  }

  // ----- The source's loops, over fields in any order -----

  method MergeMessage(dst: Message, src: Message) returns (out: Message)
    ensures out == Merge(dst, src)
    decreases src, 1
  {
    out := dst;
    if src.timed && src.fields == map[] {
      return EmptyMessage(dst.timed);
    }
    var todo := src.fields.Keys;
    while todo != {}
      invariant todo <= src.fields.Keys
      invariant out.timed == dst.timed
      invariant out.fields.Keys == dst.fields.Keys + (src.fields.Keys - todo)
      invariant forall k | k in src.fields.Keys - todo :: out.fields[k] == MergeField(Lookup(dst, k), src.fields[k])
      invariant forall k | k in dst.fields && (k in src.fields ==> k in todo) :: out.fields[k] == dst.fields[k]
    {
      hide MergeField;
      var k :| k in todo;
      assert Lookup(out, k) == Lookup(dst, k);
      var merged := MergeOneField(Lookup(out, k), src.fields[k]);
      out := out.(fields := out.fields[k := merged]);
      todo := todo - {k};
    }
    assert out.fields == Merge(dst, src).fields;
  }

  method MergeOneField(dst: Option<Field>, src: Field) returns (out: Field)
    ensures out == MergeField(dst, src)
    decreases src, 1
  {
    match src
    case List(elems) =>
      var list := MergeList(if dst.Some? && dst.value.List? then dst.value.elems else [], elems);
      return List(list);
    case Dict(entries) =>
      var dict := MergeMap(if dst.Some? && dst.value.Dict? then dst.value.entries else map[], src);
      return Dict(dict);
    case Sub(msg) =>
      var sub := MergeMessage(Mutable(dst, msg.timed), msg);
      return Sub(sub);
    case Value(_) =>
      return src;
  }

  // Truncates dst and appends a copy of each element of src.
  method MergeList(dst: seq<Field>, src: seq<Field>) returns (out: seq<Field>)
    ensures out == src
    decreases src, 0
  {
    out := dst[..0];
    for i := 0 to |src|
      invariant out == src[..i]
    {
      var e := CopyElement(src[i]);
      out := out + [e];
    }
  }

  // Clears every entry of dst, then sets a copy of each entry of src.
  method MergeMap(dst: map<string, Field>, src: Field) returns (out: map<string, Field>)
    requires src.Dict?
    ensures out == src.entries
    decreases src, 0
  {
    out := dst;
    while out.Keys != {}
      decreases out.Keys
    {
      var k :| k in out.Keys;
      out := out - {k};
    }
    var todo := src.entries.Keys;
    while todo != {}
      invariant todo <= src.entries.Keys
      invariant out == map k | k in src.entries && k !in todo :: src.entries[k]
    {
      var k :| k in todo;
      var e := CopyElement(src.entries[k]);
      out := out[k := e];
      todo := todo - {k};
    }
  }

  // A message element is merged into a new, empty message; a scalar is taken as it is.
  method CopyElement(e: Field) returns (out: Field)
    ensures out == e
    decreases e, 0
  {
    if e.Sub? {
      var m := MergeMessage(EmptyMessage(e.msg.timed), e.msg);
      MergeIntoEmpty(e.msg);
      return Sub(m);
    }
    return e;
  }

  // ----- Laws -----

  // The empty message is a left identity.
  lemma {:induction false} MergeIntoEmpty(m: Message)
    ensures Merge(EmptyMessage(m.timed), m) == m
    decreases m
  {
    forall k | k in m.fields && m.fields[k].Sub?
      ensures Merge(EmptyMessage(m.fields[k].msg.timed), m.fields[k].msg) == m.fields[k].msg
    {
      MergeIntoEmpty(m.fields[k].msg);
    }
    assert Merge(EmptyMessage(m.timed), m).fields == m.fields;
  }

  // A message with nothing to say changes nothing, unless it is itself a zero Duration or Timestamp.
  lemma MergeEmpty(m: Message, timed: bool)
    ensures Merge(m, EmptyMessage(timed)) == m <==> (timed ==> m.fields == map[])
  {
  }

  // A message merged over itself is itself.
  lemma {:induction false} MergeSelf(m: Message)
    ensures Merge(m, m) == m
    decreases m
  {
    forall k | k in m.fields && m.fields[k].Sub?
      ensures Merge(m.fields[k].msg, m.fields[k].msg) == m.fields[k].msg
    {
      MergeSelf(m.fields[k].msg);
    }
    assert Merge(m, m).fields == m.fields;
  }

  // Two messages of one type: fields in common are leaves in both or messages of one type in both.
  ghost predicate SameType(a: Message, b: Message) {
    && a.timed == b.timed
    && (forall k | k in a.fields && k in b.fields ::
          && a.fields[k].Sub? == b.fields[k].Sub?
          && (a.fields[k].Sub? ==> SameType(a.fields[k].msg, b.fields[k].msg)))
  }

  lemma {:induction false} ConformingSameType(a: Message, b: Message, d: Desc)
    requires Conforms(a, d) && Conforms(b, d)
    ensures SameType(a, b)
    decreases d
  {
    forall k | k in a.fields && k in b.fields && a.fields[k].Sub?
      ensures SameType(a.fields[k].msg, b.fields[k].msg)
    {
      ConformingSameType(a.fields[k].msg, b.fields[k].msg, d.kinds[k].desc);
    }
  }

  // Merging stays inside the type.
  lemma {:induction false} MergeConforms(a: Message, b: Message, d: Desc)
    requires Conforms(a, d) && Conforms(b, d)
    ensures Conforms(Merge(a, b), d)
    decreases d
  {
    forall k | k in b.fields && b.fields[k].Sub?
      ensures FieldConforms(MergeField(Lookup(a, k), b.fields[k]), d.kinds[k])
    {
      var into := Mutable(Lookup(a, k), b.fields[k].msg.timed);
      assert FieldConforms(b.fields[k], d.kinds[k]) && Conforms(b.fields[k].msg, d.kinds[k].desc);
      if k in a.fields {
        assert FieldConforms(a.fields[k], d.kinds[k]);
        assert into == a.fields[k].msg;
      }
      MergeConforms(into, b.fields[k].msg, d.kinds[k].desc);
    }
  }

  // Merging the same source twice equals merging it once.
  lemma {:induction false} MergeTwice(dst: Message, src: Message)
    ensures Merge(Merge(dst, src), src) == Merge(dst, src)
    decreases src
  {
    forall k | k in src.fields && src.fields[k].Sub?
      ensures var once := Mutable(Lookup(dst, k), src.fields[k].msg.timed);
              Merge(Merge(once, src.fields[k].msg), src.fields[k].msg) == Merge(once, src.fields[k].msg)
    {
      MergeTwice(Mutable(Lookup(dst, k), src.fields[k].msg.timed), src.fields[k].msg);
    }
    assert Merge(Merge(dst, src), src).fields == Merge(dst, src).fields;
  }

  // No explicitly zero Duration or Timestamp anywhere.
  ghost predicate NoZeroTime(m: Message) {
    && (m.timed ==> m.fields != map[])
    && (forall k | k in m.fields && m.fields[k].Sub? :: NoZeroTime(m.fields[k].msg))
  }

  // A merge field by field, outside the reset of a Duration or Timestamp.
  lemma LookupMerge(a: Message, b: Message, k: string)
    requires !b.timed || b.fields != map[]
    ensures Lookup(Merge(a, b), k) == if k in b.fields then Some(MergeField(Lookup(a, k), b.fields[k]))
            else Lookup(a, k)
    ensures Merge(a, b).timed == a.timed
    ensures b.timed ==> Merge(a, b).fields != map[]
  {
  }

  // Merging is associative as long as the middle message resets no Duration or Timestamp.
  lemma {:induction false} MergeAssociative(a: Message, b: Message, c: Message)
    requires SameType(a, b) && SameType(b, c) && SameType(a, c)
    requires NoZeroTime(b)
    ensures Merge(Merge(a, b), c) == Merge(a, Merge(b, c))
    decreases c
  {
    var left, right := Merge(Merge(a, b), c), Merge(a, Merge(b, c));
    if c.timed && c.fields == map[] {
    } else {
      LookupMerge(b, c, "");
      forall k | k in c.fields && c.fields[k].Sub?
        ensures MergeField(Lookup(Merge(a, b), k), c.fields[k]) ==
                MergeField(Lookup(a, k), MergeField(Lookup(b, k), c.fields[k]))
      {
        AssociativeField(a, b, c, k);
      }
      forall k | k in left.fields.Keys + right.fields.Keys
        ensures Lookup(left, k) == Lookup(right, k)
      {
        LookupMerge(b, c, k);
        LookupMerge(a, b, k);
        LookupMerge(Merge(a, b), c, k);
        LookupMerge(a, Merge(b, c), k);
      }
      forall k ensures k in left.fields <==> k in right.fields {
        assert k in left.fields.Keys + right.fields.Keys ==> Lookup(left, k) == Lookup(right, k);
      }
      assert left.fields == right.fields;
    }
  }

  lemma {:induction false} AssociativeField(a: Message, b: Message, c: Message, k: string)
    requires SameType(a, b) && SameType(b, c) && SameType(a, c) && NoZeroTime(b)
    requires k in c.fields && c.fields[k].Sub?
    ensures MergeField(Lookup(Merge(a, b), k), c.fields[k]) ==
            MergeField(Lookup(a, k), MergeField(Lookup(b, k), c.fields[k]))
    decreases c, 0
  {
    var timed, mc := c.fields[k].msg.timed, c.fields[k].msg;
    if k in b.fields {
      var mb := b.fields[k].msg;
      if k in a.fields {
        MergeAssociative(a.fields[k].msg, mb, mc);
      } else {
        MergeIntoEmpty(mb);
        MergeIntoEmpty(Merge(mb, mc));
      }
    } else {
      MergeIntoEmpty(mc);
    }
  }

  // A Duration or Timestamp declares its two scalars.
  ghost predicate StandardTimes(d: Desc) {
    && (d.timed ==> "seconds" in d.kinds && d.kinds["seconds"].LeafKind?)
    && (d.timed ==> "nanos" in d.kinds && d.kinds["nanos"].LeafKind?)
    && (forall k | k in d.kinds && d.kinds[k].MessageKind? :: StandardTimes(d.kinds[k].desc))
  }

  // With a reset in the middle the grouping shows: one grouping keeps the seconds, the other does not.
  lemma {:induction false} ResetBreaksAssociativity(b: Message, d: Desc) returns (a: Message, c: Message)
    requires WellFormed(d) && StandardTimes(d) && Conforms(b, d) && !NoZeroTime(b)
    ensures Conforms(a, d) && Conforms(c, d)
    ensures Merge(Merge(a, b), c) != Merge(a, Merge(b, c))
    decreases b
  {
    hide Merge;
    if b.timed && b.fields == map[] {
      a := Message(true, map["seconds" := Value(Number(1))]);
      c := Message(true, map["nanos" := Value(Number(1))]);
      SecondsShow(a, b, c);
    } else {
      var k :| k in b.fields && b.fields[k].Sub? && !NoZeroTime(b.fields[k].msg);
      assert FieldConforms(b.fields[k], d.kinds[k]);
      assert WellFormed(d.kinds[k].desc) && StandardTimes(d.kinds[k].desc) && !d.timed;
      hide WellFormed, StandardTimes, NoZeroTime;
      var x, z := ResetBreaksAssociativity(b.fields[k].msg, d.kinds[k].desc);
      a, c := Message(false, map[k := Sub(x)]), Message(false, map[k := Sub(z)]);
      GroupingShows(a, b, c, k, x, b.fields[k].msg, z);
    }
  }

  lemma SecondsShow(a: Message, b: Message, c: Message)
    requires b.timed && b.fields == map[] && c.timed
    requires "seconds" in a.fields && "seconds" !in c.fields && "nanos" in c.fields
    ensures Merge(Merge(a, b), c) != Merge(a, Merge(b, c))
  {
    assert "nanos" in Merge(b, c).fields;
    assert "seconds" in Merge(a, Merge(b, c)).fields;
    assert "seconds" !in Merge(Merge(a, b), c).fields;
  }

  lemma GroupingShows(a: Message, b: Message, c: Message, k: string, x: Message, y: Message, z: Message)
    requires !a.timed && !b.timed && !c.timed
    requires Lookup(a, k) == Some(Sub(x)) && Lookup(b, k) == Some(Sub(y)) && Lookup(c, k) == Some(Sub(z))
    requires Merge(Merge(x, y), z) != Merge(x, Merge(y, z))
    ensures Merge(Merge(a, b), c) != Merge(a, Merge(b, c))
  {
    hide Merge, MergeField;
    MergedAt(a, b, k, x, y);
    MergedAt(b, c, k, y, z);
    MergedAt(Merge(a, b), c, k, Merge(x, y), z);
    MergedAt(a, Merge(b, c), k, x, Merge(y, z));
  }

  lemma MergedAt(a: Message, b: Message, k: string, x: Message, y: Message)
    requires !b.timed && Lookup(a, k) == Some(Sub(x)) && Lookup(b, k) == Some(Sub(y))
    ensures Lookup(Merge(a, b), k) == Some(Sub(Merge(x, y))) && Merge(a, b).timed == a.timed
  {
  }

  // Merging around b is associative exactly when b resets no Duration or Timestamp.
  lemma MergeAssociativeExactly(b: Message, d: Desc)
    requires WellFormed(d) && StandardTimes(d) && Conforms(b, d)
    ensures NoZeroTime(b) <==> forall a, c | Conforms(a, d) && Conforms(c, d) ::
            Merge(Merge(a, b), c) == Merge(a, Merge(b, c))
  {
    if NoZeroTime(b) {
      forall a, c | Conforms(a, d) && Conforms(c, d)
        ensures Merge(Merge(a, b), c) == Merge(a, Merge(b, c))
      {
        ConformingSameType(a, b, d);
        ConformingSameType(b, c, d);
        ConformingSameType(a, c, d);
        MergeAssociative(a, b, c);
      }
    } else {
      var a, c := ResetBreaksAssociativity(b, d);
    }
  }
}

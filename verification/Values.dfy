// apis/core/v1/value.go: carrying a reflected protobuf value in a message and back.
module Values {
  import opened Basics
  import Messages

  // A value as protobuf reflection hands it out.
  datatype Reflected =
    | Invalid
    | Bool(b: bool)
    | Int32(i32: int)
    | Int64(i64: int)
    | Uint32(u32: nat)
    | Uint64(u64: nat)
    | Float32(f32: real)
    | Float64(f64: real)
    | String(s: string)
    | Bytes(bytes: string)
    | EnumNumber(number: int)
    | Message(msg: Messages.Message)
    | List(elems: seq<Reflected>)
    | Map(entries: map<Key, Reflected>)

  datatype Key = BoolKey(b: bool) | Int32Key(n: int) | Int64Key(n: int) | Uint32Key(u: nat) | Uint64Key(u: nat)
      | StringKey(s: string)

  // The message that carries one. Its oneofs may be unset.
  datatype Value = Value(data: Option<Data>)

  datatype Data =
    | BoolValue(b: bool)
    | Int32Value(i32: int)
    | Int64Value(i64: int)
    | Uint32Value(u32: nat)
    | Uint64Value(u64: nat)
    | Float32Value(f32: real)
    | Float64Value(f64: real)
    | StringValue(s: string)
    | BytesValue(bytes: string)
    | EnumValue(number: int)
    | MessageValue(any: Any)
    | ListValue(values: seq<Value>)
    | MapValue(entries: seq<MapEntry>)

  datatype MapEntry = MapEntry(key: MapKey, value: Value)

  datatype MapKey = BoolMapKey(b: bool) | Int32MapKey(n: int) | Int64MapKey(n: int) | Uint32MapKey(u: nat)
      | Uint64MapKey(u: nat) | StringMapKey(s: string)

  datatype Any = Any(typeUrl: string, bytes: string)

  // anypb.New and UnmarshalNew.
  datatype Packing = Packing(pack: Messages.Message -> Any, unpack: Any -> Messages.Message)

  ghost predicate ValidPacking(p: Packing) {
    forall m :: p.unpack(p.pack(m)) == m
  }

  // ----- Reading a carried value -----

  function ToMapKey(k: MapKey): Key {
    match k
    case BoolMapKey(b) => BoolKey(b)
    case Int32MapKey(n) => Int32Key(n)
    case Int64MapKey(n) => Int64Key(n)
    case Uint32MapKey(u) => Uint32Key(u)
    case Uint64MapKey(u) => Uint64Key(u)
    case StringMapKey(s) => StringKey(s)
  }

  function ToValue(p: Packing, v: Value): Reflected
    decreases v
  {
    match v.data
    case None => Invalid
    case Some(BoolValue(b)) => Bool(b)
    case Some(Int32Value(n)) => Int32(n)
    case Some(Int64Value(n)) => Int64(n)
    case Some(Uint32Value(n)) => Uint32(n)
    case Some(Uint64Value(n)) => Uint64(n)
    case Some(Float32Value(x)) => Float32(x)
    case Some(Float64Value(x)) => Float64(x)
    case Some(StringValue(s)) => String(s)
    case Some(BytesValue(bytes)) => Bytes(bytes)
    case Some(EnumValue(n)) => EnumNumber(n)
    case Some(MessageValue(any)) => Message(p.unpack(any))
    case Some(ListValue(values)) => List(ToList(p, values))
    case Some(MapValue(entries)) => Map(ToMap(p, entries))
  }

  function ToList(p: Packing, values: seq<Value>): seq<Reflected>
    decreases values
  {
    if values == [] then [] else ToList(p, values[..|values| - 1]) + [ToValue(p, values[|values| - 1])]
  }

  // A later entry replaces an earlier one with the same key.
  function ToMap(p: Packing, entries: seq<MapEntry>): map<Key, Reflected>
    decreases entries
  {
    if entries == [] then map[]
    else
      var last := entries[|entries| - 1];
      ToMap(p, entries[..|entries| - 1])[ToMapKey(last.key) := EntryValue(p, last)]
  }

  function EntryValue(p: Packing, e: MapEntry): Reflected
    decreases e
  {
    ToValue(p, e.value)
  }

  // The same with the source's list and map objects.
  method ReadValue(p: Packing, v: Value) returns (r: Reflected)
    ensures r == ToValue(p, v)
    decreases v
  {
    match v.data
    case Some(ListValue(values)) =>
      var list: seq<Reflected> := [];
      for i := 0 to |values|
        invariant list == ToList(p, values[..i])
      {
        assert values[..i + 1][..i] == values[..i];
        var e := ReadValue(p, values[i]);
        list := list + [e];
      }
      assert values[..|values|] == values;
      return List(list);
    case Some(MapValue(entries)) =>
      var mapv: map<Key, Reflected> := map[];
      for i := 0 to |entries|
        invariant mapv == ToMap(p, entries[..i])
      {
        assert entries[..i + 1][..i] == entries[..i];
        var e := ReadValue(p, entries[i].value);
        mapv := mapv[ToMapKey(entries[i].key) := e];
      }
      assert entries[..|entries|] == entries;
      return Map(mapv);
    case _ =>
      return ToValue(p, v);
  }

  // Each field of the message's oneof is read as a value of its own kind.
  lemma NumberKinds(p: Packing, n: int, u: nat, x: real)
    ensures ToValue(p, Value(Some(Int32Value(n)))) == Int32(n) && ToValue(p, Value(Some(Int64Value(n)))) == Int64(n)
    ensures ToValue(p, Value(Some(Uint32Value(u)))) == Uint32(u) && ToValue(p, Value(Some(Uint64Value(u)))) == Uint64(u)
    ensures ToValue(p, Value(Some(Float32Value(x)))) == Float32(x)
    ensures ToValue(p, Value(Some(Float64Value(x)))) == Float64(x)
  {
  }

  lemma ScalarKinds(p: Packing, b: bool, n: int, s: string)
    ensures ToValue(p, Value(None)) == Invalid
    ensures ToValue(p, Value(Some(BoolValue(b)))) == Bool(b)
    ensures ToValue(p, Value(Some(StringValue(s)))) == String(s) && ToValue(p, Value(Some(BytesValue(s)))) == Bytes(s)
    ensures ToValue(p, Value(Some(EnumValue(n)))) == EnumNumber(n)
  {
  }

  lemma KeyKinds(b: bool, n: int, u: nat, s: string)
    ensures ToMapKey(BoolMapKey(b)) == BoolKey(b) && ToMapKey(StringMapKey(s)) == StringKey(s)
    ensures ToMapKey(Int32MapKey(n)) == Int32Key(n) && ToMapKey(Int64MapKey(n)) == Int64Key(n)
    ensures ToMapKey(Uint32MapKey(u)) == Uint32Key(u) && ToMapKey(Uint64MapKey(u)) == Uint64Key(u)
  {
  }

  // A list is read element by element, in order, and a map entry by entry.
  lemma {:induction false} ListKind(p: Packing, values: seq<Value>)
    ensures var r := ToValue(p, Value(Some(ListValue(values))));
            && r.List? && |r.elems| == |values| && forall i | 0 <= i < |values| :: r.elems[i] == ToValue(p, values[i])
    decreases |values|
  {
    if values != [] {
      ListKind(p, values[..|values| - 1]);
      assert forall i | 0 <= i < |values| - 1 :: values[..|values| - 1][i] == values[i];
    }
  }

  // Every key read is that of some entry, and has the value of the last such entry.
  lemma {:induction false} MapKind(p: Packing, entries: seq<MapEntry>, k: Key)
    ensures var r := ToValue(p, Value(Some(MapValue(entries))));
            && r.Map? && (k in r.entries <==> exists i :: 0 <= i < |entries| && ToMapKey(entries[i].key) == k)
            && (k in r.entries ==>
                  exists i :: 0 <= i < |entries| && ToMapKey(entries[i].key) == k
                              && r.entries[k] == ToValue(p, entries[i].value)
                              && forall j | i < j < |entries| :: ToMapKey(entries[j].key) != k)
    decreases |entries|
  {
    if entries != [] {
      var front, last := entries[..|entries| - 1], |entries| - 1;
      MapKind(p, front, k);
      assert forall i | 0 <= i < last :: front[i] == entries[i];
      if ToMapKey(entries[last].key) == k { assert EntryValue(p, entries[last]) == ToValue(p, entries[last].value); }
    }
  }

  // ----- Carrying a value -----

  // The carried value reads back as it was, whatever the order in which maps are walked.
  method NewValue(p: Packing, r: Reflected) returns (v: Value)
    requires ValidPacking(p)
    ensures ToValue(p, v) == r
    decreases r
  {
    match r
    case Invalid => return Value(None);
    case Bool(b) => return Value(Some(BoolValue(b)));
    case Int32(n) => return Value(Some(Int32Value(n)));
    case Int64(n) => return Value(Some(Int64Value(n)));
    case Uint32(n) => return Value(Some(Uint32Value(n)));
    case Uint64(n) => return Value(Some(Uint64Value(n)));
    case Float32(x) => return Value(Some(Float32Value(x)));
    case Float64(x) => return Value(Some(Float64Value(x)));
    case String(s) => return Value(Some(StringValue(s)));
    case Bytes(bytes) => return Value(Some(BytesValue(bytes)));
    case EnumNumber(n) => return Value(Some(EnumValue(n)));
    case Message(m) => return Value(Some(MessageValue(p.pack(m))));
    case List(elems) =>
      var values := NewList(p, elems);
      return Value(Some(ListValue(values)));
    case Map(_) =>
      var entries := NewMap(p, r);
      return Value(Some(MapValue(entries)));
  }

  method NewList(p: Packing, elems: seq<Reflected>) returns (values: seq<Value>)
    requires ValidPacking(p)
    ensures ToList(p, values) == elems
    decreases elems
  {
    values := [];
    for i := 0 to |elems|
      invariant ToList(p, values) == elems[..i]
    {
      var e := NewValue(p, elems[i]);
      assert (values + [e])[..|values|] == values;
      values := values + [e];
    }
  }

  method NewMap(p: Packing, r: Reflected) returns (entries: seq<MapEntry>)
    requires ValidPacking(p) && r.Map?
    ensures ToMap(p, entries) == r.entries
    decreases r, 0
  {
    entries := [];
    var todo := r.entries.Keys;
    while todo != {}
      invariant todo <= r.entries.Keys
      invariant ToMap(p, entries) == map k | k in r.entries && k !in todo :: r.entries[k]
      decreases todo
    {
      var k :| k in todo;
      var key := NewMapKey(k);
      var value := NewValue(p, r.entries[k]);
      var entry := MapEntry(key, value);
      assert (entries + [entry])[..|entries|] == entries;
      entries, todo := entries + [entry], todo - {k};
    }
  }

  function NewMapKey(k: Key): (m: MapKey)
    ensures ToMapKey(m) == k
  {
    match k
    case BoolKey(b) => BoolMapKey(b)
    case Int32Key(n) => Int32MapKey(n)
    case Int64Key(n) => Int64MapKey(n)
    case Uint32Key(u) => Uint32MapKey(u)
    case Uint64Key(u) => Uint64MapKey(u)
    case StringKey(s) => StringMapKey(s)
  }

  // The order of map entries does not matter as long as their keys differ.
  lemma {:induction false} EntryOrder(p: Packing, entries: seq<MapEntry>, i: nat)
    requires i < |entries|
    requires forall a, b | 0 <= a < b < |entries| :: entries[a].key != entries[b].key
    ensures ToMapKey(entries[i].key) in ToMap(p, entries)
    ensures ToMap(p, entries)[ToMapKey(entries[i].key)] == ToValue(p, entries[i].value)
    decreases |entries|
  {
    if i < |entries| - 1 { EntryOrder(p, entries[..|entries| - 1], i); }
  }
}

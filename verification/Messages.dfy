// Protobuf messages as the configuration code sees them through reflection,
// and the descriptors that type them.
module Messages {
  import opened Basics

  datatype Scalar = Text(s: string) | Number(n: int) | Flag(b: bool)

  // A populated field. Everything but a singular message is a leaf, taken whole.
  datatype Field =
    | Value(scalar: Scalar)
    | List(elems: seq<Field>)
    | Dict(entries: map<string, Field>)
    | Sub(msg: Message)

  // `timed` marks google.protobuf.Duration and Timestamp, which merging treats specially.
  // Absent keys are unpopulated fields.
  datatype Message = Message(timed: bool, fields: map<string, Field>)

  // Declared fields in order, with their kinds. `zero` is what reading an unpopulated leaf yields.
  datatype Desc = Desc(timed: bool, names: seq<string>, kinds: map<string, Kind>)
  datatype Kind = LeafKind(zero: Field) | MessageKind(desc: Desc)

  function EmptyMessage(timed: bool): Message { Message(timed, map[]) }

  predicate NoDot(name: string) { '.' !in name }

  // What protobuf guarantees of every descriptor: distinct, dot-free, non-empty names;
  // Duration and Timestamp hold scalars only.
  ghost predicate WellFormed(d: Desc) {
    && NoDuplicates(d.names)
    && (forall k :: k in d.names <==> k in d.kinds)
    && (forall k | k in d.kinds :: k != "" && NoDot(k))
    && (forall k | k in d.kinds && d.kinds[k].LeafKind? :: !d.kinds[k].zero.Sub?)
    && (forall k | k in d.kinds && d.kinds[k].MessageKind? :: !d.timed && WellFormed(d.kinds[k].desc))
  }

  // m is a message of type d.
  ghost predicate Conforms(m: Message, d: Desc) {
    && m.timed == d.timed
    && (forall k | k in m.fields :: k in d.kinds && FieldConforms(m.fields[k], d.kinds[k]))
  }

  ghost predicate FieldConforms(f: Field, kind: Kind) {
    match kind
    case LeafKind(_) => !f.Sub?
    case MessageKind(d) => f.Sub? && Conforms(f.msg, d)
  }

  // No sub-message is present but empty, at any depth.
  ghost predicate NoEmptySub(m: Message) {
    forall k | k in m.fields && m.fields[k].Sub? :: m.fields[k].msg.fields != map[] && NoEmptySub(m.fields[k].msg)
  }

  function Lookup(m: Message, k: string): Option<Field> {
    if k in m.fields then Some(m.fields[k]) else None
  }

  // A path through singular messages, one segment per field name.
  type Path = seq<string>

  // The value of a singular field at a path, sub-messages included.
  function FieldAt(m: Message, path: Path): Option<Field>
    decreases |path|
  {
    if path == [] || path[0] !in m.fields then None
    else if |path| == 1 then Some(m.fields[path[0]])
    else if m.fields[path[0]].Sub? then FieldAt(m.fields[path[0]].msg, path[1..])
    else None
  }

  // The value of a leaf: a field that is not a singular message.
  function LeafAt(m: Message, path: Path): Option<Field> {
    var f := FieldAt(m, path);
    if f.Some? && f.value.Sub? then None else f
  }

  function KindAt(d: Desc, path: Path): Option<Kind>
    decreases |path|
  {
    if path == [] || path[0] !in d.kinds then None
    else if |path| == 1 then Some(d.kinds[path[0]])
    else if d.kinds[path[0]].MessageKind? then KindAt(d.kinds[path[0]].desc, path[1..])
    else None
  }

  predicate Declared(d: Desc, path: Path) { KindAt(d, path).Some? }

  predicate DeclaredLeaf(d: Desc, path: Path) { KindAt(d, path).Some? && KindAt(d, path).value.LeafKind? }

  // The text form of a path.
  function Join(path: Path): string {
    if path == [] then "" else if |path| == 1 then path[0] else path[0] + "." + Join(path[1..])
  }

  // ----- Facts about text paths -----

  // The first segment of a dotted text is determined when segments hold no dot.
  lemma FirstSegment(j: string, k: string, p: string, q: string)
    requires NoDot(j) && NoDot(k)
    requires j + "." + p == k + "." + q
    ensures j == k && p == q
  {
    var s := j + "." + p;
    assert s[|j|] == '.' && s[..|j|] == j && s[|j| + 1..] == p;
    assert s[|k|] == '.' && s[..|k|] == k && s[|k| + 1..] == q;
    assert forall i | 0 <= i < |j| :: j[i] == s[i] && s[i] != '.';
    assert forall i | 0 <= i < |k| :: k[i] == s[i] && s[i] != '.';
  }

  // A dot-free text is no dotted text.
  lemma NotDotted(j: string, k: string, p: string)
    requires NoDot(j)
    ensures j != k + "." + p
  {
  }

  lemma NoDottedStart(k: string, q: string)
    requires NoDot(k)
    ensures !(q + "." <= k)
  {
    assert (q + ".")[|q|] == '.';
    assert forall i | 0 <= i < |k| :: k[i] != '.';
  }

  // A dot-free start of a dotted text is a start of its first segment.
  lemma DottedPrefix(k: string, j: string, q: string)
    requires NoDot(k) && k <= j + "." + q
    ensures k <= j
  {
    var p := j + "." + q;
    assert p[|j|] == '.';
    assert forall i | 0 <= i < |k| :: k[i] == p[i] && k[i] != '.';
  }

  // A declared path is present only where the message conforms.
  lemma {:induction false} PresentIsDeclared(m: Message, d: Desc, path: Path)
    requires Conforms(m, d) && FieldAt(m, path).Some?
    ensures Declared(d, path) && FieldConforms(FieldAt(m, path).value, KindAt(d, path).value)
    decreases |path|
  {
    if |path| > 1 { PresentIsDeclared(m.fields[path[0]].msg, d.kinds[path[0]].desc, path[1..]); }
  }

  // Text paths name declared paths uniquely.
  lemma {:induction false} JoinInjective(d: Desc, p: Path, q: Path)
    requires WellFormed(d) && Declared(d, p) && Declared(d, q)
    requires Join(p) == Join(q)
    ensures p == q
    decreases |p|
  {
    if |p| == 1 && |q| > 1 {
      NotDotted(p[0], q[0], Join(q[1..]));
    } else if |q| == 1 && |p| > 1 {
      NotDotted(q[0], p[0], Join(p[1..]));
    } else if |p| > 1 {
      FirstSegment(p[0], q[0], Join(p[1..]), Join(q[1..]));
      JoinInjective(d.kinds[p[0]].desc, p[1..], q[1..]);
      assert p == [p[0]] + p[1..] && q == [q[0]] + q[1..];
    }
  }

  // The holder of a declared path is declared, and a message.
  lemma {:induction false} ParentDeclared(d: Desc, path: Path)
    requires |path| > 1 && Declared(d, path)
    ensures Declared(d, path[..|path| - 1]) && KindAt(d, path[..|path| - 1]).value.MessageKind?
    decreases |path|
  {
    if |path| > 2 {
      assert path[1..][..|path| - 2] == path[..|path| - 1][1..];
      ParentDeclared(d.kinds[path[0]].desc, path[1..]);
    }
  }
}

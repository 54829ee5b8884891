// Configuration messages: secrets (test/ext/ext_cli.pb.go:715-743) and the revision field
// (server/reflect.go, apis/core/v1/extensions.go:26-35).
module Configs {
  import opened Basics
  import opened Messages

  // A configuration type: its descriptor, secret and masked fields, revision field and built-in default.
  datatype ConfigType = ConfigType(desc: Desc, secrets: seq<string>, masked: seq<string>, revision: string,
      newDefault: Message)

  const TIMESTAMP := Desc(true, ["seconds", "nanos"],
      map["seconds" := LeafKind(Value(Number(0))), "nanos" := LeafKind(Value(Number(0)))])
  const REVISION := Desc(false, ["revision", "timestamp"],
      map["revision" := LeafKind(Value(Number(0))), "timestamp" := MessageKind(TIMESTAMP)])

  ghost predicate ValidType(t: ConfigType) {
    && WellFormed(t.desc) && !t.desc.timed
    && Conforms(t.newDefault, t.desc)
    && t.revision in t.desc.kinds && t.desc.kinds[t.revision] == MessageKind(REVISION)
    && (forall k | k in t.secrets :: k in t.desc.kinds && t.desc.kinds[k].LeafKind?)
    && (forall k | k in t.masked :: k in t.desc.kinds && k != t.revision)
  }

  // ----- Secrets -----

  const REDACTED := "***"

  // The text of a secret field, empty when it is not populated.
  function SecretText(m: Message, k: string): string {
    if k in m.fields && m.fields[k].Value? && m.fields[k].scalar.Text? then m.fields[k].scalar.s else ""
  }

  function Redact(m: Message, secrets: seq<string>): Message {
    m.(fields := map k | k in m.fields ::
                   if k in secrets && SecretText(m, k) != "" then Value(Text(REDACTED)) else m.fields[k])
  }

  // Some redacted secret has no value to restore.
  predicate Discontinuous(m: Message, from: Message, secrets: seq<string>) {
    exists k :: k in secrets && SecretText(m, k) == REDACTED && SecretText(from, k) == ""
  }

  // Redacted secrets of m get their values back from an unredacted message.
  function Restore(m: Message, from: Message, secrets: seq<string>): Message {
    m.(fields := map k | k in m.fields ::
                   if k in secrets && SecretText(m, k) == REDACTED
                   then Value(Text(SecretText(from, k))) else m.fields[k])
  }

  lemma RedactConforms(m: Message, t: ConfigType)
    requires ValidType(t) && Conforms(m, t.desc)
    ensures Conforms(Redact(m, t.secrets), t.desc)
  {
  }

  lemma RestoreConforms(m: Message, from: Message, t: ConfigType)
    requires ValidType(t) && Conforms(m, t.desc)
    ensures Conforms(Restore(m, from, t.secrets), t.desc)
  {
  }

  // Restoring a redacted message from its original gives the original back.
  lemma RestoreRedacted(m: Message, secrets: seq<string>)
    ensures !Discontinuous(Redact(m, secrets), m, secrets)
    ensures Restore(Redact(m, secrets), m, secrets) == m
  {
  }

  // ----- What is hidden and what is resolved -----

  predicate NonEmptyText(f: Option<Field>) {
    f.Some? && f.value.Value? && f.value.scalar.Text? && f.value.scalar.s != ""
  }

  predicate IsRedacted(f: Option<Field>) { f == Some(Value(Text("***"))) }

  // A non-empty secret is shown as "***", everything else as it is.
  lemma RedactShows(m: Message, secrets: seq<string>, k: string)
    ensures Lookup(Redact(m, secrets), k) ==
            if k in secrets && NonEmptyText(Lookup(m, k)) then Some(Value(Text("***"))) else Lookup(m, k)
    ensures Redact(m, secrets).timed == m.timed
  {
  }

  // Two messages that differ only in what their non-empty secrets say are shown as the same.
  lemma RedactHides(a: Message, b: Message, secrets: seq<string>)
    requires a.timed == b.timed
    requires forall k :: Lookup(a, k) == Lookup(b, k) ||
                         (k in secrets && NonEmptyText(Lookup(a, k)) && NonEmptyText(Lookup(b, k)))
    ensures Redact(a, secrets) == Redact(b, secrets)
  {
    forall k
      ensures Lookup(Redact(a, secrets), k) == Lookup(Redact(b, secrets), k)
    {
      RedactShows(a, secrets, k);
      RedactShows(b, secrets, k);
    }
    hide Redact;
    SameFields(Redact(a, secrets), Redact(b, secrets));
  }

  lemma SameFields(a: Message, b: Message)
    requires a.timed == b.timed && forall k :: Lookup(a, k) == Lookup(b, k)
    ensures a == b
  {
    forall k
      ensures k in a.fields <==> k in b.fields
      ensures k in a.fields ==> a.fields[k] == b.fields[k]
    {
      assert Lookup(a, k) == Lookup(b, k);
    }
    assert a.fields == b.fields;
  }

  // A redacted secret gets the value it has in the original, if that has one; nothing else changes.
  lemma RestoreResolves(m: Message, from: Message, secrets: seq<string>, k: string)
    ensures !(k in secrets && IsRedacted(Lookup(m, k))) ==> Lookup(Restore(m, from, secrets), k) == Lookup(m, k)
    ensures k in secrets && IsRedacted(Lookup(m, k)) && NonEmptyText(Lookup(from, k)) ==>
              Lookup(Restore(m, from, secrets), k) == Lookup(from, k)
    ensures Restore(m, from, secrets).timed == m.timed
  {
  }

  // Restoring is refused exactly when a redacted secret has no value in the original.
  lemma DiscontinuousExactly(m: Message, from: Message, secrets: seq<string>)
    ensures Discontinuous(m, from, secrets) <==>
              exists k :: k in secrets && IsRedacted(Lookup(m, k)) && !NonEmptyText(Lookup(from, k))
  {
    if Discontinuous(m, from, secrets) {
      var k :| k in secrets && SecretText(m, k) == REDACTED && SecretText(from, k) == "";
      assert IsRedacted(Lookup(m, k)) && !NonEmptyText(Lookup(from, k));
    }
    if k :| k in secrets && IsRedacted(Lookup(m, k)) && !NonEmptyText(Lookup(from, k)) {
      assert SecretText(m, k) == REDACTED && SecretText(from, k) == "";
    }
  }

  // ----- The revision field -----

  function RevisionMessage(m: Message, field: string): Message {
    if field in m.fields && m.fields[field].Sub? then m.fields[field].msg else EmptyMessage(false)
  }

  // The revision number, when the field is populated and holds one.
  function RevisionNumber(m: Message, field: string): Option<int> {
    var rev := RevisionMessage(m, field);
    if "revision" in rev.fields && rev.fields["revision"].Value? && rev.fields["revision"].scalar.Number?
    then Some(rev.fields["revision"].scalar.n) else None
  }

  // GetRevision().GetRevision(): 0 when there is none.
  function RevisionOrZero(m: Message, field: string): int {
    var n := RevisionNumber(m, field);
    if n.Some? then n.value else 0
  }

  function UnsetRevision(m: Message, field: string): Message {
    m.(fields := m.fields - {field})
  }

  // Setting the number of a populated revision clears its timestamp, unless it had no number.
  function SetRevision(m: Message, field: string, n: int): Message {
    var rev := RevisionMessage(m, field);
    var number := Value(Number(n));
    m.(fields := m.fields[field := Sub(Message(false,
        if "revision" in rev.fields then (rev.fields - {"timestamp"})["revision" := number]
            else rev.fields["revision" := number]))])
  }

  function CopyRevision(dst: Message, src: Message, field: string): Message {
    if field in src.fields then dst.(fields := dst.fields[field := src.fields[field]]) else UnsetRevision(dst, field)
  }

  lemma SetRevisionConforms(m: Message, t: ConfigType, n: int)
    requires ValidType(t) && Conforms(m, t.desc)
    ensures Conforms(SetRevision(m, t.revision, n), t.desc)
    ensures RevisionNumber(SetRevision(m, t.revision, n), t.revision) == Some(n)
  {
    var rev := RevisionMessage(m, t.revision);
    if t.revision in m.fields { assert FieldConforms(m.fields[t.revision], t.desc.kinds[t.revision]); }
    assert Conforms(rev, REVISION);
    RevisionSet(rev, n);
    hide WellFormed;
    assert forall k | k in m.fields :: FieldConforms(m.fields[k], t.desc.kinds[k]);
  }

  lemma RevisionSet(rev: Message, n: int)
    requires Conforms(rev, REVISION)
    ensures Conforms(Message(false, (rev.fields - {"timestamp"})["revision" := Value(Number(n))]), REVISION)
    ensures Conforms(Message(false, rev.fields["revision" := Value(Number(n))]), REVISION)
  {
    var number := Value(Number(n));
    assert forall k | k in rev.fields :: k in REVISION.kinds && FieldConforms(rev.fields[k], REVISION.kinds[k]);
    assert FieldConforms(number, REVISION.kinds["revision"]);
    var fields := rev.fields["revision" := number];
    assert forall k | k in fields :: k in REVISION.kinds && FieldConforms(fields[k], REVISION.kinds[k]);
  }

  lemma UnsetConforms(m: Message, t: ConfigType)
    requires ValidType(t) && Conforms(m, t.desc)
    ensures Conforms(UnsetRevision(m, t.revision), t.desc)
  {
  }

  // The revision is no secret, so hiding it and redacting commute.
  lemma RedactUnset(m: Message, t: ConfigType)
    requires ValidType(t)
    ensures Redact(UnsetRevision(m, t.revision), t.secrets) == UnsetRevision(Redact(m, t.secrets), t.revision)
  {
    assert Redact(UnsetRevision(m, t.revision), t.secrets).fields ==
        UnsetRevision(Redact(m, t.secrets), t.revision).fields;
  }

  lemma UnsetForgets(m: Message, src: Message, field: string, n: int)
    ensures UnsetRevision(SetRevision(m, field, n), field) == UnsetRevision(m, field)
    ensures UnsetRevision(CopyRevision(m, src, field), field) == UnsetRevision(m, field)
    ensures UnsetRevision(UnsetRevision(m, field), field) == UnsetRevision(m, field)
  {
  }

  // The three touch no other field.
  lemma OnlyTheRevision(m: Message, src: Message, field: string, n: int, k: string)
    requires k != field
    ensures Lookup(UnsetRevision(m, field), k) == Lookup(m, k)
    ensures Lookup(SetRevision(m, field, n), k) == Lookup(m, k)
    ensures Lookup(CopyRevision(m, src, field), k) == Lookup(m, k)
  {
  }

  // The field they leave: none; the other message's; the number given, without a timestamp that
  // belonged to an earlier number.
  lemma TheRevision(m: Message, src: Message, field: string, n: int)
    ensures Lookup(UnsetRevision(m, field), field) == None
    ensures Lookup(CopyRevision(m, src, field), field) == Lookup(src, field)
    ensures var rev := Lookup(SetRevision(m, field, n), field);
            && rev.Some? && rev.value.Sub? && Lookup(rev.value.msg, "revision") == Some(Value(Number(n)))
            && (RevisionNumber(m, field).Some? ==> Lookup(rev.value.msg, "timestamp") == None)
    ensures UnsetRevision(m, field).timed == SetRevision(m, field, n).timed == m.timed
    ensures CopyRevision(m, src, field).timed == m.timed
  {
  }

  // A revision number is what the field's own field of that name holds.
  lemma NumberOfRevision(m: Message, field: string, rev: Message, n: int)
    requires Lookup(m, field) == Some(Sub(rev))
    ensures RevisionNumber(m, field) == Some(n) <==> Lookup(rev, "revision") == Some(Value(Number(n)))
    ensures RevisionNumber(UnsetRevision(m, field), field) == None
    ensures RevisionOrZero(UnsetRevision(m, field), field) == 0
    ensures RevisionNumber(m, field) == Some(n) ==> RevisionOrZero(m, field) == n
  {
  }
}

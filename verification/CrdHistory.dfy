// storage/drivers/crds/value_store.go: the history kept in an annotation of the object that
// holds the config, bounded to 64 entries and 250 KiB.
module CrdHistory {
  import opened Basics

  // The libraries used: snappy, base64, the JSON codec, and the wire form of a config with its
  // revision set. An entry is such a wire form.
  datatype Codec = Codec(
    compress: string -> string,
    base64: string -> string,
    decode: string -> seq<string>,
    stamp: (string, int) -> string)

  const MAX_ANNOTATION_SIZE := 250 * 1024
  const MAX_ENTRIES := 64

  // Length of a base64 text (section 4 of RFC 4648) and snappy's bound on its output.
  function EncodedLen(n: nat): nat { (n + 2) / 3 * 4 }

  function MaxEncodedLen(n: nat): nat { 32 + n + n / 6 }

  ghost predicate ValidCodec(c: Codec) {
    && (forall w :: |c.compress(w)| <= MaxEncodedLen(|w|))
    && (forall b :: |c.base64(b)| == EncodedLen(|b|))
    && (forall entries | NoneEmpty(entries) :: c.decode(Json(c, entries)) == entries)
    && (forall config, revision :: c.stamp(config, revision) != "")
  }

  // Only entries that say something are given back when decoded.
  predicate NoneEmpty(entries: seq<string>) {
    forall i | 0 <= i < |entries| :: entries[i] != ""
  }

  // What json.Marshal writes for a history.
  function Json(c: Codec, entries: seq<string>): string {
    "{\"entries\":[" + Items(c, entries) + "]}"
  }

  function Items(c: Codec, entries: seq<string>): string {
    if entries == [] then ""
    else if |entries| == 1 then Item(c, entries[0])
    else Item(c, entries[0]) + "," + Items(c, entries[1..])
  }

  function Item(c: Codec, wire: string): string {
    "{\"wirev2\":\"" + c.base64(c.compress(wire)) + "\"}"
  }

  // What encodeHistory reckons an entry and a history to take.
  function EntrySize(wire: string): nat {
    EncodedLen(MaxEncodedLen(|"{\"wire\":\"\"},"| + |wire|))
  }

  function Estimate(entries: seq<string>): nat {
    if entries == [] then |"{\"entries\":[]}"| else EntrySize(entries[0]) + Estimate(entries[1..])
  }

  // ----- The estimate bounds the text -----

  // With its separating comma an entry takes no more than its estimate.
  lemma ItemFits(c: Codec, wire: string)
    requires ValidCodec(c)
    ensures |Item(c, wire)| + 1 <= EntrySize(wire)
  {
  }

  lemma {:induction false} ItemsFit(c: Codec, entries: seq<string>)
    requires ValidCodec(c)
    ensures |Items(c, entries)| + 14 + (if entries == [] then 0 else 1) <= Estimate(entries)
    decreases |entries|
  {
    assert |"{\"entries\":[]}"| == 14;
    if entries != [] {
      ItemFits(c, entries[0]);
      ItemsFit(c, entries[1..]);
    }
  }

  lemma JsonFits(c: Codec, entries: seq<string>)
    requires ValidCodec(c)
    ensures |Json(c, entries)| <= Estimate(entries)
  {
    ItemsFit(c, entries);
    assert |"{\"entries\":["| == 12 && |"]}"| == 2;
  }

  // Longer suffixes take more.
  lemma {:induction false} EstimateOfSuffix(entries: seq<string>, i: nat, j: nat)
    requires i <= j <= |entries|
    ensures Estimate(entries[j..]) <= Estimate(entries[i..])
    ensures i < j ==> Estimate(entries[j..]) < Estimate(entries[i..])
    decreases j - i
  {
    if i < j {
      assert entries[i..][0] == entries[i] && entries[i..][1..] == entries[i + 1..];
      EstimateOfSuffix(entries, i + 1, j);
    }
  }

  // Sixty-four entries of 2500 bytes each are estimated to fit, so nothing of such a history is lost.
  lemma {:induction false} SmallHistoryFits(entries: seq<string>)
    requires |entries| <= 64 && forall i | 0 <= i < |entries| :: |entries[i]| <= 2500
    ensures Estimate(entries) <= 14 + 3952 * |entries| && Estimate(entries) <= 250 * 1024
    decreases |entries|
  {
    assert |"{\"entries\":[]}"| == 14 && |"{\"wire\":\"\"},"| == 12;
    if entries != [] {
      SmallHistoryFits(entries[1..]);
      SmallEntry(entries[0]);
    }
  }

  lemma SmallEntry(wire: string)
    requires |wire| <= 2500
    ensures EntrySize(wire) <= 3952
  {
    assert |"{\"wire\":\"\"},"| == 12;
    assert MaxEncodedLen(12 + |wire|) <= 2962;
  }

  // ----- Encoding -----

  // Drops the oldest entries until the estimate fits.
  method EncodeHistory(c: Codec, entries: seq<string>) returns (text: string, kept: seq<string>)
    requires ValidCodec(c)
    ensures IsNewest(kept, entries)
    ensures kept != [] ==> Estimate(kept) <= MAX_ANNOTATION_SIZE
    ensures forall k | |kept| < k <= |entries| :: Estimate(Newest(entries, k)) > MAX_ANNOTATION_SIZE
    ensures text == Json(c, kept) && |text| <= MAX_ANNOTATION_SIZE
    ensures NoneEmpty(entries) ==> NoneEmpty(kept) && c.decode(text) == kept
  {
    hide ValidCodec, Json, EntrySize, NoneEmpty;
    var size := |"{\"entries\":[]}"|;
    var i := |entries|;
    kept := entries;
    assert entries[|entries|..] == [];
    while i > 0
      invariant 0 <= i <= |entries| && kept == entries
      invariant size == Estimate(entries[i..]) && size <= MAX_ANNOTATION_SIZE
    {
      assert entries[i - 1..][0] == entries[i - 1] && entries[i - 1..][1..] == entries[i..];
      size := size + EntrySize(entries[i - 1]);
      if size > MAX_ANNOTATION_SIZE {
        kept := entries[i..];
        forall k | |kept| < k <= |entries|
          ensures Estimate(Newest(entries, k)) > MAX_ANNOTATION_SIZE
        {
          EstimateOfSuffix(entries, |entries| - k, i - 1);
        }
        break;
      }
      i := i - 1;
    }
    assert kept == entries[i..];
    text := Json(c, kept);
    JsonFits(c, kept);
    if NoneEmpty(entries) { Decodes(c, entries, i); }
  }

  lemma Decodes(c: Codec, entries: seq<string>, i: nat)
    requires ValidCodec(c) && i <= |entries| && NoneEmpty(entries)
    ensures NoneEmpty(entries[i..]) && c.decode(Json(c, entries[i..])) == entries[i..]
  {
  }

  // The object that holds the config.
  class ConfigObject {
    const codec: Codec
    // The config in wire form, and the revision the object was given when it was written.
    var config: string
    var revision: int
    var annotation: Option<string>
    // Every config that was replaced, with its revision, oldest first.
    ghost var past: seq<string>

    ghost predicate Valid()
      reads this
    {
      ValidCodec(codec) && Kept(codec, annotation, past)
    }

    constructor (codec: Codec, config: string, revision: int)
      requires ValidCodec(codec)
      ensures Valid() && past == [] && this.config == config && this.revision == revision && this.codec == codec
    {
      this.codec, this.config, this.revision, annotation, past := codec, config, revision, None, [];
    }

    // The entry of the current config.
    function Current(): string
      reads this
    {
      codec.stamp(config, revision)
    }

    function History(): seq<string>
      reads this
    {
      Entries(codec, annotation)
    }

    // Adds the current config to the history, keeping as many of the newest entries as fit.
    method AppendSpecToHistory()
      requires Valid()
      modifies this`annotation, this`past
      ensures Valid() && past == old(past) + [Current()]
      ensures var all := old(History()) + [Current()];
              IsNewest(History(), all) && KeepsAllThatFits(History(), all)
    {
      hide ValidCodec, Kept, IsNewest, KeepsAllThatFits, Estimate;
      KeptIsNewest(codec, annotation, past);
      StampSays(codec, config, revision);
      var entries := History() + [Current()];
      if |entries| > MAX_ENTRIES {
        entries := entries[|entries| - MAX_ENTRIES..];
      }
      var text, kept := EncodeHistory(codec, entries);
      AppendedHistory(History(), past, Current(), entries, kept);
      annotation, past := Some(text), past + [Current()];
      NewlyKept(codec, text, kept, past);
    }

    // A later Put replaces the config; the object is given a new revision.
    method Put(newConfig: string, newRevision: int)
      requires Valid()
      modifies this
      ensures Valid() && config == newConfig && revision == newRevision && past == old(past) + [old(Current())]
      ensures var all := old(History()) + [old(Current())];
              IsNewest(History(), all) && KeepsAllThatFits(History(), all)
    {
      hide ValidCodec, Kept, IsNewest, KeepsAllThatFits, Estimate;
      AppendSpecToHistory();
      config, revision := newConfig, newRevision;
    }

    // The stored entries, then the current config.
    method ReadHistory() returns (entries: seq<string>)
      requires Valid()
      ensures IsNewest(entries, past + [Current()]) && entries != [] && |entries| <= MAX_ENTRIES + 1
      ensures entries == History() + [Current()]
    {
      entries := History() + [Current()];
    }
  }

  // The entries of an annotation; none without one.
  function Entries(c: Codec, annotation: Option<string>): seq<string> {
    if annotation.Some? then c.decode(annotation.value) else []
  }

  // The history is a run of the newest replaced configs, within both bounds.
  ghost predicate Kept(c: Codec, annotation: Option<string>, past: seq<string>) {
    var entries := Entries(c, annotation);
    && IsNewest(entries, past) && NoneEmpty(entries)
    && (annotation.None? ==> past == [])
    && (annotation.Some? ==>
          annotation.value == Json(c, entries) && |annotation.value| <= MAX_ANNOTATION_SIZE && |entries| <= MAX_ENTRIES)
  }

  lemma KeptIsNewest(c: Codec, annotation: Option<string>, past: seq<string>)
    requires Kept(c, annotation, past)
    ensures IsNewest(Entries(c, annotation), past) && NoneEmpty(Entries(c, annotation))
  {
  }

  lemma StampSays(c: Codec, config: string, revision: int)
    requires ValidCodec(c)
    ensures c.stamp(config, revision) != ""
  {
  }

  lemma NewlyKept(c: Codec, text: string, entries: seq<string>, past: seq<string>)
    requires text == Json(c, entries) && c.decode(text) == entries && |text| <= MAX_ANNOTATION_SIZE
    requires IsNewest(entries, past) && NoneEmpty(entries) && |entries| <= MAX_ENTRIES
    ensures Kept(c, Some(text), past)
  {
  }

  function Newest(entries: seq<string>, k: nat): seq<string>
    requires k <= |entries|
  {
    entries[|entries| - k..]
  }

  // No larger number of the newest entries, up to 64, would have been within the estimate.
  ghost predicate KeepsAllThatFits(kept: seq<string>, all: seq<string>) {
    forall k | |kept| < k <= |all| && k <= 64 :: Estimate(Newest(all, k)) > 250 * 1024
  }

  lemma AppendedHistory(before: seq<string>, past: seq<string>, config: string, entries: seq<string>, kept: seq<string>)
    requires IsNewest(before, past)
    requires var all := before + [config]; entries == if |all| > MAX_ENTRIES then all[|all| - MAX_ENTRIES..] else all
    requires IsNewest(kept, entries)
    requires forall k | |kept| < k <= |entries| :: Estimate(Newest(entries, k)) > MAX_ANNOTATION_SIZE
    ensures IsNewest(kept, before + [config]) && IsNewest(kept, past + [config]) && |kept| <= MAX_ENTRIES
    ensures KeepsAllThatFits(kept, before + [config])
  {
    hide Estimate;
    var all := before + [config];
    NewestOfNewest(kept, entries, all);
    assert IsNewest(all, past + [config]);
    NewestOfNewest(kept, all, past + [config]);
    forall k | |kept| < k <= |all| && k <= MAX_ENTRIES
      ensures Estimate(Newest(all, k)) > MAX_ANNOTATION_SIZE
    {
      assert Newest(all, k) == Newest(entries, k);
    }
  }

  // part is the end of whole.
  ghost predicate IsNewest(part: seq<string>, whole: seq<string>) {
    |part| <= |whole| && part == Newest(whole, |part|)
  }

  lemma NewestOfNewest(a: seq<string>, b: seq<string>, c: seq<string>)
    requires IsNewest(a, b) && IsNewest(b, c)
    ensures IsNewest(a, c)
  {
  }
}

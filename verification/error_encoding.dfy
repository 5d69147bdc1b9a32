/** `NSError: Encodable`: an error becomes a keyed container with nine possible
    keys, written in declaration order. The keyed container is modelled as the
    list of (key, value) pairs it receives; the descriptive strings `NSError`
    reports (read from `userInfo` or computed) are supplied by `describe`. */
module ErrorEncoding {
  import opened Wrappers
  import opened ErrorTree

  /** `NSErrorCodingKeys`. */
  datatype CodingKey =
      DomainKey
    | CodeKey
    | DescriptionKey
    | LocalizedDescriptionKey
    | LocalizedFailureReasonKey
    | LocalizedRecoveryOptionsKey
    | LocalizedRecoverySuggestionKey
    | HelpAnchorKey
    | UnderlyingErrorsKey

  /** A value as an encoder receives it. `Null` is what `encode` writes for an
      absent optional. */
  datatype Encoded =
    | Null
    | Str(text: string)
    | Int(number: int)
    | Array(items: seq<Encoded>)
    | Object(entries: seq<Entry>)

  datatype Entry = Entry(key: CodingKey, value: Encoded)

  /** `description`, `localizedDescription`, `localizedFailureReason`,
      `localizedRecoveryOptions`, `localizedRecoverySuggestion`, `helpAnchor`. */
  datatype Descriptive = Descriptive(
    description: string,
    localizedDescription: string,
    localizedFailureReason: Option<string>,
    localizedRecoveryOptions: Option<seq<string>>,
    localizedRecoverySuggestion: Option<string>,
    helpAnchor: Option<string>)

  function EncodeOptional(s: Option<string>): (r: Encoded)
    ensures r == Null <==> s.None?
    ensures s.Some? ==> r == Str(s.value)
  {
    match s
    case None => Null
    case Some(t) => Str(t)
  }

  function EncodeStrings(ss: Option<seq<string>>): (r: Encoded)
    ensures r == Null <==> ss.None?
    ensures ss.Some? ==> r.Array? && |r.items| == |ss.value|
    ensures ss.Some? ==> forall i :: 0 <= i < |ss.value| ==> r.items[i] == Str(ss.value[i])
  {
    match ss
    case None => Null
    case Some(items) => Array(seq(|items|, i requires 0 <= i < |items| => Str(items[i])))
  }

  function Keys(entries: seq<Entry>): seq<CodingKey>
  {
    seq(|entries|, i requires 0 <= i < |entries| => entries[i].key)
  }

  /** The value stored under `k`, the first one if several were written. */
  function Lookup(entries: seq<Entry>, k: CodingKey): (r: Option<Encoded>)
    ensures r.Some? <==> k in Keys(entries)
  {
    if |entries| == 0 then None
    else if entries[0].key == k then
      assert Keys(entries)[0] == k;
      Some(entries[0].value)
    else
      assert Keys(entries) == [entries[0].key] + Keys(entries[1..]);
      Lookup(entries[1..], k)
  }

  /** The position of the first entry under `k`. */
  function Position(entries: seq<Entry>, k: CodingKey): (r: Option<nat>)
    ensures r.Some? ==> r.value < |entries| && entries[r.value].key == k
                        && Lookup(entries, k) == Some(entries[r.value].value)
    ensures r.None? <==> Lookup(entries, k).None?
  {
    if |entries| == 0 then None
    else if entries[0].key == k then Some(0)
    else
      var p := Position(entries[1..], k);
      if p.None? then None else Some(p.value + 1)
  }

  /** Entries under other keys do not hide the one looked for. */
  lemma {:induction false} LookupSkips(prefix: seq<Entry>, rest: seq<Entry>, k: CodingKey)
    requires forall i :: 0 <= i < |prefix| ==> prefix[i].key != k
    ensures Lookup(prefix + rest, k) == Lookup(rest, k)
  {
    if |prefix| == 0 {
      assert prefix + rest == rest;
    } else {
      assert (prefix + rest)[0].key != k;
      assert (prefix + rest)[1..] == prefix[1..] + rest;
      LookupSkips(prefix[1..], rest, k);
    }
  }

  /** An entry whose key no earlier entry has is what `Lookup` finds. */
  lemma LookupAt(entries: seq<Entry>, i: nat)
    requires i < |entries|
    requires forall j :: 0 <= j < i ==> entries[j].key != entries[i].key
    ensures Lookup(entries, entries[i].key) == Some(entries[i].value)
  {
    assert entries == entries[..i] + entries[i..];
    LookupSkips(entries[..i], entries[i..], entries[i].key);
  }

  /** The entries `encode(to:)` writes, in order: domain, code and the six
      descriptive keys always (with `Null` for an absent optional, because
      `encode` is used rather than `encodeIfPresent`), then the underlying errors,
      encoded the same way, only when there are any. */
  function EncodeEntries(e: Err, describe: Err -> Descriptive): seq<Entry>
    decreases e, 0
  {
    var d := describe(e);
    [ Entry(DomainKey, Str(e.domain)),
      Entry(CodeKey, Int(e.code)),
      Entry(DescriptionKey, Str(d.description)),
      Entry(LocalizedDescriptionKey, Str(d.localizedDescription)),
      Entry(LocalizedFailureReasonKey, EncodeOptional(d.localizedFailureReason)),
      Entry(LocalizedRecoveryOptionsKey, EncodeStrings(d.localizedRecoveryOptions)),
      Entry(LocalizedRecoverySuggestionKey, EncodeOptional(d.localizedRecoverySuggestion)),
      Entry(HelpAnchorKey, EncodeOptional(d.helpAnchor)) ]
    + if |e.underlying| == 0 then []
      else [Entry(UnderlyingErrorsKey, Array(EncodeAll(e.underlying, describe)))]
  }

  function EncodeAll(es: seq<Err>, describe: Err -> Descriptive): (r: seq<Encoded>)
    ensures |r| == |es|
    decreases es, 1
  {
    if |es| == 0 then [] else [Encode(es[0], describe)] + EncodeAll(es[1..], describe)
  }

  /** `encode(to:)`: one keyed container per error. */
  function Encode(e: Err, describe: Err -> Descriptive): Encoded
    decreases e, 1
  {
    Object(EncodeEntries(e, describe))
  }

  /** The keys written for every error, in order. */
  const FixedKeys: seq<CodingKey> :=
    [DomainKey, CodeKey, DescriptionKey, LocalizedDescriptionKey, LocalizedFailureReasonKey,
     LocalizedRecoveryOptionsKey, LocalizedRecoverySuggestionKey, HelpAnchorKey]

  /** The keys of an encoded error, in the order they are written. */
  lemma EncodedKeys(e: Err, describe: Err -> Descriptive)
    ensures Keys(EncodeEntries(e, describe))
         == FixedKeys + if |e.underlying| == 0 then [] else [UnderlyingErrorsKey]
  {
  }

  /** No key is written twice. */
  lemma EncodedKeysDistinct(e: Err, describe: Err -> Descriptive)
    ensures Distinct(Keys(EncodeEntries(e, describe)))
  {
    EncodedKeys(e, describe);
  }

  /** Domain and code are the first two entries. */
  lemma EncodedDomainAndCode(e: Err, describe: Err -> Descriptive)
    ensures Lookup(EncodeEntries(e, describe), DomainKey) == Some(Str(e.domain))
    ensures Lookup(EncodeEntries(e, describe), CodeKey) == Some(Int(e.code))
  {
    var entries := EncodeEntries(e, describe);
    assert entries[0] == Entry(DomainKey, Str(e.domain));
    assert entries[1] == Entry(CodeKey, Int(e.code));
    assert entries[1..][0] == entries[1];
  }

  /** Each of the eight keys written for every error is found at its own entry. */
  lemma EncodedFixedLookup(e: Err, describe: Err -> Descriptive)
    ensures forall i :: 0 <= i < 8 ==>
              Lookup(EncodeEntries(e, describe), FixedKeys[i]) == Some(EncodeEntries(e, describe)[i].value)
  {
    var entries := EncodeEntries(e, describe);
    EncodedKeys(e, describe);
    forall i | 0 <= i < 8
      ensures Lookup(entries, FixedKeys[i]) == Some(entries[i].value)
    {
      assert entries[i].key == FixedKeys[i];
      LookupAt(entries, i);
    }
  }

  /** The two descriptions hold what `describe` reports. */
  lemma EncodedDescriptions(e: Err, describe: Err -> Descriptive)
    ensures var entries := EncodeEntries(e, describe);
            var d := describe(e);
            && Lookup(entries, DescriptionKey) == Some(Str(d.description))
            && Lookup(entries, LocalizedDescriptionKey) == Some(Str(d.localizedDescription))
  {
    EncodedFixedLookup(e, describe);
    assert FixedKeys[2] == DescriptionKey && FixedKeys[3] == LocalizedDescriptionKey;
  }

  /** The recovery options hold what `describe` reports, absent ones as `Null`. */
  lemma EncodedRecoveryOptions(e: Err, describe: Err -> Descriptive)
    ensures Lookup(EncodeEntries(e, describe), LocalizedRecoveryOptionsKey)
            == Some(EncodeStrings(describe(e).localizedRecoveryOptions))
  {
    EncodedFixedLookup(e, describe);
    assert FixedKeys[5] == LocalizedRecoveryOptionsKey;
  }

  /** The three optional texts hold what `describe` reports, an absent one as
      `Null`. */
  lemma EncodedOptionalTexts(e: Err, describe: Err -> Descriptive)
    ensures var entries := EncodeEntries(e, describe);
            var d := describe(e);
            && Lookup(entries, LocalizedFailureReasonKey) == Some(EncodeOptional(d.localizedFailureReason))
            && Lookup(entries, LocalizedRecoverySuggestionKey) == Some(EncodeOptional(d.localizedRecoverySuggestion))
            && Lookup(entries, HelpAnchorKey) == Some(EncodeOptional(d.helpAnchor))
  {
    EncodedFixedLookup(e, describe);
    assert FixedKeys[4] == LocalizedFailureReasonKey;
    assert FixedKeys[6] == LocalizedRecoverySuggestionKey && FixedKeys[7] == HelpAnchorKey;
  }

  /** The underlying errors come last, under their own key, when there are any. */
  lemma EncodedUnderlying(e: Err, describe: Err -> Descriptive)
    requires |e.underlying| > 0
    ensures Lookup(EncodeEntries(e, describe), UnderlyingErrorsKey)
         == Some(Array(EncodeAll(e.underlying, describe)))
  {
    var entries := EncodeEntries(e, describe);
    var v := Array(EncodeAll(e.underlying, describe));
    EncodedKeys(e, describe);
    assert entries == entries[..8] + [Entry(UnderlyingErrorsKey, v)];
    assert forall i :: 0 <= i < 8 ==> entries[..8][i].key == FixedKeys[i];
    LookupSkips(entries[..8], [Entry(UnderlyingErrorsKey, v)], UnderlyingErrorsKey);
  }

  /** The keys of an encoded error and the values under domain, code and the
      underlying errors. */
  lemma EncodedKeysAndTree(e: Err, describe: Err -> Descriptive)
    ensures Encode(e, describe).Object?
    ensures Distinct(Keys(Encode(e, describe).entries))
    ensures Lookup(Encode(e, describe).entries, DomainKey) == Some(Str(e.domain))
    ensures Lookup(Encode(e, describe).entries, CodeKey) == Some(Int(e.code))
    ensures forall k :: k != UnderlyingErrorsKey ==> k in Keys(Encode(e, describe).entries)
    ensures UnderlyingErrorsKey in Keys(Encode(e, describe).entries) <==> |e.underlying| > 0
    ensures |e.underlying| > 0 ==>
              Lookup(Encode(e, describe).entries, UnderlyingErrorsKey)
              == Some(Array(EncodeAll(e.underlying, describe)))
  {
    EncodedKeys(e, describe);
    EncodedKeysDistinct(e, describe);
    EncodedDomainAndCode(e, describe);
    if |e.underlying| > 0 {
      EncodedUnderlying(e, describe);
    }
  }

  /** What an encoded error holds: every key at most once; domain, code and the
      six descriptive keys always, an absent optional as `Null`; the
      underlying-errors key exactly when there are underlying errors, holding
      them in order. */
  lemma EncodeShape(e: Err, describe: Err -> Descriptive)
    ensures Encode(e, describe).Object?
    ensures Distinct(Keys(Encode(e, describe).entries))
    ensures Lookup(Encode(e, describe).entries, DomainKey) == Some(Str(e.domain))
    ensures Lookup(Encode(e, describe).entries, CodeKey) == Some(Int(e.code))
    ensures forall k :: k != UnderlyingErrorsKey ==> k in Keys(Encode(e, describe).entries)
    ensures var d := describe(e);
            var entries := Encode(e, describe).entries;
            && Lookup(entries, DescriptionKey) == Some(Str(d.description))
            && Lookup(entries, LocalizedDescriptionKey) == Some(Str(d.localizedDescription))
            && Lookup(entries, LocalizedFailureReasonKey) == Some(EncodeOptional(d.localizedFailureReason))
            && Lookup(entries, LocalizedRecoveryOptionsKey) == Some(EncodeStrings(d.localizedRecoveryOptions))
            && Lookup(entries, LocalizedRecoverySuggestionKey) == Some(EncodeOptional(d.localizedRecoverySuggestion))
            && Lookup(entries, HelpAnchorKey) == Some(EncodeOptional(d.helpAnchor))
    ensures UnderlyingErrorsKey in Keys(Encode(e, describe).entries) <==> |e.underlying| > 0
    ensures |e.underlying| > 0 ==>
              Lookup(Encode(e, describe).entries, UnderlyingErrorsKey)
              == Some(Array(EncodeAll(e.underlying, describe)))
  {
    EncodedKeysAndTree(e, describe);
    EncodedDescriptions(e, describe);
    EncodedRecoveryOptions(e, describe);
    EncodedOptionalTexts(e, describe);
    assert Encode(e, describe).entries == EncodeEntries(e, describe);
  }

  /** `Null` or a string, as `Decode` reads an optional back. */
  function DecodeInt(v: Option<Encoded>): Option<int>
  {
    if v.Some? && v.value.Int? then Some(v.value.number) else None
  }

  function DecodeStr(v: Option<Encoded>): Option<string>
  {
    if v.Some? && v.value.Str? then Some(v.value.text) else None
  }

  /** An independent reader for encoded errors: domain, code and the underlying
      errors (none when the key is missing). */
  function Decode(v: Encoded): Option<Err>
    decreases v, 1
  {
    if !v.Object? then None
    else
      var domain := DecodeStr(Lookup(v.entries, DomainKey));
      var code := DecodeInt(Lookup(v.entries, CodeKey));
      var at := Position(v.entries, UnderlyingErrorsKey);
      var children :=
        if at.None? then Some([])
        else if v.entries[at.value].value.Array? then DecodeAll(v.entries[at.value].value.items)
        else None;
      if domain.None? || code.None? || children.None? then None
      else Some(Err(domain.value, code.value, children.value))
  }

  function DecodeAll(vs: seq<Encoded>): Option<seq<Err>>
    decreases vs, 0
  {
    if |vs| == 0 then Some([])
    else
      var head := Decode(vs[0]);
      var tail := DecodeAll(vs[1..]);
      if head.None? || tail.None? then None else Some([head.value] + tail.value)
  }

  /** Reading an encoded error back gives the same tree: `encode(to:)` loses
      neither a domain, a code, nor an underlying error, nor their order. */
  lemma {:induction false} DecodeEncode(e: Err, describe: Err -> Descriptive)
    ensures Decode(Encode(e, describe)) == Some(e)
    decreases e, 1
  {
    EncodedKeysAndTree(e, describe);
    if |e.underlying| > 0 {
      DecodeAllEncodeAll(e.underlying, describe);
    }
  }

  lemma {:induction false} DecodeAllEncodeAll(es: seq<Err>, describe: Err -> Descriptive)
    ensures DecodeAll(EncodeAll(es, describe)) == Some(es)
    decreases es, 2
  {
    if |es| > 0 {
      var vs := EncodeAll(es, describe);
      assert vs[0] == Encode(es[0], describe);
      assert vs[1..] == EncodeAll(es[1..], describe);
      DecodeEncode(es[0], describe);
      DecodeAllEncodeAll(es[1..], describe);
      assert es == [es[0]] + es[1..];
    }
  }
}

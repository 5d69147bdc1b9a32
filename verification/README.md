# swift-foundation-extension in Dafny

A functional model of the value-level core of `SwiftFoundationExtension`, a small
Swift library of Foundation helpers. It covers:

- **`RequestBuilder`** is an immutable record of session, URL, HTTP method,
  header map (`[String : String?]`) and optional body.
  - It has a primary initialiser and an overriding initialiser.
  - Each mutating `set…`/`append…` method has a copying `setting…`/`appending…`
    twin.
  - `createRequest` freezes the builder into a `URLRequest`.
  - Two raw-value enumerations: `HttpMethod` covers the methods of section 9.3
    of RFC 9110 except TRACE, plus PATCH from RFC 5789. `HttpHeader` lists
    well-known field names, with "Referer" spelled as in section 10.1.3 of
    RFC 9110.
- **The `NSError` underlying-error tree.**
  - `init(domain:code:underlying:)` wraps one error.
  - `forEachUnderlying(action:)` is a pre-order walk whose stop signal breaks
    one level only.
  - `firstUnderlying(domain:code:)` is built on that walk.
  - `decodingError(error0:error1:)` builds a two-child node.
  - `encode(to:)` writes an error and its underlying errors as keyed
    containers.
- **Helpers.**
  - Bounds-checked collection access.
  - Dictionary insert and inserting.
  - Optional descriptions.
  - `ceilIfEven`, `abs`, and the thousands separator (`commaSeperated`,
    `insertComma`) on fixed-width integers.

The model is organised as follows:

- **Modules:**
  - `Wrappers` holds `Option` and `Result`.
  - `Http` holds the two enumerations.
  - `ErrorTree`, `FoundationExtension` and `ErrorEncoding` model the error files.
  - `Collections`, `DictionaryExt`, `OptionalDescribe` and `IntegerFormat` model
    the helpers.
  - `RequestBuilders` models the builder.
- **Values:** every Swift value type is a Dafny datatype, and every mutating
  method is a function that returns the mutated value.
- **Parameters for what the model cannot interpret:**
  - The session and URL types are type parameters.
  - Foundation's URL appends are the function `appendTo`.
  - `String(describing:)` is the function `describing`.
  - The top-level encoder is `encode: V -> Result<Data, E>`.
  - The strings `NSError` reports for an error (description, localized
    texts, help anchor), read from `userInfo` or computed, are `describe`.
  - The dictionary iteration order is the sequence `order`.
- **Overflow:** integer arithmetic that would overflow in Swift returns
  `Traps`.

Notes on behaviour:

- **Nil header values.** A nil value in `set(header:value:)` keeps the key,
  holding nil. The `String?` is wrapped in a second optional and stored.
  `createRequest` then sends no field for that key.
- **Request assembly.** `createRequest` copies the URL, the method's raw
  name and the body, and passes every header entry to `setValue` in
  iteration order. When no two names differ only in case, the fields are
  exactly the entries holding a value.
- **Method.** The method is a non-optional field from construction on. The
  method enumeration has no TRACE case.

## Model

| member | source | states |
|---|---|---|
| Http.ParseMethod | Sources/SwiftFoundationExtension/RequestBuilder.swift:301-310 | decoding a raw method string succeeds only with a case whose raw value is that string, and fails exactly when no case has it |
| Http.MethodRoundTrip | Sources/SwiftFoundationExtension/RequestBuilder.swift:301-310 | decoding the raw value of any method gives that method back (raw values are pairwise distinct) |
| Http.TraceIsNotAMethod | Sources/SwiftFoundationExtension/RequestBuilder.swift:301-310 | "TRACE" decodes to no method |
| Http.HeaderRoundTrip | Sources/SwiftFoundationExtension/RequestBuilder.swift:312-411 | decoding the raw value of any of the 98 header cases gives that case back |
| Http.ParseHeaderSound | Sources/SwiftFoundationExtension/RequestBuilder.swift:312-411 | a string the header decoder accepts is the raw value of the case it returns; with the round trip, decoding and `rawValue` are inverse |
| Http.ParseHeaderComplete | Sources/SwiftFoundationExtension/RequestBuilder.swift:312-411 | a string the header decoder rejects is no case's raw value |
| Http.HeaderNameInjective | Sources/SwiftFoundationExtension/RequestBuilder.swift:312-411 | two header cases with the same raw value are the same case |
| Http.ReferrerSpelling | Sources/SwiftFoundationExtension/RequestBuilder.swift:371 | the `Referrer` case's raw value is "Referer", and "Referrer" decodes to no case |
| ErrorTree.WithUnderlying | Sources/SwiftFoundationExtension/NSError+.swift:11-13 | the new error has the given domain and code and exactly one underlying error, the given one |
| ErrorTree.WithUnderlyingPreorder | Sources/SwiftFoundationExtension/NSError+.swift:11-13 | walking the wrapping error lists it, then exactly the wrapped error's tree |
| ErrorTree.ForEachUnderlying | Sources/SwiftFoundationExtension/NSError+.swift:17-29 | the action is applied to the receiver first; the call returns nil exactly when that application returned nil, and then nothing else is visited |
| ErrorTree.WalkFollowsPreorder | Sources/SwiftFoundationExtension/NSError+.swift:17-29 | the nodes the action is applied to form a subsequence of the tree's pre-order listing, so none is visited twice or out of order |
| ErrorTree.WalkVisitsAll | Sources/SwiftFoundationExtension/NSError+.swift:20-28 | when the action never returns nil, every node is visited in pre-order and the call returns `()` |
| ErrorTree.WalkReachesFirstStop | Sources/SwiftFoundationExtension/NSError+.swift:21-25 | the walk visits at least the pre-order listing up to and including the first node where the action returns nil |
| ErrorTree.FirstUnderlyingAsWrittenSelf | Sources/SwiftFoundationExtension/NSError+.swift:33-43 | when the receiver itself matches domain and code, `firstUnderlying` returns the receiver |
| ErrorTree.FirstUnderlyingAsWrittenSound | Sources/SwiftFoundationExtension/NSError+.swift:33-43 | a non-nil result is a node of the tree matching domain and code, and the result is nil exactly when no node matches |
| ErrorTree.FirstUnderlyingCounterexample | Sources/SwiftFoundationExtension/NSError+.swift:17-43 | in `r[a[a1], b]` with `a1` and `b` matching, the walk goes on to `b` after stopping at `a1`, so the source returns `b` and the first pre-order match is `a1` |
| ErrorTree.FirstMatch | Sources/SwiftFoundationExtension/NSError+.swift:33-43 | reference search: a match exists exactly when the result is non-nil, and the result is the match at the smallest index |
| ErrorTree.FirstUnderlying | Sources/SwiftFoundationExtension/NSError+.swift:33-43 | with the stop propagated through every level, `firstUnderlying` is the first matching node in pre-order |
| FoundationExtension.RequestBuilderDomainSpelledOut | Sources/SwiftFoundationExtension/SwiftFoundationExtension.swift:13-18 | the request-builder domain is "studio.hcmc.foundation.requestBuilder", the library domain "studio.hcmc.foundation" with a suffix |
| FoundationExtension.DecodingError | Sources/SwiftFoundationExtension/SwiftFoundationExtension.swift:21-27 | the error has the request-builder domain, code 0 and underlying errors exactly `[error0, error1]` |
| FoundationExtension.DecodingErrorFindsItself | Sources/SwiftFoundationExtension/SwiftFoundationExtension.swift:21-27 | searching a decoding error for the request-builder domain and code 0 returns that error itself, under both searches |
| FoundationExtension.DecodingErrorPreorder | Sources/SwiftFoundationExtension/SwiftFoundationExtension.swift:21-27 | walking a decoding error lists it, then `error0`'s tree, then `error1`'s |
| ErrorEncoding.EncodeShape | Sources/SwiftFoundationExtension/NSError+Encodable.swift:11-37 | each key is written at most once; domain and code hold the error's; the six descriptive keys are always written and hold the reported strings, an absent optional as `Null`; the underlying-errors key is written exactly when there are underlying errors and then holds them encoded in order |
| ErrorEncoding.EncodeOptional | Sources/SwiftFoundationExtension/NSError+Encodable.swift:16-19 | an optional string is written as `Null` exactly when absent, else as the string itself |
| ErrorEncoding.DecodeEncode | Sources/SwiftFoundationExtension/NSError+Encodable.swift:11-24 | reading an encoded error back gives the same tree: no domain, code or underlying error is lost or reordered at any depth |
| Collections.GetOrNil | Sources/SwiftFoundationExtension/Collection+.swift:12-14 | returns the element at a non-negative index below the end, and nil exactly when the index is at or past the end |
| Collections.GetOrElse | Sources/SwiftFoundationExtension/Collection+.swift:17-19 | returns the element when in range, else the supplier's value; the supplier is called exactly when out of range |
| Collections.GetOrThrow | Sources/SwiftFoundationExtension/Collection+.swift:22-28 | returns the element when in range and throws the supplier's error exactly when out of range |
| Collections.AccessorsAgree | Sources/SwiftFoundationExtension/Collection+.swift:12-28 | whenever `get(orNil:)` finds an element the other two return it, and whenever it finds none they fall back to their suppliers |
| DictionaryExt.Insert | Sources/SwiftFoundationExtension/Dictionary+.swift:11-13 | afterwards the key maps to the value, the key set is the old one plus the key, and every other entry is unchanged |
| DictionaryExt.Inserting | Sources/SwiftFoundationExtension/Dictionary+.swift:15-20 | the key maps to the value in the result, the key set grows by the key, every other entry is unchanged, and the result equals what `insert` produces |
| DictionaryExt.InsertNilKeepsKey | Sources/SwiftFoundationExtension/Dictionary+.swift:11-13 | inserting nil into a dictionary of optionals keeps the key, holding nil, and removes no key |
| DictionaryExt.InsertIdempotent | Sources/SwiftFoundationExtension/Dictionary+.swift:11-13 | inserting the same pair twice equals inserting it once; a later value overrides an earlier one |
| OptionalDescribe.Describe | Sources/SwiftFoundationExtension/Optional+.swift:11-17 | nil is described as "<nil>", a present value by `String(describing:)` |
| OptionalDescribe.DescribeOnNil | Sources/SwiftFoundationExtension/Optional+.swift:19-25 | nil is described as `onNil`, a present value by `String(describing:)` |
| OptionalDescribe.DescribeIsDescribeOnNil | Sources/SwiftFoundationExtension/Optional+.swift:11-25 | `describe()` equals `describe(onNil: "<nil>")` for every input |
| IntegerFormat.AndOne | Sources/SwiftFoundationExtension/BinaryInteger+.swift:17 | the lowest bit of the two's-complement pattern is 0 or 1 and equals the value's parity, for negative values too |
| IntegerFormat.CeilIfEven | Sources/SwiftFoundationExtension/BinaryInteger+.swift:16-18 | traps exactly on an odd maximum; otherwise the result is even, in range, at least the input and at most one more, and equal to it exactly when it is even |
| IntegerFormat.CeilIfEvenTrapsAtMax | Sources/SwiftFoundationExtension/BinaryInteger+.swift:17 | every signed type wider than one bit and every unsigned type traps at its maximum |
| IntegerFormat.Abs | Sources/SwiftFoundationExtension/BinaryInteger+.swift:20-26 | traps exactly on the minimum of a signed type; otherwise returns the non-negative magnitude, in range |
| IntegerFormat.AbsIdempotent | Sources/SwiftFoundationExtension/BinaryInteger+.swift:20-26 | applying `abs` to its own result changes nothing |
| IntegerFormat.Decimal | Sources/SwiftFoundationExtension/BinaryInteger+.swift:13 | `String(n)` is non-empty, comma-free and starts with '-' exactly for negative values |
| IntegerFormat.GroupByReversingIsGroupRight | Sources/SwiftFoundationExtension/BinaryInteger+.swift:13 | reversing, cutting into threes, joining with commas and reversing back groups from the right, like the reference grouping |
| IntegerFormat.GroupRightStrip | Sources/SwiftFoundationExtension/BinaryInteger+.swift:13 | grouping a comma-free string and deleting the commas gives it back, with `(len - 1) / 3` commas and that much more length |
| IntegerFormat.GroupRightCommas | Sources/SwiftFoundationExtension/BinaryInteger+.swift:13 | in a grouped comma-free string a comma stands exactly at every fourth position from the right, so groups after the first have three characters and the first one to three |
| IntegerFormat.CommaSeparatedOfNatural | Sources/SwiftFoundationExtension/BinaryInteger+.swift:13 | for n >= 0 deleting the commas gives `String(n)`, there are `(len - 1) / 3` commas, the length is `len + (len - 1) / 3`, and commas sit every fourth position from the right |
| IntegerFormat.InsertCommaIsCommaSeparated | Sources/SwiftFoundationExtension/Integer+.swift:12-14 | `insertComma()` equals `commaSeperated` for every value, and inserts no comma for 0 <= n < 1000 |
| IntegerFormat.MinusSignGroupedAsDigit | Sources/SwiftFoundationExtension/BinaryInteger+.swift:13 | -123 is written "-,123": the sign is grouped like a digit |
| IntegerFormat.MinusSignInFirstGroup | Sources/SwiftFoundationExtension/BinaryInteger+.swift:13 | -1234 is written "-1,234" |
| IntegerFormat.CommaSeparatedCorrected | Sources/SwiftFoundationExtension/BinaryInteger+.swift:13 | sign then grouped digits: deleting commas gives `String(n)` for every n, no comma follows the sign, `(digits - 1) / 3` commas, and equal to `commaSeperated` for n >= 0 |
| RequestBuilders.Init | Sources/SwiftFoundationExtension/RequestBuilder.swift:18-29 | session, url, method and headers are stored; the body is nil whatever body was passed |
| RequestBuilders.InitDropsBody | Sources/SwiftFoundationExtension/RequestBuilder.swift:18-29 | any body passed to the primary initialiser is lost, while the corrected initialiser keeps it |
| RequestBuilders.InitCorrected | Sources/SwiftFoundationExtension/RequestBuilder.swift:18-29 | every argument, the body included, is stored, and it differs from the source's initialiser only in the body |
| RequestBuilders.Override | Sources/SwiftFoundationExtension/RequestBuilder.swift:31-44 | each field is the override when given, else the source builder's value |
| RequestBuilders.OverrideDefaults | Sources/SwiftFoundationExtension/RequestBuilder.swift:31-44 | overriding nothing copies the builder, and a nil body override cannot clear an existing body |
| RequestBuilders.Apply | Sources/SwiftFoundationExtension/RequestBuilder.swift:47-116 | each `set…`/`append…` changes only its own field; a header name afterwards maps to the given value, nil included, with other entries unchanged; a known header is stored under its raw name |
| RequestBuilders.Setting | Sources/SwiftFoundationExtension/RequestBuilder.swift:118-218 | each `setting…`/`appending…` returns exactly what the matching mutation produces on a copy, differing from the receiver only in the targeted field |
| RequestBuilders.HeaderAndMethodSetters | Sources/SwiftFoundationExtension/RequestBuilder.swift:90-100 | setting a known header equals setting its raw name; a nil value leaves the name present holding nil; overriding only the method equals `set(method:)` |
| RequestBuilders.LaterSetWins | Sources/SwiftFoundationExtension/RequestBuilder.swift:94-96 | two writes of the same header name leave only the later value |
| RequestBuilders.SetEncodedBody | Sources/SwiftFoundationExtension/RequestBuilder.swift:106-115 | nil clears the body; otherwise the body becomes the encoder's output; if the encoder throws, the error propagates and the builder is unchanged |
| RequestBuilders.SettingEncodedBody | Sources/SwiftFoundationExtension/RequestBuilder.swift:210-217 | fails with the encoder's error exactly when `set(body:encoder:)` throws, else returns the mutated copy, which differs from the receiver only in the body |
| RequestBuilders.SetValue | Sources/SwiftFoundationExtension/RequestBuilder.swift:225-227 | `setValue(_:forHTTPHeaderField:)` replaces every field whose name matches without case; a value is stored under the name, and nil only removes |
| RequestBuilders.CreateRequest | Sources/SwiftFoundationExtension/RequestBuilder.swift:221-230 | the request has the builder's URL, the method's raw name and the body; every field comes from a header entry holding that value; no two fields differ only in case; when no two header names do, every entry holding a value becomes a field and entries holding nil add none |

## Left out

- URLSession dispatch is not modelled, because it is network I/O with callbacks
  and concurrency. This covers `dataTask`, `downloadTask` and `uploadTask` and
  the async `data`, `download` and `upload` (`RequestBuilder.swift:233-299`).
- URL semantics are not modelled: path appends, query items, percent-encoding
  and directory hints. The URL is a type parameter, and appends go through the
  parameter `appendTo`. The model proves only that they touch the URL field
  alone.
- `URLSession` is a type parameter. `TopLevelEncoder` is the function
  `encode`, and the Foundation error strings come from `describe`. The
  `Encoder` keyed container is modelled as the list of entries it receives.
  No JSON or other wire format is modelled.
- String equality is scalar by scalar: two `string`s are equal exactly when
  they hold the same Unicode scalars. Swift's `String ==`, `Dictionary` keys
  with `String` type and a synthesised `init(rawValue:)` treat canonically
  equivalent strings as equal. The model does not normalise, so it differs
  from Swift whenever two strings are canonically equivalent but spelled
  with different scalars. The members affected are listed next.
- Http.ParseHeaderComplete: "Public-\u{212A}ey-Pins" (U+212A KELVIN SIGN is
  canonically "K") decodes to `.PublicKeyPins` in Swift and to no case in
  the model. The same goes for `Sec-WebSocket-Key` and
  `Public-Key-Pins-Report-Only`. `ParseMethod` is unaffected, because no
  method raw value contains a character with such a variant.
- ErrorTree.FirstUnderlying: the domain test `error.domain == domain`
  (`NSError+.swift:36`) is modelled as scalar equality, so a domain "cafe"
  followed by U+0301 does not match "caf\u{e9}" in the model, although it
  does in Swift. The same holds for `ErrorTree.FirstUnderlyingAsWrittenSound`.
- RequestBuilders.Apply: header names are dictionary keys compared scalar by
  scalar (`RequestBuilder.swift:95-99`). Setting "\u{e9}" and then "e"
  followed by U+0301 leaves one key in Swift and two in the model. The same
  holds for `DictionaryExt.Insert`.
- ErrorTree.ForEachUnderlying: the action's result depends only on the node
  it is applied to. A Swift closure can capture state and return nil after,
  say, five nodes; such callers are not modelled. The one closure the
  library passes, in `firstUnderlying` (`NSError+.swift:35-40`), depends
  only on the node.
- ErrorEncoding.EncodeShape: assumes the newest platform. On systems older than
  macOS 11.3 the underlying-errors key is never written. `@available` gating
  is not modelled anywhere.
- ErrorEncoding.DecodeEncode: the reader reconstructs domain, code and the
  underlying errors. It does not read back the descriptive strings: the
  error model carries no `userInfo`, so the reader has nothing to rebuild
  them from.
- RequestBuilders.CreateRequest: the dictionary's iteration order is a
  parameter. Which spelling Foundation keeps after a case-insensitive
  replacement is not modelled: the model keeps the latest name. Case
  folding is ASCII only, because field names are tokens.
- RequestBuilders.Init: default arguments (`.shared`, `[:]`, nil) are the
  caller's business and are not modelled.
- Collections.GetOrNil: only integer-indexed collections starting at 0 are
  modelled. A negative index traps in the subscript and is a precondition.
- IntegerFormat.CeilIfEven: fixed-width types only. Arbitrary-precision
  `BinaryInteger` conformers are not covered, and a trap is the `Traps`
  outcome rather than a crash.
- IntegerFormat.Abs: fixed-width types only. For an arbitrary-precision
  `BinaryInteger` conformer, `x * -1` never traps, and the model does not
  cover that case.
- The `Codable` conformance of `HttpMethod` and `HttpHeader` is modelled only
  as raw-value parsing.
- `Date+.swift` is not modelled, because it is floating-point arithmetic.
- `Result+.swift` is not modelled, because it re-expresses Swift's do/catch.
- `Package.swift` is not modelled, because it is a build manifest.

## Findings

| source | as written | input that shows it | evidently intended | confidence | as-written member | corrected member |
|---|---|---|---|---|---|---|
| Sources/SwiftFoundationExtension/NSError+.swift:17-43 | the nil that stops the walk breaks only the loop of the level that sees it, so the parent goes on with later siblings and `found` is overwritten by every later match | `r[a[a1], b]` where `a1` and `b` match: the walk visits `r, a, a1, b` and `b` is returned | the first matching node in pre-order (`a1`) | not executed | ErrorTree.FirstUnderlyingCounterexample | ErrorTree.FirstUnderlying |
| Sources/SwiftFoundationExtension/RequestBuilder.swift:18-29 | the primary initialiser never assigns `body`, so it stays nil | any non-nil `body` argument | the body argument is stored | not executed | RequestBuilders.InitDropsBody | RequestBuilders.InitCorrected |
| Sources/SwiftFoundationExtension/BinaryInteger+.swift:13 | the minus sign of `String(self)` is grouped like a digit | -123 gives "-,123" | "-123": the sign, then the grouped digits | not executed | IntegerFormat.MinusSignGroupedAsDigit | IntegerFormat.CommaSeparatedCorrected |

/** `RequestBuilder`: an immutable record of session, URL, method, header map
    and body, the operations that derive one record from another, and the
    `URLRequest` it becomes. The session and the URL are opaque type parameters;
    Foundation's URL appends are the parameter `appendTo`. */
module RequestBuilders {
  import opened Wrappers
  import opened DictionaryExt
  import Http

  newtype Byte = b: int | 0 <= b < 256

  /** `Data`. */
  type Data = seq<Byte>

  /** `[String : String?]`: a present key may hold nil. */
  type Headers = map<string, Option<string>>

  datatype Builder<S, U> = Builder(
    session: S,
    url: U,
    httpMethod: Http.HttpMethod,
    headers: Headers,
    body: Option<Data>)

  /** The primary `init(session:url:method:headers:body:)` as written: the
      `body` argument is never stored, so the body is always nil. The defaults
      (`.shared`, `[:]`, nil) are filled in by the caller. */
  function Init<S, U>(session: S, url: U, httpMethod: Http.HttpMethod, headers: Headers,
                      body: Option<Data>): (b: Builder<S, U>)
    ensures b.session == session && b.url == url && b.httpMethod == httpMethod
    ensures b.headers == headers
    ensures b.body == None
  {
    Builder(session, url, httpMethod, headers, None)
  }

  /** The primary initialiser as evidently intended: every argument is stored. */
  function InitCorrected<S, U>(session: S, url: U, httpMethod: Http.HttpMethod, headers: Headers,
                               body: Option<Data>): (b: Builder<S, U>)
    ensures b.session == session && b.url == url && b.httpMethod == httpMethod
    ensures b.headers == headers && b.body == body
    ensures b == Init(session, url, httpMethod, headers, body).(body := body)
  {
    Builder(session, url, httpMethod, headers, body)
  }

  /** Any body passed to the primary initialiser is lost. */
  lemma InitDropsBody<S, U>(session: S, url: U, httpMethod: Http.HttpMethod, headers: Headers,
                            body: Data)
    ensures Init(session, url, httpMethod, headers, Some(body)).body != Some(body)
    ensures InitCorrected(session, url, httpMethod, headers, Some(body)).body == Some(body)
  {
  }

  /** `init(overriding:session:url:method:headers:body:)`: each field is the
      override when one is given, else the source builder's. */
  function Override<S, U>(from: Builder<S, U>, session: Option<S>, url: Option<U>,
                          httpMethod: Option<Http.HttpMethod>, headers: Option<Headers>,
                          body: Option<Data>): (b: Builder<S, U>)
    ensures session.Some? ==> b.session == session.value
    ensures session.None? ==> b.session == from.session
    ensures url.Some? ==> b.url == url.value
    ensures url.None? ==> b.url == from.url
    ensures httpMethod.Some? ==> b.httpMethod == httpMethod.value
    ensures httpMethod.None? ==> b.httpMethod == from.httpMethod
    ensures headers.Some? ==> b.headers == headers.value
    ensures headers.None? ==> b.headers == from.headers
    ensures body.Some? ==> b.body == body
    ensures body.None? ==> b.body == from.body
  {
    Builder(
      OrElse(session, from.session),
      OrElse(url, from.url),
      OrElse(httpMethod, from.httpMethod),
      OrElse(headers, from.headers),
      if body.Some? then body else from.body)
  }

  /** Swift's `??`. */
  function OrElse<T>(o: Option<T>, fallback: T): T
  {
    match o
    case Some(v) => v
    case None => fallback
  }

  /** Overriding nothing copies the builder, and a nil body override cannot
      clear a body: the overriding builder has one whenever the source has. */
  lemma OverrideDefaults<S, U>(from: Builder<S, U>, session: Option<S>, url: Option<U>,
                               httpMethod: Option<Http.HttpMethod>, headers: Option<Headers>)
    ensures Override(from, None, None, None, None, None) == from
    ensures from.body.Some? ==> Override(from, session, url, httpMethod, headers, None).body.Some?
  {
  }

  /** `URL.DirectoryHint`. */
  datatype DirectoryHint = IsDirectory | NotDirectory | CheckFileSystem | InferFromPath

  /** `URLQueryItem`. */
  datatype QueryItem = QueryItem(name: string, value: Option<string>)

  /** The URL edits the builder forwards to Foundation. */
  datatype UrlEdit =
    | AppendComponent(component: string, componentHint: DirectoryHint)
    | AppendPath(path: string, pathHint: DirectoryHint)
    | AppendQueryItems(items: seq<QueryItem>)
    | AppendPathComponent(pathComponent: string)
    | AppendPathComponentDirectory(directoryComponent: string, isDirectory: bool)

  /** One `set…`/`append…` call, with its arguments. */
  datatype Mutation<S, U> =
    | SetSession(newSession: S)
    | SetUrl(newUrl: U)
    | EditUrl(edit: UrlEdit)
    | SetMethod(newMethod: Http.HttpMethod)
    | SetHeader(name: string, value: Option<string>)
    | SetKnownHeader(header: Http.HttpHeader, knownValue: Option<string>)
    | SetBody(newBody: Option<Data>)

  datatype Field = SessionField | UrlField | MethodField | HeadersField | BodyField

  /** The one field a mutation writes. */
  function Target<S, U>(m: Mutation<S, U>): Field
  {
    match m
    case SetSession(_) => SessionField
    case SetUrl(_) => UrlField
    case EditUrl(_) => UrlField
    case SetMethod(_) => MethodField
    case SetHeader(_, _) => HeadersField
    case SetKnownHeader(_, _) => HeadersField
    case SetBody(_) => BodyField
  }

  /** `a` and `b` agree on every field but `f`. */
  ghost predicate SameExcept<S, U>(a: Builder<S, U>, b: Builder<S, U>, f: Field)
  {
    && (f != SessionField ==> a.session == b.session)
    && (f != UrlField ==> a.url == b.url)
    && (f != MethodField ==> a.httpMethod == b.httpMethod)
    && (f != HeadersField ==> a.headers == b.headers)
    && (f != BodyField ==> a.body == b.body)
  }

  /** The `set…` and `append…` methods, with the mutated builder returned. Only
      the targeted field changes; a header is written with `insert`, so a nil
      value is stored under its name rather than removing it; a known header
      is written under its raw name. */
  function Apply<S, U>(b: Builder<S, U>, m: Mutation<S, U>,
                               appendTo: (U, UrlEdit) -> U): (r: Builder<S, U>)
    ensures SameExcept(b, r, Target(m))
    ensures m.SetSession? ==> r.session == m.newSession
    ensures m.SetUrl? ==> r.url == m.newUrl
    ensures m.EditUrl? ==> r.url == appendTo(b.url, m.edit)
    ensures m.SetMethod? ==> r.httpMethod == m.newMethod
    ensures m.SetHeader? ==> r.headers.Keys == b.headers.Keys + {m.name}
                             && r.headers[m.name] == m.value
    ensures m.SetHeader? ==> forall k :: k in b.headers && k != m.name ==> r.headers[k] == b.headers[k]
    ensures m.SetKnownHeader? ==> Http.HeaderName(m.header) in r.headers
                                  && r.headers[Http.HeaderName(m.header)] == m.knownValue
    ensures m.SetBody? ==> r.body == m.newBody
  {
    match m
    case SetSession(s) => b.(session := s)
    case SetUrl(u) => b.(url := u)
    case EditUrl(edit) => b.(url := appendTo(b.url, edit))
    case SetMethod(httpMethod) => b.(httpMethod := httpMethod)
    case SetHeader(name, value) => b.(headers := Insert(b.headers, name, value))
    case SetKnownHeader(header, value) => b.(headers := Insert(b.headers, Http.HeaderName(header), value))
    case SetBody(body) => b.(body := body)
  }

  /** The `setting…`/`appending…` methods: apply the matching mutation to a
      copy and return it. The receiver is a value and stays as it was. */
  function Setting<S, U>(b: Builder<S, U>, m: Mutation<S, U>,
                                 appendTo: (U, UrlEdit) -> U): (r: Builder<S, U>)
    ensures SameExcept(b, r, Target(m))
    ensures r == Apply(b, m, appendTo)
  {
    Apply(b, m, appendTo)
  }

  /** Setting a known header is setting its raw name; a nil value leaves the
      name present, holding nil; overriding the method alone is setting it. */
  lemma HeaderAndMethodSetters<S, U>(b: Builder<S, U>, header: Http.HttpHeader,
                                            name: string, value: Option<string>,
                                            httpMethod: Http.HttpMethod, appendTo: (U, UrlEdit) -> U)
    ensures Apply(b, SetKnownHeader(header, value), appendTo)
         == Apply(b, SetHeader(Http.HeaderName(header), value), appendTo)
    ensures name in Apply(b, SetHeader(name, None), appendTo).headers
    ensures Apply(b, SetHeader(name, None), appendTo).headers[name] == None
    ensures Override(b, None, None, Some(httpMethod), None, None)
         == Apply(b, SetMethod(httpMethod), appendTo)
  {
  }

  /** Two writes to the same field: the later one wins. */
  lemma LaterSetWins<S, U>(b: Builder<S, U>, name: string, v1: Option<string>,
                                   v2: Option<string>, appendTo: (U, UrlEdit) -> U)
    ensures Apply(Apply(b, SetHeader(name, v1), appendTo), SetHeader(name, v2), appendTo)
         == Apply(b, SetHeader(name, v2), appendTo)
  {
    InsertIdempotent(b.headers, name, v1, v2);
  }

  /** A builder together with the error a throwing `set` raised, if any. */
  datatype Mutated<S, U, E> = Mutated(builder: Builder<S, U>, thrown: Option<E>)

  /** `set(body:encoder:)`: a nil value clears the body; otherwise the body
      becomes the encoder's output, and when the encoder throws the error
      propagates before the assignment, so the builder is unchanged. */
  function SetEncodedBody<S, U, V, E>(b: Builder<S, U>, value: Option<V>,
                                      encode: V -> Result<Data, E>): (r: Mutated<S, U, E>)
    ensures value.None? ==> r == Mutated(b.(body := None), None)
    ensures value.Some? && encode(value.value).Success? ==>
              r == Mutated(b.(body := Some(encode(value.value).value)), None)
    ensures value.Some? && encode(value.value).Failure? ==>
              r == Mutated(b, Some(encode(value.value).error))
  {
    match value
    case None => Mutated(b.(body := None), None)
    case Some(v) =>
      match encode(v)
      case Success(data) => Mutated(b.(body := Some(data)), None)
      case Failure(e) => Mutated(b, Some(e))
  }

  /** `setting(body:encoder:)`: a builder, or the encoder's error and none. */
  function SettingEncodedBody<S, U, V, E>(b: Builder<S, U>, value: Option<V>,
                                          encode: V -> Result<Data, E>): (r: Result<Builder<S, U>, E>)
    ensures r.Failure? <==> SetEncodedBody(b, value, encode).thrown.Some?
    ensures r.Failure? ==> r.error == SetEncodedBody(b, value, encode).thrown.value
    ensures r.Success? ==> r.value == SetEncodedBody(b, value, encode).builder
                           && r.value == b.(body := r.value.body)
  {
    var mutated := SetEncodedBody(b, value, encode);
    if mutated.thrown.Some? then Failure(mutated.thrown.value) else Success(mutated.builder)
  }

  /** `URLRequest`, with its header fields. */
  datatype Request<U> = Request(url: U, httpMethod: string, httpBody: Option<Data>,
                                fields: map<string, string>)

  /** ASCII lower case: header field names are tokens, compared without case. */
  function Lower(s: string): (r: string)
    ensures |r| == |s|
  {
    seq(|s|, i requires 0 <= i < |s| =>
      if 'A' <= s[i] <= 'Z' then (s[i] as int + 32) as char else s[i])
  }

  /** No two of the names differ only in case. */
  predicate CaseDistinct(names: set<string>)
  {
    forall a, b :: a in names && b in names && a != b ==> Lower(a) != Lower(b)
  }

  /** `URLRequest.setValue(_:forHTTPHeaderField:)`: any field whose name matches
      without case is replaced; a nil value only removes. */
  function SetValue(fields: map<string, string>, name: string, value: Option<string>): (r: map<string, string>)
    ensures value.Some? ==> name in r && r[name] == value.value
    ensures value.None? ==> forall k :: k in r ==> Lower(k) != Lower(name)
    ensures forall k :: k in r && k != name ==> k in fields && r[k] == fields[k] && Lower(k) != Lower(name)
    ensures forall k :: k in fields && Lower(k) != Lower(name) ==> k in r && r[k] == fields[k]
  {
    var kept := map k | k in fields && Lower(k) != Lower(name) :: fields[k];
    if value.Some? then kept[name := value.value] else kept
  }

  /** `createRequest()`: the URL, the method's raw name and the body, then each
      header entry in the dictionary's iteration order `order` through
      `setValue`. Every field comes from a header entry holding a value; when no
      two header names differ only in case, every such entry becomes a field
      and an entry holding nil adds none. */
  method CreateRequest<S, U>(b: Builder<S, U>, order: seq<string>) returns (r: Request<U>)
    requires Distinct(order)
    requires forall k :: k in b.headers <==> k in order
    ensures r.url == b.url && r.httpMethod == Http.MethodName(b.httpMethod) && r.httpBody == b.body
    ensures forall k :: k in r.fields ==> k in b.headers && b.headers[k] == Some(r.fields[k])
    ensures CaseDistinct(r.fields.Keys)
    ensures CaseDistinct(b.headers.Keys) ==>
              forall k :: k in b.headers && b.headers[k].Some? ==> k in r.fields
  {
    var fields: map<string, string> := map[];
    var i := 0;
    while i < |order|
      invariant 0 <= i <= |order|
      invariant forall k :: k in fields ==> k in order[..i] && b.headers[k] == Some(fields[k])
      invariant CaseDistinct(fields.Keys)
      invariant CaseDistinct(b.headers.Keys) ==>
                  forall j :: 0 <= j < i && b.headers[order[j]].Some? ==> order[j] in fields
    {
      var name := order[i];
      fields := SetValue(fields, name, b.headers[name]);
      i := i + 1;
    }
    assert order[..i] == order;
    r := Request(b.url, Http.MethodName(b.httpMethod), b.body, fields);
  }
}

/** The two raw-string enumerations a request builder is configured with:
    `HttpMethod` (the request methods of section 9.3 of RFC 9110 except TRACE,
    plus PATCH from RFC 5789) and `HttpHeader` (well-known header field names;
    the `Referrer` case is spelled "Referer" as in section 10.1.3 of RFC 9110).
    `MethodName`/`HeaderName` are Swift's `rawValue`; `ParseMethod`/`ParseHeader`
    are the failable `init(rawValue:)` that `Codable` decoding goes through. */
module Http {
  import opened Wrappers

  datatype HttpMethod = Post | Get | Put | Patch | Delete | Connect | Head | Options

  function MethodName(m: HttpMethod): string
  {
    match m
    case Post => "POST"
    case Get => "GET"
    case Put => "PUT"
    case Patch => "PATCH"
    case Delete => "DELETE"
    case Connect => "CONNECT"
    case Head => "HEAD"
    case Options => "OPTIONS"
  }

  /** `HttpMethod(rawValue:)`: the raw string is matched exactly (case-sensitively). */
  function ParseMethod(s: string): (r: Option<HttpMethod>)
    ensures r.Some? ==> MethodName(r.value) == s
    ensures r.None? ==> forall m :: MethodName(m) != s
  {
    match s
    case "POST" => Some(Post)
    case "GET" => Some(Get)
    case "PUT" => Some(Put)
    case "PATCH" => Some(Patch)
    case "DELETE" => Some(Delete)
    case "CONNECT" => Some(Connect)
    case "HEAD" => Some(Head)
    case "OPTIONS" => Some(Options)
    case _ => None
  }

  /** Raw values are pairwise distinct, so decoding the raw value gives the case back. */
  lemma MethodRoundTrip(m: HttpMethod)
    ensures ParseMethod(MethodName(m)) == Some(m)
  {
  }

  /** TRACE (section 9.3.8 of RFC 9110) is the one standard method without a case. */
  lemma TraceIsNotAMethod()
    ensures ParseMethod("TRACE") == None
  {
  }

  datatype HttpHeader =
      Accept
    | AcceptCharset
    | AcceptEncoding
    | AcceptLanguage
    | AcceptRanges
    | Age
    | Allow
    | ALPN
    | AuthenticationInfo
    | Authorization
    | CacheControl
    | Connection
    | ContentDisposition
    | ContentEncoding
    | ContentLanguage
    | ContentLength
    | ContentLocation
    | ContentRange
    | ContentType
    | Cookie
    | DASL
    | Date
    | DAV
    | Depth
    | Destination
    | ETag
    | Expect
    | Expires
    | From
    | Forwarded
    | Host
    | HTTP2Settings
    | If
    | IfMatch
    | IfModifiedSince
    | IfNoneMatch
    | IfRange
    | IfScheduleTagMatch
    | IfUnmodifiedSince
    | LastModified
    | Location
    | LockToken
    | Link
    | MaxForwards
    | MIMEVersion
    | OrderingType
    | Origin
    | Overwrite
    | Position
    | Pragma
    | Prefer
    | PreferenceApplied
    | ProxyAuthenticate
    | ProxyAuthenticationInfo
    | ProxyAuthorization
    | PublicKeyPins
    | PublicKeyPinsReportOnly
    | Range
    | Referrer
    | RetryAfter
    | ScheduleReply
    | ScheduleTag
    | SecWebSocketAccept
    | SecWebSocketExtensions
    | SecWebSocketKey
    | SecWebSocketProtocol
    | SecWebSocketVersion
    | Server
    | SetCookie
    | SLUG
    | StrictTransportSecurity
    | TE
    | Timeout
    | Trailer
    | TransferEncoding
    | Upgrade
    | UserAgent
    | Vary
    | Via
    | Warning
    | WWWAuthenticate
    | AccessControlAllowOrigin
    | AccessControlAllowMethods
    | AccessControlAllowCredentials
    | AccessControlAllowHeaders
    | AccessControlRequestMethod
    | AccessControlRequestHeaders
    | AccessControlExposeHeaders
    | AccessControlMaxAge
    | XHttpMethodOverride
    | XForwardedHost
    | XForwardedServer
    | XForwardedProto
    | XForwardedFor
    | XForwardedPort
    | XRequestId
    | XCorrelationId
    | XTotalCount

  function HeaderName(h: HttpHeader): string
  {
    match h
    case Accept => "Accept"
    case AcceptCharset => "Accept-Charset"
    case AcceptEncoding => "Accept-Encoding"
    case AcceptLanguage => "Accept-Language"
    case AcceptRanges => "Accept-Ranges"
    case Age => "Age"
    case Allow => "Allow"
    case ALPN => "ALPN"
    case AuthenticationInfo => "Authentication-Info"
    case Authorization => "Authorization"
    case CacheControl => "Cache-Control"
    case Connection => "Connection"
    case ContentDisposition => "Content-Disposition"
    case ContentEncoding => "Content-Encoding"
    case ContentLanguage => "Content-Language"
    case ContentLength => "Content-Length"
    case ContentLocation => "Content-Location"
    case ContentRange => "Content-Range"
    case ContentType => "Content-Type"
    case Cookie => "Cookie"
    case DASL => "DASL"
    case Date => "Date"
    case DAV => "DAV"
    case Depth => "Depth"
    case Destination => "Destination"
    case ETag => "ETag"
    case Expect => "Expect"
    case Expires => "Expires"
    case From => "From"
    case Forwarded => "Forwarded"
    case Host => "Host"
    case HTTP2Settings => "HTTP2-Settings"
    case If => "If"
    case IfMatch => "If-Match"
    case IfModifiedSince => "If-Modified-Since"
    case IfNoneMatch => "If-None-Match"
    case IfRange => "If-Range"
    case IfScheduleTagMatch => "If-Schedule-Tag-Match"
    case IfUnmodifiedSince => "If-Unmodified-Since"
    case LastModified => "Last-Modified"
    case Location => "Location"
    case LockToken => "Lock-Token"
    case Link => "Link"
    case MaxForwards => "Max-Forwards"
    case MIMEVersion => "MIME-Version"
    case OrderingType => "Ordering-Type"
    case Origin => "Origin"
    case Overwrite => "Overwrite"
    case Position => "Position"
    case Pragma => "Pragma"
    case Prefer => "Prefer"
    case PreferenceApplied => "Preference-Applied"
    case ProxyAuthenticate => "Proxy-Authenticate"
    case ProxyAuthenticationInfo => "Proxy-Authentication-Info"
    case ProxyAuthorization => "Proxy-Authorization"
    case PublicKeyPins => "Public-Key-Pins"
    case PublicKeyPinsReportOnly => "Public-Key-Pins-Report-Only"
    case Range => "Range"
    case Referrer => "Referer"
    case RetryAfter => "Retry-After"
    case ScheduleReply => "Schedule-Reply"
    case ScheduleTag => "Schedule-Tag"
    case SecWebSocketAccept => "Sec-WebSocket-Accept"
    case SecWebSocketExtensions => "Sec-WebSocket-Extensions"
    case SecWebSocketKey => "Sec-WebSocket-Key"
    case SecWebSocketProtocol => "Sec-WebSocket-Protocol"
    case SecWebSocketVersion => "Sec-WebSocket-Version"
    case Server => "Server"
    case SetCookie => "Set-Cookie"
    case SLUG => "SLUG"
    case StrictTransportSecurity => "Strict-Transport-Security"
    case TE => "TE"
    case Timeout => "Timeout"
    case Trailer => "Trailer"
    case TransferEncoding => "Transfer-Encoding"
    case Upgrade => "Upgrade"
    case UserAgent => "User-Agent"
    case Vary => "Vary"
    case Via => "Via"
    case Warning => "Warning"
    case WWWAuthenticate => "WWW-Authenticate"
    case AccessControlAllowOrigin => "Access-Control-Allow-Origin"
    case AccessControlAllowMethods => "Access-Control-Allow-Methods"
    case AccessControlAllowCredentials => "Access-Control-Allow-Credentials"
    case AccessControlAllowHeaders => "Access-Control-Allow-Headers"
    case AccessControlRequestMethod => "Access-Control-Request-Method"
    case AccessControlRequestHeaders => "Access-Control-Request-Headers"
    case AccessControlExposeHeaders => "Access-Control-Expose-Headers"
    case AccessControlMaxAge => "Access-Control-Max-Age"
    case XHttpMethodOverride => "X-Http-Method-Override"
    case XForwardedHost => "X-Forwarded-Host"
    case XForwardedServer => "X-Forwarded-Server"
    case XForwardedProto => "X-Forwarded-Proto"
    case XForwardedFor => "X-Forwarded-For"
    case XForwardedPort => "X-Forwarded-Port"
    case XRequestId => "X-Request-ID"
    case XCorrelationId => "X-Correlation-ID"
    case XTotalCount => "X-Total-Count"
  }

  /** `HttpHeader(rawValue:)`: the raw string is matched exactly (case-sensitively)
      against every raw value. Candidates are tried by length, which does not change
      the result: strings of different lengths are never equal. */
  function ParseHeader(s: string): Option<HttpHeader>
  {
    match |s|
    case 2 =>
      (match s
       case "If" => Some(If)
       case "TE" => Some(TE)
       case _ => None)
    case 3 =>
      (match s
       case "Age" => Some(Age)
       case "DAV" => Some(DAV)
       case "Via" => Some(Via)
       case _ => None)
    case 4 =>
      (match s
       case "ALPN" => Some(ALPN)
       case "DASL" => Some(DASL)
       case "Date" => Some(Date)
       case "ETag" => Some(ETag)
       case "From" => Some(From)
       case "Host" => Some(Host)
       case "Link" => Some(Link)
       case "SLUG" => Some(SLUG)
       case "Vary" => Some(Vary)
       case _ => None)
    case 5 =>
      (match s
       case "Allow" => Some(Allow)
       case "Depth" => Some(Depth)
       case "Range" => Some(Range)
       case _ => None)
    case 6 =>
      (match s
       case "Accept" => Some(Accept)
       case "Cookie" => Some(Cookie)
       case "Expect" => Some(Expect)
       case "Origin" => Some(Origin)
       case "Pragma" => Some(Pragma)
       case "Prefer" => Some(Prefer)
       case "Server" => Some(Server)
       case _ => None)
    case 7 =>
      (match s
       case "Expires" => Some(Expires)
       case "Referer" => Some(Referrer)
       case "Timeout" => Some(Timeout)
       case "Trailer" => Some(Trailer)
       case "Upgrade" => Some(Upgrade)
       case "Warning" => Some(Warning)
       case _ => None)
    case 8 =>
      (match s
       case "If-Match" => Some(IfMatch)
       case "If-Range" => Some(IfRange)
       case "Location" => Some(Location)
       case "Position" => Some(Position)
       case _ => None)
    case 9 =>
      (match s
       case "Forwarded" => Some(Forwarded)
       case "Overwrite" => Some(Overwrite)
       case _ => None)
    case 10 =>
      (match s
       case "Connection" => Some(Connection)
       case "Lock-Token" => Some(LockToken)
       case "Set-Cookie" => Some(SetCookie)
       case "User-Agent" => Some(UserAgent)
       case _ => None)
    case 11 =>
      (match s
       case "Destination" => Some(Destination)
       case "Retry-After" => Some(RetryAfter)
       case _ => None)
    case 12 =>
      (match s
       case "Content-Type" => Some(ContentType)
       case "Max-Forwards" => Some(MaxForwards)
       case "MIME-Version" => Some(MIMEVersion)
       case "Schedule-Tag" => Some(ScheduleTag)
       case "X-Request-ID" => Some(XRequestId)
       case _ => None)
    case 13 =>
      (match s
       case "Accept-Ranges" => Some(AcceptRanges)
       case "Authorization" => Some(Authorization)
       case "Cache-Control" => Some(CacheControl)
       case "Content-Range" => Some(ContentRange)
       case "If-None-Match" => Some(IfNoneMatch)
       case "Last-Modified" => Some(LastModified)
       case "Ordering-Type" => Some(OrderingType)
       case "X-Total-Count" => Some(XTotalCount)
       case _ => None)
    case 14 =>
      (match s
       case "Accept-Charset" => Some(AcceptCharset)
       case "Content-Length" => Some(ContentLength)
       case "HTTP2-Settings" => Some(HTTP2Settings)
       case "Schedule-Reply" => Some(ScheduleReply)
       case _ => None)
    case 15 =>
      (match s
       case "Accept-Encoding" => Some(AcceptEncoding)
       case "Accept-Language" => Some(AcceptLanguage)
       case "Public-Key-Pins" => Some(PublicKeyPins)
       case "X-Forwarded-For" => Some(XForwardedFor)
       case _ => None)
    case 16 =>
      (match s
       case "Content-Encoding" => Some(ContentEncoding)
       case "Content-Language" => Some(ContentLanguage)
       case "Content-Location" => Some(ContentLocation)
       case "WWW-Authenticate" => Some(WWWAuthenticate)
       case "X-Forwarded-Host" => Some(XForwardedHost)
       case "X-Forwarded-Port" => Some(XForwardedPort)
       case "X-Correlation-ID" => Some(XCorrelationId)
       case _ => None)
    case 17 =>
      (match s
       case "If-Modified-Since" => Some(IfModifiedSince)
       case "Sec-WebSocket-Key" => Some(SecWebSocketKey)
       case "Transfer-Encoding" => Some(TransferEncoding)
       case "X-Forwarded-Proto" => Some(XForwardedProto)
       case _ => None)
    case 18 =>
      (match s
       case "Preference-Applied" => Some(PreferenceApplied)
       case "Proxy-Authenticate" => Some(ProxyAuthenticate)
       case "X-Forwarded-Server" => Some(XForwardedServer)
       case _ => None)
    case 19 =>
      (match s
       case "Authentication-Info" => Some(AuthenticationInfo)
       case "Content-Disposition" => Some(ContentDisposition)
       case "If-Unmodified-Since" => Some(IfUnmodifiedSince)
       case "Proxy-Authorization" => Some(ProxyAuthorization)
       case _ => None)
    case 20 =>
      (match s
       case "Sec-WebSocket-Accept" => Some(SecWebSocketAccept)
       case _ => None)
    case 21 =>
      (match s
       case "If-Schedule-Tag-Match" => Some(IfScheduleTagMatch)
       case "Sec-WebSocket-Version" => Some(SecWebSocketVersion)
       case _ => None)
    case 22 =>
      (match s
       case "Sec-WebSocket-Protocol" => Some(SecWebSocketProtocol)
       case "Access-Control-Max-Age" => Some(AccessControlMaxAge)
       case "X-Http-Method-Override" => Some(XHttpMethodOverride)
       case _ => None)
    case 24 =>
      (match s
       case "Sec-WebSocket-Extensions" => Some(SecWebSocketExtensions)
       case _ => None)
    case 25 =>
      (match s
       case "Proxy-Authentication-Info" => Some(ProxyAuthenticationInfo)
       case "Strict-Transport-Security" => Some(StrictTransportSecurity)
       case _ => None)
    case 27 =>
      (match s
       case "Public-Key-Pins-Report-Only" => Some(PublicKeyPinsReportOnly)
       case "Access-Control-Allow-Origin" => Some(AccessControlAllowOrigin)
       case _ => None)
    case 28 =>
      (match s
       case "Access-Control-Allow-Methods" => Some(AccessControlAllowMethods)
       case "Access-Control-Allow-Headers" => Some(AccessControlAllowHeaders)
       case _ => None)
    case 29 =>
      (match s
       case "Access-Control-Request-Method" => Some(AccessControlRequestMethod)
       case "Access-Control-Expose-Headers" => Some(AccessControlExposeHeaders)
       case _ => None)
    case 30 =>
      (match s
       case "Access-Control-Request-Headers" => Some(AccessControlRequestHeaders)
       case _ => None)
    case 32 =>
      (match s
       case "Access-Control-Allow-Credentials" => Some(AccessControlAllowCredentials)
       case _ => None)
    case _ => None
  }

  /** Raw values are pairwise distinct, so decoding the raw value gives the case back.
      The proof checks the cases in groups, in declaration order; later cases cost
      more to evaluate, so later groups are smaller. */
  lemma HeaderRoundTrip(h: HttpHeader)
    ensures ParseHeader(HeaderName(h)) == Some(h)
  {
    if InGroup1(h) {
      HeaderRoundTripGroup1(h);
    } else if InGroup2(h) {
      HeaderRoundTripGroup2(h);
    } else if InGroup3(h) {
      HeaderRoundTripGroup3(h);
    } else if InGroup4(h) {
      HeaderRoundTripGroup4(h);
    } else if InGroup5(h) {
      HeaderRoundTripGroup5(h);
    } else if InGroup6(h) {
      HeaderRoundTripGroup6(h);
    } else if InGroup7(h) {
      HeaderRoundTripGroup7(h);
    } else if InGroup8(h) {
      HeaderRoundTripGroup8(h);
    } else if InGroup9(h) {
      HeaderRoundTripGroup9(h);
    } else if InGroup10(h) {
      HeaderRoundTripGroup10(h);
    } else {
      HeaderRoundTripGroup11(h);
    }
  }

  /** `h` is one of `Accept` … `ContentLength`. */
  predicate InGroup1(h: HttpHeader)
  {
    || h.Accept?
      || h.AcceptCharset?
      || h.AcceptEncoding?
      || h.AcceptLanguage?
      || h.AcceptRanges?
      || h.Age?
      || h.Allow?
      || h.ALPN?
      || h.AuthenticationInfo?
      || h.Authorization?
      || h.CacheControl?
      || h.Connection?
      || h.ContentDisposition?
      || h.ContentEncoding?
      || h.ContentLanguage?
      || h.ContentLength?
  }

  /** `h` is one of `ContentLocation` … `From`. */
  predicate InGroup2(h: HttpHeader)
  {
    || h.ContentLocation?
      || h.ContentRange?
      || h.ContentType?
      || h.Cookie?
      || h.DASL?
      || h.Date?
      || h.DAV?
      || h.Depth?
      || h.Destination?
      || h.ETag?
      || h.Expect?
      || h.Expires?
      || h.From?
  }

  /** `h` is one of `Forwarded` … `LastModified`. */
  predicate InGroup3(h: HttpHeader)
  {
    || h.Forwarded?
      || h.Host?
      || h.HTTP2Settings?
      || h.If?
      || h.IfMatch?
      || h.IfModifiedSince?
      || h.IfNoneMatch?
      || h.IfRange?
      || h.IfScheduleTagMatch?
      || h.IfUnmodifiedSince?
      || h.LastModified?
  }

  /** `h` is one of `Location` … `Pragma`. */
  predicate InGroup4(h: HttpHeader)
  {
    || h.Location?
      || h.LockToken?
      || h.Link?
      || h.MaxForwards?
      || h.MIMEVersion?
      || h.OrderingType?
      || h.Origin?
      || h.Overwrite?
      || h.Position?
      || h.Pragma?
  }

  /** `h` is one of `Prefer` … `Referrer`. */
  predicate InGroup5(h: HttpHeader)
  {
    || h.Prefer?
      || h.PreferenceApplied?
      || h.ProxyAuthenticate?
      || h.ProxyAuthenticationInfo?
      || h.ProxyAuthorization?
      || h.PublicKeyPins?
      || h.PublicKeyPinsReportOnly?
      || h.Range?
      || h.Referrer?
  }

  /** `h` is one of `RetryAfter` … `SecWebSocketVersion`. */
  predicate InGroup6(h: HttpHeader)
  {
    || h.RetryAfter?
      || h.ScheduleReply?
      || h.ScheduleTag?
      || h.SecWebSocketAccept?
      || h.SecWebSocketExtensions?
      || h.SecWebSocketKey?
      || h.SecWebSocketProtocol?
      || h.SecWebSocketVersion?
  }

  /** `h` is one of `Server` … `Trailer`. */
  predicate InGroup7(h: HttpHeader)
  {
    || h.Server?
      || h.SetCookie?
      || h.SLUG?
      || h.StrictTransportSecurity?
      || h.TE?
      || h.Timeout?
      || h.Trailer?
  }

  /** `h` is one of `TransferEncoding` … `Warning`. */
  predicate InGroup8(h: HttpHeader)
  {
    || h.TransferEncoding?
      || h.Upgrade?
      || h.UserAgent?
      || h.Vary?
      || h.Via?
      || h.Warning?
  }

  /** `h` is one of `WWWAuthenticate` … `AccessControlRequestMethod`. */
  predicate InGroup9(h: HttpHeader)
  {
    || h.WWWAuthenticate?
      || h.AccessControlAllowOrigin?
      || h.AccessControlAllowMethods?
      || h.AccessControlAllowCredentials?
      || h.AccessControlAllowHeaders?
      || h.AccessControlRequestMethod?
  }

  /** `h` is one of `AccessControlRequestHeaders` … `XForwardedServer`. */
  predicate InGroup10(h: HttpHeader)
  {
    || h.AccessControlRequestHeaders?
      || h.AccessControlExposeHeaders?
      || h.AccessControlMaxAge?
      || h.XHttpMethodOverride?
      || h.XForwardedHost?
      || h.XForwardedServer?
  }

  /** `h` is one of `XForwardedProto` … `XTotalCount`. */
  predicate InGroup11(h: HttpHeader)
  {
    || h.XForwardedProto?
      || h.XForwardedFor?
      || h.XForwardedPort?
      || h.XRequestId?
      || h.XCorrelationId?
      || h.XTotalCount?
  }

  lemma HeaderRoundTripGroup1(h: HttpHeader)
    requires InGroup1(h)
    ensures ParseHeader(HeaderName(h)) == Some(h)
  {
    match h
    case Accept =>
    case AcceptCharset =>
    case AcceptEncoding =>
    case AcceptLanguage =>
    case AcceptRanges =>
    case Age =>
    case Allow =>
    case ALPN =>
    case AuthenticationInfo =>
    case Authorization =>
    case CacheControl =>
    case Connection =>
    case ContentDisposition =>
    case ContentEncoding =>
    case ContentLanguage =>
    case ContentLength =>
    case _ => assert false;
  }

  lemma HeaderRoundTripGroup2(h: HttpHeader)
    requires InGroup2(h)
    ensures ParseHeader(HeaderName(h)) == Some(h)
  {
    match h
    case ContentLocation =>
    case ContentRange =>
    case ContentType =>
    case Cookie =>
    case DASL =>
    case Date =>
    case DAV =>
    case Depth =>
    case Destination =>
    case ETag =>
    case Expect =>
    case Expires =>
    case From =>
    case _ => assert false;
  }

  lemma HeaderRoundTripGroup3(h: HttpHeader)
    requires InGroup3(h)
    ensures ParseHeader(HeaderName(h)) == Some(h)
  {
    match h
    case Forwarded =>
    case Host =>
    case HTTP2Settings =>
    case If =>
    case IfMatch =>
    case IfModifiedSince =>
    case IfNoneMatch =>
    case IfRange =>
    case IfScheduleTagMatch =>
    case IfUnmodifiedSince =>
    case LastModified =>
    case _ => assert false;
  }

  lemma HeaderRoundTripGroup4(h: HttpHeader)
    requires InGroup4(h)
    ensures ParseHeader(HeaderName(h)) == Some(h)
  {
    match h
    case Location =>
    case LockToken =>
    case Link =>
    case MaxForwards =>
    case MIMEVersion =>
    case OrderingType =>
    case Origin =>
    case Overwrite =>
    case Position =>
    case Pragma =>
    case _ => assert false;
  }

  lemma HeaderRoundTripGroup5(h: HttpHeader)
    requires InGroup5(h)
    ensures ParseHeader(HeaderName(h)) == Some(h)
  {
    match h
    case Prefer =>
    case PreferenceApplied =>
    case ProxyAuthenticate =>
    case ProxyAuthenticationInfo =>
    case ProxyAuthorization =>
    case PublicKeyPins =>
    case PublicKeyPinsReportOnly =>
    case Range =>
    case Referrer =>
    case _ => assert false;
  }

  lemma HeaderRoundTripGroup6(h: HttpHeader)
    requires InGroup6(h)
    ensures ParseHeader(HeaderName(h)) == Some(h)
  {
    match h
    case RetryAfter =>
    case ScheduleReply =>
    case ScheduleTag =>
    case SecWebSocketAccept =>
    case SecWebSocketExtensions =>
    case SecWebSocketKey =>
    case SecWebSocketProtocol =>
    case SecWebSocketVersion =>
    case _ => assert false;
  }

  lemma HeaderRoundTripGroup7(h: HttpHeader)
    requires InGroup7(h)
    ensures ParseHeader(HeaderName(h)) == Some(h)
  {
    match h
    case Server =>
    case SetCookie =>
    case SLUG =>
    case StrictTransportSecurity =>
    case TE =>
    case Timeout =>
    case Trailer =>
    case _ => assert false;
  }

  lemma HeaderRoundTripGroup8(h: HttpHeader)
    requires InGroup8(h)
    ensures ParseHeader(HeaderName(h)) == Some(h)
  {
    match h
    case TransferEncoding =>
    case Upgrade =>
    case UserAgent =>
    case Vary =>
    case Via =>
    case Warning =>
    case _ => assert false;
  }

  lemma HeaderRoundTripGroup9(h: HttpHeader)
    requires InGroup9(h)
    ensures ParseHeader(HeaderName(h)) == Some(h)
  {
    match h
    case WWWAuthenticate =>
    case AccessControlAllowOrigin =>
    case AccessControlAllowMethods =>
    case AccessControlAllowCredentials =>
    case AccessControlAllowHeaders =>
    case AccessControlRequestMethod =>
    case _ => assert false;
  }

  lemma HeaderRoundTripGroup10(h: HttpHeader)
    requires InGroup10(h)
    ensures ParseHeader(HeaderName(h)) == Some(h)
  {
    match h
    case AccessControlRequestHeaders =>
    case AccessControlExposeHeaders =>
    case AccessControlMaxAge =>
    case XHttpMethodOverride =>
    case XForwardedHost =>
    case XForwardedServer =>
    case _ => assert false;
  }

  lemma HeaderRoundTripGroup11(h: HttpHeader)
    requires InGroup11(h)
    ensures ParseHeader(HeaderName(h)) == Some(h)
  {
    match h
    case XForwardedProto =>
    case XForwardedFor =>
    case XForwardedPort =>
    case XRequestId =>
    case XCorrelationId =>
    case XTotalCount =>
    case _ => assert false;
  }

  /** A string the decoder accepts is the raw value of the case it decodes to:
      together with `HeaderRoundTrip`, `ParseHeader` and `HeaderName` are inverse.
      The proof goes by the length of the string. */
  lemma ParseHeaderSound(s: string)
    requires ParseHeader(s).Some?
    ensures HeaderName(ParseHeader(s).value) == s
  {
    var h := ParseHeader(s).value;
    if |s| < 8 {
      ParseHeaderSoundShort(s, h);
    } else if |s| < 15 {
      ParseHeaderSoundMedium(s, h);
    } else {
      ParseHeaderSoundLong(s, h);
    }
  }

  lemma ParseHeaderSoundShort(s: string, h: HttpHeader)
    requires |s| < 8 && ParseHeader(s) == Some(h)
    ensures HeaderName(h) == s
  {
    match |s|
    case 2 => ParseHeaderSoundOfLength2(s, h);
    case 3 => ParseHeaderSoundOfLength3(s, h);
    case 4 => ParseHeaderSoundOfLength4(s, h);
    case 5 => ParseHeaderSoundOfLength5(s, h);
    case 6 => ParseHeaderSoundOfLength6(s, h);
    case 7 => ParseHeaderSoundOfLength7(s, h);
    case _ =>
  }

  lemma ParseHeaderSoundMedium(s: string, h: HttpHeader)
    requires 8 <= |s| < 15 && ParseHeader(s) == Some(h)
    ensures HeaderName(h) == s
  {
    match |s|
    case 8 => ParseHeaderSoundOfLength8(s, h);
    case 9 => ParseHeaderSoundOfLength9(s, h);
    case 10 => ParseHeaderSoundOfLength10(s, h);
    case 11 => ParseHeaderSoundOfLength11(s, h);
    case 12 => ParseHeaderSoundOfLength12(s, h);
    case 13 => ParseHeaderSoundOfLength13(s, h);
    case 14 => ParseHeaderSoundOfLength14(s, h);
    case _ =>
  }

  lemma ParseHeaderSoundLong(s: string, h: HttpHeader)
    requires 15 <= |s| && ParseHeader(s) == Some(h)
    ensures HeaderName(h) == s
  {
    match |s|
    case 15 => ParseHeaderSoundOfLength15(s, h);
    case 16 => ParseHeaderSoundOfLength16(s, h);
    case 17 => ParseHeaderSoundOfLength17(s, h);
    case 18 => ParseHeaderSoundOfLength18(s, h);
    case 19 => ParseHeaderSoundOfLength19(s, h);
    case 20 => ParseHeaderSoundOfLength20(s, h);
    case 21 => ParseHeaderSoundOfLength21(s, h);
    case 22 => ParseHeaderSoundOfLength22(s, h);
    case 24 => ParseHeaderSoundOfLength24(s, h);
    case 25 => ParseHeaderSoundOfLength25(s, h);
    case 27 => ParseHeaderSoundOfLength27(s, h);
    case 28 => ParseHeaderSoundOfLength28(s, h);
    case 29 => ParseHeaderSoundOfLength29(s, h);
    case 30 => ParseHeaderSoundOfLength30(s, h);
    case 32 => ParseHeaderSoundOfLength32(s, h);
    case _ =>
  }

  /** The strings of length 2 that the decoder accepts, and what they decode to. */
  lemma ParseHeaderOfLength2(s: string, h: HttpHeader)
    requires |s| == 2 && ParseHeader(s) == Some(h)
    ensures (s == "If" && h == If)
      || (s == "TE" && h == TE)
  {
  }

  lemma ParseHeaderSoundOfLength2(s: string, h: HttpHeader)
    requires |s| == 2 && ParseHeader(s) == Some(h)
    ensures HeaderName(h) == s
  {
    ParseHeaderOfLength2(s, h);
    NamesOfLength2(s, h);
  }

  /** Each pair listed for length 2 is a case and its raw value. */
  lemma NamesOfLength2(s: string, h: HttpHeader)
    requires (s == "If" && h == If)
      || (s == "TE" && h == TE)
    ensures HeaderName(h) == s
  {
    match h
    case If => assert s == "If";
    case TE => assert s == "TE";
    case _ =>
  }

  /** The strings of length 3 that the decoder accepts, and what they decode to. */
  lemma ParseHeaderOfLength3(s: string, h: HttpHeader)
    requires |s| == 3 && ParseHeader(s) == Some(h)
    ensures (s == "Age" && h == Age)
      || (s == "DAV" && h == DAV)
      || (s == "Via" && h == Via)
  {
  }

  lemma ParseHeaderSoundOfLength3(s: string, h: HttpHeader)
    requires |s| == 3 && ParseHeader(s) == Some(h)
    ensures HeaderName(h) == s
  {
    ParseHeaderOfLength3(s, h);
    NamesOfLength3(s, h);
  }

  /** Each pair listed for length 3 is a case and its raw value. */
  lemma NamesOfLength3(s: string, h: HttpHeader)
    requires (s == "Age" && h == Age)
      || (s == "DAV" && h == DAV)
      || (s == "Via" && h == Via)
    ensures HeaderName(h) == s
  {
    match h
    case Age => assert s == "Age";
    case DAV => assert s == "DAV";
    case Via => assert s == "Via";
    case _ =>
  }

  /** The strings of length 4 that the decoder accepts, and what they decode to. */
  lemma ParseHeaderOfLength4(s: string, h: HttpHeader)
    requires |s| == 4 && ParseHeader(s) == Some(h)
    ensures (s == "ALPN" && h == ALPN)
      || (s == "DASL" && h == DASL)
      || (s == "Date" && h == Date)
      || (s == "ETag" && h == ETag)
      || (s == "From" && h == From)
      || (s == "Host" && h == Host)
      || (s == "Link" && h == Link)
      || (s == "SLUG" && h == SLUG)
      || (s == "Vary" && h == Vary)
  {
  }

  lemma ParseHeaderSoundOfLength4(s: string, h: HttpHeader)
    requires |s| == 4 && ParseHeader(s) == Some(h)
    ensures HeaderName(h) == s
  {
    ParseHeaderOfLength4(s, h);
    NamesOfLength4(s, h);
  }

  /** Each pair listed for length 4 is a case and its raw value. */
  lemma NamesOfLength4(s: string, h: HttpHeader)
    requires (s == "ALPN" && h == ALPN)
      || (s == "DASL" && h == DASL)
      || (s == "Date" && h == Date)
      || (s == "ETag" && h == ETag)
      || (s == "From" && h == From)
      || (s == "Host" && h == Host)
      || (s == "Link" && h == Link)
      || (s == "SLUG" && h == SLUG)
      || (s == "Vary" && h == Vary)
    ensures HeaderName(h) == s
  {
    match h
    case ALPN => assert s == "ALPN";
    case DASL => assert s == "DASL";
    case Date => assert s == "Date";
    case ETag => assert s == "ETag";
    case From => assert s == "From";
    case Host => assert s == "Host";
    case Link => assert s == "Link";
    case SLUG => assert s == "SLUG";
    case Vary => assert s == "Vary";
    case _ =>
  }

  /** The strings of length 5 that the decoder accepts, and what they decode to. */
  lemma ParseHeaderOfLength5(s: string, h: HttpHeader)
    requires |s| == 5 && ParseHeader(s) == Some(h)
    ensures (s == "Allow" && h == Allow)
      || (s == "Depth" && h == Depth)
      || (s == "Range" && h == Range)
  {
  }

  lemma ParseHeaderSoundOfLength5(s: string, h: HttpHeader)
    requires |s| == 5 && ParseHeader(s) == Some(h)
    ensures HeaderName(h) == s
  {
    ParseHeaderOfLength5(s, h);
    NamesOfLength5(s, h);
  }

  /** Each pair listed for length 5 is a case and its raw value. */
  lemma NamesOfLength5(s: string, h: HttpHeader)
    requires (s == "Allow" && h == Allow)
      || (s == "Depth" && h == Depth)
      || (s == "Range" && h == Range)
    ensures HeaderName(h) == s
  {
    match h
    case Allow => assert s == "Allow";
    case Depth => assert s == "Depth";
    case Range => assert s == "Range";
    case _ =>
  }

  /** The strings of length 6 that the decoder accepts, and what they decode to. */
  lemma ParseHeaderOfLength6(s: string, h: HttpHeader)
    requires |s| == 6 && ParseHeader(s) == Some(h)
    ensures (s == "Accept" && h == Accept)
      || (s == "Cookie" && h == Cookie)
      || (s == "Expect" && h == Expect)
      || (s == "Origin" && h == Origin)
      || (s == "Pragma" && h == Pragma)
      || (s == "Prefer" && h == Prefer)
      || (s == "Server" && h == Server)
  {
  }

  lemma ParseHeaderSoundOfLength6(s: string, h: HttpHeader)
    requires |s| == 6 && ParseHeader(s) == Some(h)
    ensures HeaderName(h) == s
  {
    ParseHeaderOfLength6(s, h);
    NamesOfLength6(s, h);
  }

  /** Each pair listed for length 6 is a case and its raw value. */
  lemma NamesOfLength6(s: string, h: HttpHeader)
    requires (s == "Accept" && h == Accept)
      || (s == "Cookie" && h == Cookie)
      || (s == "Expect" && h == Expect)
      || (s == "Origin" && h == Origin)
      || (s == "Pragma" && h == Pragma)
      || (s == "Prefer" && h == Prefer)
      || (s == "Server" && h == Server)
    ensures HeaderName(h) == s
  {
    match h
    case Accept => assert s == "Accept";
    case Cookie => assert s == "Cookie";
    case Expect => assert s == "Expect";
    case Origin => assert s == "Origin";
    case Pragma => assert s == "Pragma";
    case Prefer => assert s == "Prefer";
    case Server => assert s == "Server";
    case _ =>
  }

  /** The strings of length 7 that the decoder accepts, and what they decode to. */
  lemma ParseHeaderOfLength7(s: string, h: HttpHeader)
    requires |s| == 7 && ParseHeader(s) == Some(h)
    ensures (s == "Expires" && h == Expires)
      || (s == "Referer" && h == Referrer)
      || (s == "Timeout" && h == Timeout)
      || (s == "Trailer" && h == Trailer)
      || (s == "Upgrade" && h == Upgrade)
      || (s == "Warning" && h == Warning)
  {
  }

  lemma ParseHeaderSoundOfLength7(s: string, h: HttpHeader)
    requires |s| == 7 && ParseHeader(s) == Some(h)
    ensures HeaderName(h) == s
  {
    ParseHeaderOfLength7(s, h);
    NamesOfLength7(s, h);
  }

  /** Each pair listed for length 7 is a case and its raw value. */
  lemma NamesOfLength7(s: string, h: HttpHeader)
    requires (s == "Expires" && h == Expires)
      || (s == "Referer" && h == Referrer)
      || (s == "Timeout" && h == Timeout)
      || (s == "Trailer" && h == Trailer)
      || (s == "Upgrade" && h == Upgrade)
      || (s == "Warning" && h == Warning)
    ensures HeaderName(h) == s
  {
    match h
    case Expires => assert s == "Expires";
    case Referrer => assert s == "Referer";
    case Timeout => assert s == "Timeout";
    case Trailer => assert s == "Trailer";
    case Upgrade => assert s == "Upgrade";
    case Warning => assert s == "Warning";
    case _ =>
  }

  /** The strings of length 8 that the decoder accepts, and what they decode to. */
  lemma ParseHeaderOfLength8(s: string, h: HttpHeader)
    requires |s| == 8 && ParseHeader(s) == Some(h)
    ensures (s == "If-Match" && h == IfMatch)
      || (s == "If-Range" && h == IfRange)
      || (s == "Location" && h == Location)
      || (s == "Position" && h == Position)
  {
  }

  lemma ParseHeaderSoundOfLength8(s: string, h: HttpHeader)
    requires |s| == 8 && ParseHeader(s) == Some(h)
    ensures HeaderName(h) == s
  {
    ParseHeaderOfLength8(s, h);
    NamesOfLength8(s, h);
  }

  /** Each pair listed for length 8 is a case and its raw value. */
  lemma NamesOfLength8(s: string, h: HttpHeader)
    requires (s == "If-Match" && h == IfMatch)
      || (s == "If-Range" && h == IfRange)
      || (s == "Location" && h == Location)
      || (s == "Position" && h == Position)
    ensures HeaderName(h) == s
  {
    match h
    case IfMatch => assert s == "If-Match";
    case IfRange => assert s == "If-Range";
    case Location => assert s == "Location";
    case Position => assert s == "Position";
    case _ =>
  }

  /** The strings of length 9 that the decoder accepts, and what they decode to. */
  lemma ParseHeaderOfLength9(s: string, h: HttpHeader)
    requires |s| == 9 && ParseHeader(s) == Some(h)
    ensures (s == "Forwarded" && h == Forwarded)
      || (s == "Overwrite" && h == Overwrite)
  {
  }

  lemma ParseHeaderSoundOfLength9(s: string, h: HttpHeader)
    requires |s| == 9 && ParseHeader(s) == Some(h)
    ensures HeaderName(h) == s
  {
    ParseHeaderOfLength9(s, h);
    NamesOfLength9(s, h);
  }

  /** Each pair listed for length 9 is a case and its raw value. */
  lemma NamesOfLength9(s: string, h: HttpHeader)
    requires (s == "Forwarded" && h == Forwarded)
      || (s == "Overwrite" && h == Overwrite)
    ensures HeaderName(h) == s
  {
    match h
    case Forwarded => assert s == "Forwarded";
    case Overwrite => assert s == "Overwrite";
    case _ =>
  }

  /** The strings of length 10 that the decoder accepts, and what they decode to. */
  lemma ParseHeaderOfLength10(s: string, h: HttpHeader)
    requires |s| == 10 && ParseHeader(s) == Some(h)
    ensures (s == "Connection" && h == Connection)
      || (s == "Lock-Token" && h == LockToken)
      || (s == "Set-Cookie" && h == SetCookie)
      || (s == "User-Agent" && h == UserAgent)
  {
  }

  lemma ParseHeaderSoundOfLength10(s: string, h: HttpHeader)
    requires |s| == 10 && ParseHeader(s) == Some(h)
    ensures HeaderName(h) == s
  {
    ParseHeaderOfLength10(s, h);
    NamesOfLength10(s, h);
  }

  /** Each pair listed for length 10 is a case and its raw value. */
  lemma NamesOfLength10(s: string, h: HttpHeader)
    requires (s == "Connection" && h == Connection)
      || (s == "Lock-Token" && h == LockToken)
      || (s == "Set-Cookie" && h == SetCookie)
      || (s == "User-Agent" && h == UserAgent)
    ensures HeaderName(h) == s
  {
    match h
    case Connection => assert s == "Connection";
    case LockToken => assert s == "Lock-Token";
    case SetCookie => assert s == "Set-Cookie";
    case UserAgent => assert s == "User-Agent";
    case _ =>
  }

  /** The strings of length 11 that the decoder accepts, and what they decode to. */
  lemma ParseHeaderOfLength11(s: string, h: HttpHeader)
    requires |s| == 11 && ParseHeader(s) == Some(h)
    ensures (s == "Destination" && h == Destination)
      || (s == "Retry-After" && h == RetryAfter)
  {
  }

  lemma ParseHeaderSoundOfLength11(s: string, h: HttpHeader)
    requires |s| == 11 && ParseHeader(s) == Some(h)
    ensures HeaderName(h) == s
  {
    ParseHeaderOfLength11(s, h);
    NamesOfLength11(s, h);
  }

  /** Each pair listed for length 11 is a case and its raw value. */
  lemma NamesOfLength11(s: string, h: HttpHeader)
    requires (s == "Destination" && h == Destination)
      || (s == "Retry-After" && h == RetryAfter)
    ensures HeaderName(h) == s
  {
    match h
    case Destination => assert s == "Destination";
    case RetryAfter => assert s == "Retry-After";
    case _ =>
  }

  /** The strings of length 12 that the decoder accepts, and what they decode to. */
  lemma ParseHeaderOfLength12(s: string, h: HttpHeader)
    requires |s| == 12 && ParseHeader(s) == Some(h)
    ensures (s == "Content-Type" && h == ContentType)
      || (s == "Max-Forwards" && h == MaxForwards)
      || (s == "MIME-Version" && h == MIMEVersion)
      || (s == "Schedule-Tag" && h == ScheduleTag)
      || (s == "X-Request-ID" && h == XRequestId)
  {
  }

  lemma ParseHeaderSoundOfLength12(s: string, h: HttpHeader)
    requires |s| == 12 && ParseHeader(s) == Some(h)
    ensures HeaderName(h) == s
  {
    ParseHeaderOfLength12(s, h);
    NamesOfLength12(s, h);
  }

  /** Each pair listed for length 12 is a case and its raw value. */
  lemma NamesOfLength12(s: string, h: HttpHeader)
    requires (s == "Content-Type" && h == ContentType)
      || (s == "Max-Forwards" && h == MaxForwards)
      || (s == "MIME-Version" && h == MIMEVersion)
      || (s == "Schedule-Tag" && h == ScheduleTag)
      || (s == "X-Request-ID" && h == XRequestId)
    ensures HeaderName(h) == s
  {
    match h
    case ContentType => assert s == "Content-Type";
    case MaxForwards => assert s == "Max-Forwards";
    case MIMEVersion => assert s == "MIME-Version";
    case ScheduleTag => assert s == "Schedule-Tag";
    case XRequestId => assert s == "X-Request-ID";
    case _ =>
  }

  /** The strings of length 13 that the decoder accepts, and what they decode to. */
  lemma ParseHeaderOfLength13(s: string, h: HttpHeader)
    requires |s| == 13 && ParseHeader(s) == Some(h)
    ensures (s == "Accept-Ranges" && h == AcceptRanges)
      || (s == "Authorization" && h == Authorization)
      || (s == "Cache-Control" && h == CacheControl)
      || (s == "Content-Range" && h == ContentRange)
      || (s == "If-None-Match" && h == IfNoneMatch)
      || (s == "Last-Modified" && h == LastModified)
      || (s == "Ordering-Type" && h == OrderingType)
      || (s == "X-Total-Count" && h == XTotalCount)
  {
  }

  lemma ParseHeaderSoundOfLength13(s: string, h: HttpHeader)
    requires |s| == 13 && ParseHeader(s) == Some(h)
    ensures HeaderName(h) == s
  {
    ParseHeaderOfLength13(s, h);
    NamesOfLength13(s, h);
  }

  /** Each pair listed for length 13 is a case and its raw value. */
  lemma NamesOfLength13(s: string, h: HttpHeader)
    requires (s == "Accept-Ranges" && h == AcceptRanges)
      || (s == "Authorization" && h == Authorization)
      || (s == "Cache-Control" && h == CacheControl)
      || (s == "Content-Range" && h == ContentRange)
      || (s == "If-None-Match" && h == IfNoneMatch)
      || (s == "Last-Modified" && h == LastModified)
      || (s == "Ordering-Type" && h == OrderingType)
      || (s == "X-Total-Count" && h == XTotalCount)
    ensures HeaderName(h) == s
  {
    match h
    case AcceptRanges => assert s == "Accept-Ranges";
    case Authorization => assert s == "Authorization";
    case CacheControl => assert s == "Cache-Control";
    case ContentRange => assert s == "Content-Range";
    case IfNoneMatch => assert s == "If-None-Match";
    case LastModified => assert s == "Last-Modified";
    case OrderingType => assert s == "Ordering-Type";
    case XTotalCount => assert s == "X-Total-Count";
    case _ =>
  }

  /** The strings of length 14 that the decoder accepts, and what they decode to. */
  lemma ParseHeaderOfLength14(s: string, h: HttpHeader)
    requires |s| == 14 && ParseHeader(s) == Some(h)
    ensures (s == "Accept-Charset" && h == AcceptCharset)
      || (s == "Content-Length" && h == ContentLength)
      || (s == "HTTP2-Settings" && h == HTTP2Settings)
      || (s == "Schedule-Reply" && h == ScheduleReply)
  {
  }

  lemma ParseHeaderSoundOfLength14(s: string, h: HttpHeader)
    requires |s| == 14 && ParseHeader(s) == Some(h)
    ensures HeaderName(h) == s
  {
    ParseHeaderOfLength14(s, h);
    NamesOfLength14(s, h);
  }

  /** Each pair listed for length 14 is a case and its raw value. */
  lemma NamesOfLength14(s: string, h: HttpHeader)
    requires (s == "Accept-Charset" && h == AcceptCharset)
      || (s == "Content-Length" && h == ContentLength)
      || (s == "HTTP2-Settings" && h == HTTP2Settings)
      || (s == "Schedule-Reply" && h == ScheduleReply)
    ensures HeaderName(h) == s
  {
    match h
    case AcceptCharset => assert s == "Accept-Charset";
    case ContentLength => assert s == "Content-Length";
    case HTTP2Settings => assert s == "HTTP2-Settings";
    case ScheduleReply => assert s == "Schedule-Reply";
    case _ =>
  }

  /** The strings of length 15 that the decoder accepts, and what they decode to. */
  lemma ParseHeaderOfLength15(s: string, h: HttpHeader)
    requires |s| == 15 && ParseHeader(s) == Some(h)
    ensures (s == "Accept-Encoding" && h == AcceptEncoding)
      || (s == "Accept-Language" && h == AcceptLanguage)
      || (s == "Public-Key-Pins" && h == PublicKeyPins)
      || (s == "X-Forwarded-For" && h == XForwardedFor)
  {
  }

  lemma ParseHeaderSoundOfLength15(s: string, h: HttpHeader)
    requires |s| == 15 && ParseHeader(s) == Some(h)
    ensures HeaderName(h) == s
  {
    ParseHeaderOfLength15(s, h);
    NamesOfLength15(s, h);
  }

  /** Each pair listed for length 15 is a case and its raw value. */
  lemma NamesOfLength15(s: string, h: HttpHeader)
    requires (s == "Accept-Encoding" && h == AcceptEncoding)
      || (s == "Accept-Language" && h == AcceptLanguage)
      || (s == "Public-Key-Pins" && h == PublicKeyPins)
      || (s == "X-Forwarded-For" && h == XForwardedFor)
    ensures HeaderName(h) == s
  {
    match h
    case AcceptEncoding => assert s == "Accept-Encoding";
    case AcceptLanguage => assert s == "Accept-Language";
    case PublicKeyPins => assert s == "Public-Key-Pins";
    case XForwardedFor => assert s == "X-Forwarded-For";
    case _ =>
  }

  /** The strings of length 16 that the decoder accepts, and what they decode to. */
  lemma ParseHeaderOfLength16(s: string, h: HttpHeader)
    requires |s| == 16 && ParseHeader(s) == Some(h)
    ensures (s == "Content-Encoding" && h == ContentEncoding)
      || (s == "Content-Language" && h == ContentLanguage)
      || (s == "Content-Location" && h == ContentLocation)
      || (s == "WWW-Authenticate" && h == WWWAuthenticate)
      || (s == "X-Forwarded-Host" && h == XForwardedHost)
      || (s == "X-Forwarded-Port" && h == XForwardedPort)
      || (s == "X-Correlation-ID" && h == XCorrelationId)
  {
  }

  lemma ParseHeaderSoundOfLength16(s: string, h: HttpHeader)
    requires |s| == 16 && ParseHeader(s) == Some(h)
    ensures HeaderName(h) == s
  {
    ParseHeaderOfLength16(s, h);
    NamesOfLength16(s, h);
  }

  /** Each pair listed for length 16 is a case and its raw value. */
  lemma NamesOfLength16(s: string, h: HttpHeader)
    requires (s == "Content-Encoding" && h == ContentEncoding)
      || (s == "Content-Language" && h == ContentLanguage)
      || (s == "Content-Location" && h == ContentLocation)
      || (s == "WWW-Authenticate" && h == WWWAuthenticate)
      || (s == "X-Forwarded-Host" && h == XForwardedHost)
      || (s == "X-Forwarded-Port" && h == XForwardedPort)
      || (s == "X-Correlation-ID" && h == XCorrelationId)
    ensures HeaderName(h) == s
  {
    match h
    case ContentEncoding => assert s == "Content-Encoding";
    case ContentLanguage => assert s == "Content-Language";
    case ContentLocation => assert s == "Content-Location";
    case WWWAuthenticate => assert s == "WWW-Authenticate";
    case XForwardedHost => assert s == "X-Forwarded-Host";
    case XForwardedPort => assert s == "X-Forwarded-Port";
    case XCorrelationId => assert s == "X-Correlation-ID";
    case _ =>
  }

  /** The strings of length 17 that the decoder accepts, and what they decode to. */
  lemma ParseHeaderOfLength17(s: string, h: HttpHeader)
    requires |s| == 17 && ParseHeader(s) == Some(h)
    ensures (s == "If-Modified-Since" && h == IfModifiedSince)
      || (s == "Sec-WebSocket-Key" && h == SecWebSocketKey)
      || (s == "Transfer-Encoding" && h == TransferEncoding)
      || (s == "X-Forwarded-Proto" && h == XForwardedProto)
  {
  }

  lemma ParseHeaderSoundOfLength17(s: string, h: HttpHeader)
    requires |s| == 17 && ParseHeader(s) == Some(h)
    ensures HeaderName(h) == s
  {
    ParseHeaderOfLength17(s, h);
    NamesOfLength17(s, h);
  }

  /** Each pair listed for length 17 is a case and its raw value. */
  lemma NamesOfLength17(s: string, h: HttpHeader)
    requires (s == "If-Modified-Since" && h == IfModifiedSince)
      || (s == "Sec-WebSocket-Key" && h == SecWebSocketKey)
      || (s == "Transfer-Encoding" && h == TransferEncoding)
      || (s == "X-Forwarded-Proto" && h == XForwardedProto)
    ensures HeaderName(h) == s
  {
    match h
    case IfModifiedSince => assert s == "If-Modified-Since";
    case SecWebSocketKey => assert s == "Sec-WebSocket-Key";
    case TransferEncoding => assert s == "Transfer-Encoding";
    case XForwardedProto => assert s == "X-Forwarded-Proto";
    case _ =>
  }

  /** The strings of length 18 that the decoder accepts, and what they decode to. */
  lemma ParseHeaderOfLength18(s: string, h: HttpHeader)
    requires |s| == 18 && ParseHeader(s) == Some(h)
    ensures (s == "Preference-Applied" && h == PreferenceApplied)
      || (s == "Proxy-Authenticate" && h == ProxyAuthenticate)
      || (s == "X-Forwarded-Server" && h == XForwardedServer)
  {
  }

  lemma ParseHeaderSoundOfLength18(s: string, h: HttpHeader)
    requires |s| == 18 && ParseHeader(s) == Some(h)
    ensures HeaderName(h) == s
  {
    ParseHeaderOfLength18(s, h);
    NamesOfLength18(s, h);
  }

  /** Each pair listed for length 18 is a case and its raw value. */
  lemma NamesOfLength18(s: string, h: HttpHeader)
    requires (s == "Preference-Applied" && h == PreferenceApplied)
      || (s == "Proxy-Authenticate" && h == ProxyAuthenticate)
      || (s == "X-Forwarded-Server" && h == XForwardedServer)
    ensures HeaderName(h) == s
  {
    match h
    case PreferenceApplied => assert s == "Preference-Applied";
    case ProxyAuthenticate => assert s == "Proxy-Authenticate";
    case XForwardedServer => assert s == "X-Forwarded-Server";
    case _ =>
  }

  /** The strings of length 19 that the decoder accepts, and what they decode to. */
  lemma ParseHeaderOfLength19(s: string, h: HttpHeader)
    requires |s| == 19 && ParseHeader(s) == Some(h)
    ensures (s == "Authentication-Info" && h == AuthenticationInfo)
      || (s == "Content-Disposition" && h == ContentDisposition)
      || (s == "If-Unmodified-Since" && h == IfUnmodifiedSince)
      || (s == "Proxy-Authorization" && h == ProxyAuthorization)
  {
  }

  lemma ParseHeaderSoundOfLength19(s: string, h: HttpHeader)
    requires |s| == 19 && ParseHeader(s) == Some(h)
    ensures HeaderName(h) == s
  {
    ParseHeaderOfLength19(s, h);
    NamesOfLength19(s, h);
  }

  /** Each pair listed for length 19 is a case and its raw value. */
  lemma NamesOfLength19(s: string, h: HttpHeader)
    requires (s == "Authentication-Info" && h == AuthenticationInfo)
      || (s == "Content-Disposition" && h == ContentDisposition)
      || (s == "If-Unmodified-Since" && h == IfUnmodifiedSince)
      || (s == "Proxy-Authorization" && h == ProxyAuthorization)
    ensures HeaderName(h) == s
  {
    match h
    case AuthenticationInfo => assert s == "Authentication-Info";
    case ContentDisposition => assert s == "Content-Disposition";
    case IfUnmodifiedSince => assert s == "If-Unmodified-Since";
    case ProxyAuthorization => assert s == "Proxy-Authorization";
    case _ =>
  }

  /** The strings of length 20 that the decoder accepts, and what they decode to. */
  lemma ParseHeaderOfLength20(s: string, h: HttpHeader)
    requires |s| == 20 && ParseHeader(s) == Some(h)
    ensures (s == "Sec-WebSocket-Accept" && h == SecWebSocketAccept)
  {
  }

  lemma ParseHeaderSoundOfLength20(s: string, h: HttpHeader)
    requires |s| == 20 && ParseHeader(s) == Some(h)
    ensures HeaderName(h) == s
  {
    ParseHeaderOfLength20(s, h);
    NamesOfLength20(s, h);
  }

  /** Each pair listed for length 20 is a case and its raw value. */
  lemma NamesOfLength20(s: string, h: HttpHeader)
    requires (s == "Sec-WebSocket-Accept" && h == SecWebSocketAccept)
    ensures HeaderName(h) == s
  {
    match h
    case SecWebSocketAccept => assert s == "Sec-WebSocket-Accept";
    case _ =>
  }

  /** The strings of length 21 that the decoder accepts, and what they decode to. */
  lemma ParseHeaderOfLength21(s: string, h: HttpHeader)
    requires |s| == 21 && ParseHeader(s) == Some(h)
    ensures (s == "If-Schedule-Tag-Match" && h == IfScheduleTagMatch)
      || (s == "Sec-WebSocket-Version" && h == SecWebSocketVersion)
  {
  }

  lemma ParseHeaderSoundOfLength21(s: string, h: HttpHeader)
    requires |s| == 21 && ParseHeader(s) == Some(h)
    ensures HeaderName(h) == s
  {
    ParseHeaderOfLength21(s, h);
    NamesOfLength21(s, h);
  }

  /** Each pair listed for length 21 is a case and its raw value. */
  lemma NamesOfLength21(s: string, h: HttpHeader)
    requires (s == "If-Schedule-Tag-Match" && h == IfScheduleTagMatch)
      || (s == "Sec-WebSocket-Version" && h == SecWebSocketVersion)
    ensures HeaderName(h) == s
  {
    match h
    case IfScheduleTagMatch => assert s == "If-Schedule-Tag-Match";
    case SecWebSocketVersion => assert s == "Sec-WebSocket-Version";
    case _ =>
  }

  /** The strings of length 22 that the decoder accepts, and what they decode to. */
  lemma ParseHeaderOfLength22(s: string, h: HttpHeader)
    requires |s| == 22 && ParseHeader(s) == Some(h)
    ensures (s == "Sec-WebSocket-Protocol" && h == SecWebSocketProtocol)
      || (s == "Access-Control-Max-Age" && h == AccessControlMaxAge)
      || (s == "X-Http-Method-Override" && h == XHttpMethodOverride)
  {
  }

  lemma ParseHeaderSoundOfLength22(s: string, h: HttpHeader)
    requires |s| == 22 && ParseHeader(s) == Some(h)
    ensures HeaderName(h) == s
  {
    ParseHeaderOfLength22(s, h);
    NamesOfLength22(s, h);
  }

  /** Each pair listed for length 22 is a case and its raw value. */
  lemma NamesOfLength22(s: string, h: HttpHeader)
    requires (s == "Sec-WebSocket-Protocol" && h == SecWebSocketProtocol)
      || (s == "Access-Control-Max-Age" && h == AccessControlMaxAge)
      || (s == "X-Http-Method-Override" && h == XHttpMethodOverride)
    ensures HeaderName(h) == s
  {
    match h
    case SecWebSocketProtocol => assert s == "Sec-WebSocket-Protocol";
    case AccessControlMaxAge => assert s == "Access-Control-Max-Age";
    case XHttpMethodOverride => assert s == "X-Http-Method-Override";
    case _ =>
  }

  /** The strings of length 24 that the decoder accepts, and what they decode to. */
  lemma ParseHeaderOfLength24(s: string, h: HttpHeader)
    requires |s| == 24 && ParseHeader(s) == Some(h)
    ensures (s == "Sec-WebSocket-Extensions" && h == SecWebSocketExtensions)
  {
  }

  lemma ParseHeaderSoundOfLength24(s: string, h: HttpHeader)
    requires |s| == 24 && ParseHeader(s) == Some(h)
    ensures HeaderName(h) == s
  {
    ParseHeaderOfLength24(s, h);
    NamesOfLength24(s, h);
  }

  /** Each pair listed for length 24 is a case and its raw value. */
  lemma NamesOfLength24(s: string, h: HttpHeader)
    requires (s == "Sec-WebSocket-Extensions" && h == SecWebSocketExtensions)
    ensures HeaderName(h) == s
  {
    match h
    case SecWebSocketExtensions => assert s == "Sec-WebSocket-Extensions";
    case _ =>
  }

  /** The strings of length 25 that the decoder accepts, and what they decode to. */
  lemma ParseHeaderOfLength25(s: string, h: HttpHeader)
    requires |s| == 25 && ParseHeader(s) == Some(h)
    ensures (s == "Proxy-Authentication-Info" && h == ProxyAuthenticationInfo)
      || (s == "Strict-Transport-Security" && h == StrictTransportSecurity)
  {
  }

  lemma ParseHeaderSoundOfLength25(s: string, h: HttpHeader)
    requires |s| == 25 && ParseHeader(s) == Some(h)
    ensures HeaderName(h) == s
  {
    ParseHeaderOfLength25(s, h);
    NamesOfLength25(s, h);
  }

  /** Each pair listed for length 25 is a case and its raw value. */
  lemma NamesOfLength25(s: string, h: HttpHeader)
    requires (s == "Proxy-Authentication-Info" && h == ProxyAuthenticationInfo)
      || (s == "Strict-Transport-Security" && h == StrictTransportSecurity)
    ensures HeaderName(h) == s
  {
    match h
    case ProxyAuthenticationInfo => assert s == "Proxy-Authentication-Info";
    case StrictTransportSecurity => assert s == "Strict-Transport-Security";
    case _ =>
  }

  /** The strings of length 27 that the decoder accepts, and what they decode to. */
  lemma ParseHeaderOfLength27(s: string, h: HttpHeader)
    requires |s| == 27 && ParseHeader(s) == Some(h)
    ensures (s == "Public-Key-Pins-Report-Only" && h == PublicKeyPinsReportOnly)
      || (s == "Access-Control-Allow-Origin" && h == AccessControlAllowOrigin)
  {
  }

  lemma ParseHeaderSoundOfLength27(s: string, h: HttpHeader)
    requires |s| == 27 && ParseHeader(s) == Some(h)
    ensures HeaderName(h) == s
  {
    ParseHeaderOfLength27(s, h);
    NamesOfLength27(s, h);
  }

  /** Each pair listed for length 27 is a case and its raw value. */
  lemma NamesOfLength27(s: string, h: HttpHeader)
    requires (s == "Public-Key-Pins-Report-Only" && h == PublicKeyPinsReportOnly)
      || (s == "Access-Control-Allow-Origin" && h == AccessControlAllowOrigin)
    ensures HeaderName(h) == s
  {
    match h
    case PublicKeyPinsReportOnly => assert s == "Public-Key-Pins-Report-Only";
    case AccessControlAllowOrigin => assert s == "Access-Control-Allow-Origin";
    case _ =>
  }

  /** The strings of length 28 that the decoder accepts, and what they decode to. */
  lemma ParseHeaderOfLength28(s: string, h: HttpHeader)
    requires |s| == 28 && ParseHeader(s) == Some(h)
    ensures (s == "Access-Control-Allow-Methods" && h == AccessControlAllowMethods)
      || (s == "Access-Control-Allow-Headers" && h == AccessControlAllowHeaders)
  {
  }

  lemma ParseHeaderSoundOfLength28(s: string, h: HttpHeader)
    requires |s| == 28 && ParseHeader(s) == Some(h)
    ensures HeaderName(h) == s
  {
    ParseHeaderOfLength28(s, h);
    NamesOfLength28(s, h);
  }

  /** Each pair listed for length 28 is a case and its raw value. */
  lemma NamesOfLength28(s: string, h: HttpHeader)
    requires (s == "Access-Control-Allow-Methods" && h == AccessControlAllowMethods)
      || (s == "Access-Control-Allow-Headers" && h == AccessControlAllowHeaders)
    ensures HeaderName(h) == s
  {
    match h
    case AccessControlAllowMethods => assert s == "Access-Control-Allow-Methods";
    case AccessControlAllowHeaders => assert s == "Access-Control-Allow-Headers";
    case _ =>
  }

  /** The strings of length 29 that the decoder accepts, and what they decode to. */
  lemma ParseHeaderOfLength29(s: string, h: HttpHeader)
    requires |s| == 29 && ParseHeader(s) == Some(h)
    ensures (s == "Access-Control-Request-Method" && h == AccessControlRequestMethod)
      || (s == "Access-Control-Expose-Headers" && h == AccessControlExposeHeaders)
  {
  }

  lemma ParseHeaderSoundOfLength29(s: string, h: HttpHeader)
    requires |s| == 29 && ParseHeader(s) == Some(h)
    ensures HeaderName(h) == s
  {
    ParseHeaderOfLength29(s, h);
    NamesOfLength29(s, h);
  }

  /** Each pair listed for length 29 is a case and its raw value. */
  lemma NamesOfLength29(s: string, h: HttpHeader)
    requires (s == "Access-Control-Request-Method" && h == AccessControlRequestMethod)
      || (s == "Access-Control-Expose-Headers" && h == AccessControlExposeHeaders)
    ensures HeaderName(h) == s
  {
    match h
    case AccessControlRequestMethod => assert s == "Access-Control-Request-Method";
    case AccessControlExposeHeaders => assert s == "Access-Control-Expose-Headers";
    case _ =>
  }

  /** The strings of length 30 that the decoder accepts, and what they decode to. */
  lemma ParseHeaderOfLength30(s: string, h: HttpHeader)
    requires |s| == 30 && ParseHeader(s) == Some(h)
    ensures (s == "Access-Control-Request-Headers" && h == AccessControlRequestHeaders)
  {
  }

  lemma ParseHeaderSoundOfLength30(s: string, h: HttpHeader)
    requires |s| == 30 && ParseHeader(s) == Some(h)
    ensures HeaderName(h) == s
  {
    ParseHeaderOfLength30(s, h);
    NamesOfLength30(s, h);
  }

  /** Each pair listed for length 30 is a case and its raw value. */
  lemma NamesOfLength30(s: string, h: HttpHeader)
    requires (s == "Access-Control-Request-Headers" && h == AccessControlRequestHeaders)
    ensures HeaderName(h) == s
  {
    match h
    case AccessControlRequestHeaders => assert s == "Access-Control-Request-Headers";
    case _ =>
  }

  /** The strings of length 32 that the decoder accepts, and what they decode to. */
  lemma ParseHeaderOfLength32(s: string, h: HttpHeader)
    requires |s| == 32 && ParseHeader(s) == Some(h)
    ensures (s == "Access-Control-Allow-Credentials" && h == AccessControlAllowCredentials)
  {
  }

  lemma ParseHeaderSoundOfLength32(s: string, h: HttpHeader)
    requires |s| == 32 && ParseHeader(s) == Some(h)
    ensures HeaderName(h) == s
  {
    ParseHeaderOfLength32(s, h);
    NamesOfLength32(s, h);
  }

  /** Each pair listed for length 32 is a case and its raw value. */
  lemma NamesOfLength32(s: string, h: HttpHeader)
    requires (s == "Access-Control-Allow-Credentials" && h == AccessControlAllowCredentials)
    ensures HeaderName(h) == s
  {
    match h
    case AccessControlAllowCredentials => assert s == "Access-Control-Allow-Credentials";
    case _ =>
  }

  /** A raw string that is no case's raw value is rejected. */
  lemma ParseHeaderComplete(s: string)
    requires ParseHeader(s).None?
    ensures forall h :: HeaderName(h) != s
  {
    forall h
      ensures HeaderName(h) != s
    {
      HeaderRoundTrip(h);
    }
  }

  /** `rawValue` is injective. */
  lemma HeaderNameInjective(h1: HttpHeader, h2: HttpHeader)
    requires HeaderName(h1) == HeaderName(h2)
    ensures h1 == h2
  {
    HeaderRoundTrip(h1);
    HeaderRoundTrip(h2);
  }

  /** The referrer header keeps the historical spelling of the standard. */
  lemma ReferrerSpelling()
    ensures HeaderName(Referrer) == "Referer"
    ensures ParseHeader("Referrer") == None
  {
  }
}

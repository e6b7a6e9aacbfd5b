/** The Google authorizer of auth/google.go: the ID token that Google returns
    from the OAuth code exchange is a JWS compact serialization (section 7.1 of
    RFC 7515) whose second segment carries the claims in unpadded base64url
    (section 5 of RFC 4648). Its signature is not checked; the user is
    authorized when the email is verified and matches the configured pattern.

    The OAuth exchange, the JSON decoder and the regular-expression engine are
    external: the exchange is an input value, the other two are oracle
    functions passed in. */
module Auth {
  import opened Wrappers
  import opened Strings
  import Base64

  /** The claims of a Google ID token that the gateway reads
      (`email`, `email_verified`). */
  datatype IDToken = IDToken(email: string, emailVerified: bool)

  /** A configured Google authorizer: the OAuth client credentials and the
      email pattern, as read from the configuration. */
  datatype GoogleAuth = GoogleAuth(credentials: string, emailRegex: string)

  /** The errors `Auth` and `decodeJWS` return. */
  datatype Error =
    | Exchange(message: string)   // the OAuth code exchange failed
    | InvalidToken                // fewer than two dot-separated segments
    | CorruptBase64               // the claims segment is not base64url
    | Json(message: string)       // the claims are not the expected JSON
    | Unauthorized                // unverified or non-matching email

  /** The text each error carries. */
  function Message(e: Error): string
  {
    match e
    case Exchange(m) => m
    case InvalidToken => "jws: invalid token received"
    case CorruptBase64 => "illegal base64 data"
    case Json(m) => m
    case Unauthorized => "unauthorized"
  }

  /** The padding step of `base64Decode`: '=' characters are added until the
      length is a multiple of four. */
  function PadBase64(s: string): (p: string)
    ensures |p| % 4 == 0
    ensures |s| <= |p| < |s| + 4
    ensures p[..|s|] == s
    ensures forall i :: |s| <= i < |p| ==> p[i] == '='
  {
    match |s| % 4
    case 1 => s + "==="
    case 2 => s + "=="
    case 3 => s + "="
    case _ => s
  }

  /** `base64Decode`: restore the padding, then decode with the padded
      URL-safe alphabet. No base64 text has a length of one more than a
      multiple of four, so such input is rejected after padding it with "===". */
  function Base64Decode(s: string): (r: Result<seq<Base64.byte>, Base64.DecodeError>)
    ensures |s| % 4 == 1 ==> r.Err?
  {
    var padded := PadBase64(s);
    if |s| % 4 == 1 then
      assert |padded| == |s| + 3;
      Base64.DecodeRejectsOneCharQuantum(padded);
      Base64.Decode(padded)
    else
      Base64.Decode(padded)
  }

  /** Padding is all that separates unpadded from padded encoding, so the
      padded form of an unpadded encoding is the canonical padded encoding. */
  lemma PadRestoresEncoding(b: seq<Base64.byte>)
    ensures PadBase64(Base64.EncodeRaw(b)) == Base64.Encode(b)
  {
    var r, e := Base64.EncodeRaw(b), Base64.Encode(b);
    Base64.EncodeRawIsUnpadded(b);
    Base64.EncodeLength(b);
    SamePadding(r, PadBase64(r), e);
  }

  /** Two padded forms of the same text with the same length are equal. */
  lemma SamePadding(r: string, p: string, e: string)
    requires |p| % 4 == 0 && |r| <= |p| < |r| + 4 && p[..|r|] == r
    requires forall i :: |r| <= i < |p| ==> p[i] == '='
    requires |e| % 4 == 0 && |r| <= |e| < |r| + 4 && e[..|r|] == r
    requires forall i :: |r| <= i < |e| ==> e[i] == '='
    ensures p == e
  {
    assert |p| == |e|;
    forall i | 0 <= i < |p| ensures p[i] == e[i] {
      if i < |r| {
        assert p[i] == p[..|r|][i] && e[i] == e[..|r|][i];
      }
    }
  }

  /** `base64Decode` recovers the bytes of any unpadded base64url text. */
  lemma Base64DecodeRaw(b: seq<Base64.byte>)
    ensures Base64Decode(Base64.EncodeRaw(b)) == Ok(b)
  {
    PadRestoresEncoding(b);
    Base64.DecodeEncode(b);
  }

  /** `decodeJWS`: decode the claims from the second dot-separated segment of
      a JWS payload; the header and the signature segments are not read. */
  function DecodeJWS(payload: string, unmarshal: seq<Base64.byte> -> Result<IDToken, string>): (r: Result<IDToken, Error>)
    ensures r == Err(InvalidToken) <==> '.' !in payload
    ensures '.' !in payload ==> Message(r.error) == "jws: invalid token received"
  {
    var segments := Split(payload, '.');
    if |segments| < 2 then Err(InvalidToken)
    else
      match Base64Decode(segments[1])
      case Err(_) => Err(CorruptBase64)
      case Ok(decoded) =>
        match unmarshal(decoded)
        case Err(m) => Err(Json(m))
        case Ok(token) => Ok(token)
  }

  /** Whatever the header and the signature, a compact JWS whose second
      segment is the unpadded encoding of `claims` decodes to what the JSON
      decoder makes of `claims`. */
  lemma DecodeJWSReadsClaims(header: string, claims: seq<Base64.byte>, rest: string,
                             unmarshal: seq<Base64.byte> -> Result<IDToken, string>)
    requires '.' !in header
    requires rest == [] || rest[0] == '.'
    ensures DecodeJWS(header + "." + Base64.EncodeRaw(claims) + rest, unmarshal) ==
      match unmarshal(claims)
      case Err(m) => Err(Json(m))
      case Ok(token) => Ok(token)
  {
    DecodeJWSSegment(header, Base64.EncodeRaw(claims), rest, unmarshal);
    Base64DecodeRaw(claims);
  }

  /** Only the second segment is read: for a dot-free header and claims
      segment, the result is that segment's base64 decoding handed to the
      JSON decoder, and a corrupt segment fails whatever the other two. */
  lemma DecodeJWSSegment(header: string, body: string, rest: string,
                         unmarshal: seq<Base64.byte> -> Result<IDToken, string>)
    requires '.' !in header && '.' !in body
    requires rest == [] || rest[0] == '.'
    ensures DecodeJWS(header + "." + body + rest, unmarshal) ==
      match Base64Decode(body)
      case Err(_) => Err(CorruptBase64)
      case Ok(claims) =>
        match unmarshal(claims)
        case Err(m) => Err(Json(m))
        case Ok(token) => Ok(token)
  {
    SecondSegment(header, body, rest);
  }

  /** The second '.'-separated segment of `header.body<rest>`, when neither
      `header` nor `body` holds a dot and `rest` is empty or starts one. */
  lemma SecondSegment(header: string, body: string, rest: string)
    requires '.' !in header && '.' !in body
    requires rest == [] || rest[0] == '.'
    ensures |Split(header + "." + body + rest, '.')| >= 2
    ensures Split(header + "." + body + rest, '.')[1] == body
  {
    var tail := body + rest;
    assert header + "." + body + rest == header + ['.'] + tail;
    SplitAtFirst(header, '.', tail);
    FirstSegment(body, rest);
  }

  /** The first segment of `body<rest>` is `body`. */
  lemma FirstSegment(body: string, rest: string)
    requires '.' !in body
    requires rest == [] || rest[0] == '.'
    ensures Split(body + rest, '.')[0] == body
  {
    if rest == [] {
      assert body + rest == body;
      SplitWithoutSeparator(body, '.');
    } else {
      assert body + rest == body + ['.'] + rest[1..];
      SplitAtFirst(body, '.', rest[1..]);
    }
  }

  /** `GoogleAuth.Auth`: `exchange` is the outcome of the OAuth code exchange,
      the raw `id_token` it returned or the exchange's error message;
      `matches(pattern, s)` is the regular-expression test. */
  function Authorize(ga: GoogleAuth, exchange: Result<string, string>,
                     unmarshal: seq<Base64.byte> -> Result<IDToken, string>,
                     matches: (string, string) -> bool): (r: Result<string, Error>)
    ensures exchange.Err? ==> r == Err(Exchange(exchange.error)) && Message(r.error) == exchange.error
    // a decode failure is returned as it is
    ensures exchange.Ok? && DecodeJWS(exchange.value, unmarshal).Err? ==>
      r == Err(DecodeJWS(exchange.value, unmarshal).error)
    // a verified, matching email is authorized under that email
    ensures (exchange.Ok? && DecodeJWS(exchange.value, unmarshal).Ok? &&
             DecodeJWS(exchange.value, unmarshal).value.emailVerified &&
             matches(ga.emailRegex, DecodeJWS(exchange.value, unmarshal).value.email)) ==>
      r == Ok(DecodeJWS(exchange.value, unmarshal).value.email)
    ensures r.Ok? ==> exchange.Ok? && DecodeJWS(exchange.value, unmarshal) == Ok(IDToken(r.value, true))
    ensures r.Ok? ==> matches(ga.emailRegex, r.value)
    ensures r == Err(Unauthorized) <==>
      exchange.Ok? && DecodeJWS(exchange.value, unmarshal).Ok? &&
      var token := DecodeJWS(exchange.value, unmarshal).value;
      !(token.emailVerified && matches(ga.emailRegex, token.email))
    ensures r == Err(Unauthorized) ==> Message(r.error) == "unauthorized"
  {
    match exchange
    case Err(m) => Err(Exchange(m))
    case Ok(idToken) =>
      match DecodeJWS(idToken, unmarshal)
      case Err(e) => Err(e)
      case Ok(token) =>
        if token.emailVerified && matches(ga.emailRegex, token.email) then Ok(token.email)
        else Err(Unauthorized)
  }

  /** The whole login decision for a well-formed ID token: the user is
      authorized, under their email, exactly when the claims decode, the email
      is verified and it matches the pattern. */
  lemma AuthorizeSignedToken(ga: GoogleAuth, header: string, claims: seq<Base64.byte>, rest: string,
                             unmarshal: seq<Base64.byte> -> Result<IDToken, string>,
                             matches: (string, string) -> bool)
    requires '.' !in header
    requires rest == [] || rest[0] == '.'
    ensures var r := Authorize(ga, Ok(header + "." + Base64.EncodeRaw(claims) + rest), unmarshal, matches);
      r.Ok? <==> (unmarshal(claims).Ok? && unmarshal(claims).value.emailVerified &&
                  matches(ga.emailRegex, unmarshal(claims).value.email))
    ensures var r := Authorize(ga, Ok(header + "." + Base64.EncodeRaw(claims) + rest), unmarshal, matches);
      r.Ok? ==> r.value == unmarshal(claims).value.email
  {
    DecodeJWSReadsClaims(header, claims, rest, unmarshal);
  }
}

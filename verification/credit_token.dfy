/**
  The server's session token: `base64url(header).base64url(payload).signature`
  where the signature is the base64url of an HMAC-SHA256 over the first two
  segments joined by `.` — the shape of the JWS Compact Serialization
  (section 7.1 of RFC 7515) with the "HS256" algorithm of section 3.2 of
  RFC 7518. The claims are the server's own session record, and its
  `expiresAt` is in milliseconds.

  The keyed MAC and the JSON encoder and parser are not defined here; they are
  passed in as a `Primitives` record. Base64url is the concrete encoder of
  module `Base64Url`. The clock is a parameter.
 */
module CreditToken {
  import opened Wrappers
  import opened Text
  import opened Base64Url
  import opened Types

  /** `UserSession`: the server-side account record that is also the token payload. */
  datatype UserSession = UserSession(
    userId: string,
    credits: int,
    plan: Plan,
    totalGenerations: int,
    createdAt: int,
    expiresAt: int)

  /** What the scheme consumes without defining it:
      - `hmac`: HMAC-SHA256 keyed with the server secret over the UTF-8 of a text;
      - `serialize`: the UTF-8 bytes of `JSON.stringify` of a session;
      - `parse`: `JSON.parse` of UTF-8 bytes, `None` when it throws. */
  datatype Primitives = Primitives(
    hmac: string -> seq<Byte>,
    serialize: UserSession -> seq<Byte>,
    parse: seq<Byte> -> Option<UserSession>)

  /** The parser reads back what the serializer wrote for this session. */
  predicate JsonRoundTrips(prims: Primitives, p: UserSession) {
    prims.parse(prims.serialize(p)) == Some(p)
  }

  /** One byte per character: for a text made of ASCII characters only, as
      the header is, this is its UTF-8 encoding. */
  function AsciiBytes(s: string): (bs: seq<Byte>)
    ensures |bs| == |s|
  {
    seq(|s|, i requires 0 <= i < |s| => (s[i] as int) % 256)
  }

  /** `JSON.stringify({ alg: 'HS256', typ: 'JWT' })`. */
  const HeaderJson: string := "{\"alg\":\"HS256\",\"typ\":\"JWT\"}"

  function EncodedHeader(): string {
    Encode(AsciiBytes(HeaderJson))
  }

  /** The signature segment expected for a header and a body segment. */
  function Sign(prims: Primitives, header: string, body: string): (sig: string)
    ensures '.' !in sig
  {
    EncodeHasNoDot(prims.hmac(header + "." + body));
    Encode(prims.hmac(header + "." + body))
  }

  /** Three dot-free segments joined by dots split back into those segments. */
  lemma ThreeSegments(a: string, b: string, c: string)
    requires '.' !in a && '.' !in b && '.' !in c
    ensures Split(a + "." + b + "." + c, '.') == [a, b, c]
    ensures Count(a + "." + b + "." + c, '.') == 2
  {
    var t := a + "." + b + "." + c;
    assert [a, b, c][1..] == [b, c];
    assert [b, c][1..] == [c];
    assert Join([c], '.') == c;
    assert Join([b, c], '.') == b + ['.'] + c;
    assert Join([a, b, c], '.') == a + ['.'] + (b + ['.'] + c);
    assert t == a + ['.'] + (b + ['.'] + c);
    SplitJoin([a, b, c], '.');
    SplitLength(t, '.');
  }

  /** `generateToken(payload)`. */
  function GenerateToken(prims: Primitives, payload: UserSession): (token: string)
    ensures Count(token, '.') == 2
    ensures var body := Encode(prims.serialize(payload));
      Split(token, '.') == [EncodedHeader(), body, Sign(prims, EncodedHeader(), body)]
  {
    var header := EncodedHeader();
    var body := Encode(prims.serialize(payload));
    var sig := Sign(prims, header, body);
    EncodeHasNoDot(AsciiBytes(HeaderJson));
    EncodeHasNoDot(prims.serialize(payload));
    ThreeSegments(header, body, sig);
    header + "." + body + "." + sig
  }

  /** `payload.expiresAt && now > payload.expiresAt`: zero means "never". */
  predicate IsExpired(p: UserSession, now: int) {
    p.expiresAt != 0 && now > p.expiresAt
  }

  /** `verifyToken(token)` at clock reading `now`. Every failure — a wrong
      number of segments, a signature mismatch, a body that is not base64url
      or not JSON, an expired payload — is `None`, as the `catch` makes it. */
  function VerifyToken(prims: Primitives, token: string, now: int): (r: Option<UserSession>)
    ensures r.Some? ==> Count(token, '.') == 2
    ensures r.Some? ==> var parts := Split(token, '.');
      |parts| == 3 && parts[2] == Sign(prims, parts[0], parts[1])
      && Decode(parts[1]).Some?
      && prims.parse(Decode(parts[1]).value) == r
    ensures r.Some? ==> !IsExpired(r.value, now)
  {
    var parts := Split(token, '.');
    SplitLength(token, '.');
    if |parts| != 3 then None
    else if parts[2] != Sign(prims, parts[0], parts[1]) then None
    else
      match Decode(parts[1])
      case None => None
      case Some(bytes) =>
        match prims.parse(bytes)
        case None => None
        case Some(p) => if IsExpired(p, now) then None else Some(p)
  }

  /** A token the server generated verifies to its payload until it expires,
      and is refused after. */
  lemma VerifyGenerated(prims: Primitives, p: UserSession, now: int)
    requires JsonRoundTrips(prims, p)
    ensures IsExpired(p, now) ==> VerifyToken(prims, GenerateToken(prims, p), now) == None
    ensures !IsExpired(p, now) ==> VerifyToken(prims, GenerateToken(prims, p), now) == Some(p)
  {
    DecodeEncode(prims.serialize(p));
  }

  /** A token is refused whenever its signature segment is not the MAC of the
      first two, whatever those say. */
  lemma ForgedSignatureRejected(prims: Primitives, header: string, body: string, sig: string, now: int)
    requires '.' !in header && '.' !in body && '.' !in sig
    requires sig != Sign(prims, header, body)
    ensures VerifyToken(prims, header + "." + body + "." + sig, now) == None
  {
    ThreeSegments(header, body, sig);
  }

  /** A text without exactly two dots is never a valid token. */
  lemma WrongShapeRejected(prims: Primitives, token: string, now: int)
    requires Count(token, '.') != 2
    ensures VerifyToken(prims, token, now) == None
  {
  }
}

/**
  Signed tokens of payment codes: three base64url parts joined by dots
  (section 3.1 of RFC 7515).
 */
module Jwt {
  import opened Base64

  // ---- splitting ----

  predicate Lacks(s: string, d: char) {
    forall i | 0 <= i < |s| :: s[i] != d
  }

  function JoinWith(parts: seq<string>, d: char): string {
    if parts == [] then []
    else if |parts| == 1 then parts[0]
    else JoinWith(parts[..|parts| - 1], d) + [d] + parts[|parts| - 1]
  }

  /** The parts contain no delimiter, and joined by it they are the text. */
  method Split(s: string, delimiter: char) returns (parts: seq<string>)
    ensures parts != [] && JoinWith(parts, delimiter) == s && forall i | 0 <= i < |parts| :: Lacks(parts[i], delimiter)
  {
    parts := [];
    var cur := "";
    assert JoinWith([cur], delimiter) == s[..0];
    for i := 0 to |s|
      invariant Lacks(cur, delimiter) && forall k | 0 <= k < |parts| :: Lacks(parts[k], delimiter)
      invariant JoinWith(parts + [cur], delimiter) == s[..i]
    {
      assert s[..i + 1] == s[..i] + [s[i]];
      assert (parts + [cur])[..|parts|] == parts;
      if s[i] == delimiter {
        JoinMore(parts + [cur], "", delimiter);
        parts := parts + [cur];
        cur := "";
      } else {
        JoinLonger(parts, cur, s[i], delimiter);
        cur := cur + [s[i]];
      }
    }
    assert s[..|s|] == s;
    parts := parts + [cur];
  }

  lemma JoinMore(parts: seq<string>, last: string, d: char)
    requires parts != []
    ensures JoinWith(parts + [last], d) == JoinWith(parts, d) + [d] + last
  {
    assert (parts + [last])[..|parts|] == parts;
  }

  lemma JoinLonger(parts: seq<string>, cur: string, c: char, d: char)
    ensures JoinWith(parts + [cur + [c]], d) == JoinWith(parts + [cur], d) + [c]
  {
    assert (parts + [cur + [c]])[..|parts|] == parts && (parts + [cur])[..|parts|] == parts;
    if parts != [] {
      assert JoinWith(parts, d) + [d] + (cur + [c]) == JoinWith(parts, d) + [d] + cur + [c];
    }
  }

  /** Only one list of delimiter-free parts joins to a given text. */
  lemma {:induction false} SplitUnique(a: seq<string>, b: seq<string>, d: char)
    requires a != [] && b != [] && JoinWith(a, d) == JoinWith(b, d)
    requires (forall i | 0 <= i < |a| :: Lacks(a[i], d)) && (forall i | 0 <= i < |b| :: Lacks(b[i], d))
    ensures a == b
  {
    var m, n := |a| - 1, |b| - 1;
    if m == 0 && n == 0 {
      assert a == [a[0]] && b == [b[0]];
    } else if m == 0 {
      DelimiterInside(b, d);
    } else if n == 0 {
      DelimiterInside(a, d);
    } else {
      var s := JoinWith(a, d);
      LastPart(JoinWith(a[..m], d), a[m], JoinWith(b[..n], d), b[n], d);
      SplitUnique(a[..m], b[..n], d);
      assert a == a[..m] + [a[m]] && b == b[..n] + [b[n]];
    }
  }

  lemma DelimiterInside(parts: seq<string>, d: char)
    requires |parts| > 1
    ensures !Lacks(JoinWith(parts, d), d)
  {
    var n := |parts| - 1;
    var s := JoinWith(parts, d);
    assert s[|JoinWith(parts[..n], d)|] == d;
  }

  lemma LongerFront(x: string, p: string, y: string, q: string, d: char)
    requires x + [d] + p == y + [d] + q && |x| < |y|
    ensures !Lacks(p, d)
  {
    var s := x + [d] + p;
    assert s[|y|] == d && p[|y| - |x| - 1] == s[|y|];
  }

  lemma LastPart(x: string, p: string, y: string, q: string, d: char)
    requires x + [d] + p == y + [d] + q && Lacks(p, d) && Lacks(q, d)
    ensures x == y && p == q
  {
    if |x| < |y| {
      LongerFront(x, p, y, q, d);
    } else if |y| < |x| {
      LongerFront(y, q, x, p, d);
    } else {
      var s := x + [d] + p;
      assert s[..|x|] == x && s[..|y|] == y && s[|x| + 1..] == p && s[|y| + 1..] == q;
    }
  }

  // ---- the outside ----

  datatype Header = Header(alg: string, typ: string)

  datatype Payload = Payload(sessionId: string, iat: int, exp: int, nonce: string)

  datatype Parsed<T> = NotJson | Object(value: T)

  /**
    The keyed hash and the JSON text of headers and payloads.  A parse result
    `NotJson` stands for any text that is not an object with these fields.
   */
  datatype Outside = Outside(
    hmac: string -> seq<Byte>,
    dumpHeader: Header -> seq<Byte>,
    parseHeader: seq<Byte> -> Parsed<Header>,
    dumpPayload: Payload -> seq<Byte>,
    parsePayload: seq<Byte> -> Parsed<Payload>)

  /** Hashes are not empty, and parsing undoes dumping. */
  ghost predicate Proper(o: Outside) {
    && (forall s :: o.hmac(s) != [])
    && (forall h :: o.dumpHeader(h) != [] && o.parseHeader(o.dumpHeader(h)) == Object(h))
    && (forall p :: o.dumpPayload(p) != [] && o.parsePayload(o.dumpPayload(p)) == Object(p))
  }

  datatype Issued = Refused(error: string) | Token(token: string)

  datatype Verified = Rejected(error: string) | Accepted(payload: Payload)

  function Signature(o: Outside, header: string, payload: string): string {
    UrlEncode(o.hmac(header + "." + payload))
  }

  function TokenOf(o: Outside, algorithm: string, p: Payload): string {
    var header, payload := UrlEncode(o.dumpHeader(Header(algorithm, "JWT"))), UrlEncode(o.dumpPayload(p));
    header + "." + payload + "." + Signature(o, header, payload)
  }

  class JwtService {
    const o: Outside
    const algorithm: string
    const qrTtlSeconds: int
    const clockSkewSeconds: int

    ghost predicate Valid() {
      Proper(o) && qrTtlSeconds > 0
    }

    constructor (o: Outside, algorithm: string, qrTtlSeconds: int, clockSkewSeconds: int)
      requires Proper(o) && qrTtlSeconds > 0
      ensures Valid() && this.o == o && this.algorithm == algorithm
      ensures this.qrTtlSeconds == qrTtlSeconds && this.clockSkewSeconds == clockSkewSeconds
    {
      this.o := o;
      this.algorithm := algorithm;
      this.qrTtlSeconds := qrTtlSeconds;
      this.clockSkewSeconds := clockSkewSeconds;
    }

    method IssueToken(p: Payload) returns (token: string)
      ensures token == TokenOf(o, algorithm, p)
      ensures exists front :: SignedFront(o, token, front, o.dumpPayload(p))
    {
      var headerPart := Base64UrlEncode(o.dumpHeader(Header(algorithm, "JWT")));
      var payloadPart := Base64UrlEncode(o.dumpPayload(p));
      var signingInput := headerPart + "." + payloadPart;
      var signaturePart := Base64UrlEncode(o.hmac(signingInput));
      token := signingInput + "." + signaturePart;
      IssuedIsSigned(o, algorithm, p);
    }

    /** Accepts exactly three parts, a matching header, and the one signature that belongs to the other two parts. */
    method VerifyToken(token: string) returns (ok: bool, payloadJson: seq<Byte>)
      ensures ok ==> Genuine(o, algorithm, token, payloadJson)
      ensures ok ==> exists front :: SignedFront(o, token, front, payloadJson)
      ensures !ok ==> forall j :: !Genuine(o, algorithm, token, j)
    {
      hide UrlDecode, UrlEncode, Lacks, JoinWith, IsTriple;
      var parts := Split(token, '.');
      forall h: string, p: string, s: string | IsTriple(token, h, p, s)
        ensures parts == [h, p, s] && h != "" && p != "" && s != ""
      {
        TripleSplits(token, h, p, s, parts);
      }
      if |parts| != 3 || parts[0] == "" || parts[1] == "" || parts[2] == "" {
        return false, [];
      }
      PartsTriple(token, parts);
      var headerText := Base64UrlDecode(parts[0]);
      if headerText.Malformed? {
        return false, [];
      }
      var header := o.parseHeader(headerText.bytes);
      if header == NotJson {
        return false, [];
      }
      if header.value.typ != "JWT" {
        return false, [];
      }
      if header.value.alg != algorithm {
        return false, [];
      }
      var signingInput := parts[0] + "." + parts[1];
      var expected := Base64UrlEncode(o.hmac(signingInput));
      if expected != parts[2] {
        return false, [];
      }
      var text := Base64UrlDecode(parts[1]);
      if text.Malformed? || text.bytes == [] {
        return false, [];
      }
      assert GenuineParts(o, algorithm, token, parts[0], parts[1], parts[2], text.bytes);
      ghost var front := GenuineIsSigned(o, algorithm, token, text.bytes);
      return true, text.bytes;
    }

    /** A fresh token for a session, unless the session has no name. */
    method IssuePaymentQrToken(sessionId: string, now: int, nonce: string) returns (r: Issued)
      ensures r == if sessionId == "" then Refused("payment_session_id must not be empty")
                   else Token(TokenOf(o, algorithm, Payload(sessionId, now, now + qrTtlSeconds, nonce)))
    {
      if sessionId == "" {
        return Refused("payment_session_id must not be empty");
      }
      var token := IssueToken(Payload(sessionId, now, now + qrTtlSeconds, nonce));
      return Token(token);
    }

    /** The payload of a token, if it is genuine, complete and not expired. */
    method VerifyPaymentQrToken(token: string, now: int) returns (r: Verified)
      ensures r.Accepted? ==> Accepts(o, algorithm, clockSkewSeconds, token, now, r.payload)
      ensures r.Rejected? ==> forall p :: !Accepts(o, algorithm, clockSkewSeconds, token, now, p)
      ensures r.Accepted? ==> exists front, j :: SignedFront(o, token, front, j) && o.parsePayload(j) == Object(r.payload)
    {
      hide Genuine, SignedFront;
      var ok, payloadJson := VerifyToken(token);
      if !ok {
        return Rejected("the token is not genuine");
      }
      forall j | Genuine(o, algorithm, token, j)
        ensures j == payloadJson
      {
        GenuineOnce(o, algorithm, token, j, payloadJson);
      }
      var parsed := o.parsePayload(payloadJson);
      if parsed == NotJson || !Complete(parsed.value) {
        return Rejected("the payload is malformed");
      }
      if parsed.value.exp + clockSkewSeconds <= now {
        return Rejected("the token has expired");
      }
      return Accepted(parsed.value);
    }
  }

  /** Both names given, and a positive span of time. */
  predicate Complete(p: Payload) {
    p.sessionId != "" && p.nonce != "" && p.iat > 0 && p.exp > 0 && p.exp > p.iat
  }

  /** Accepted at `now`: genuine, complete, and not past the end of the payload plus the skew. */
  ghost predicate Accepts(o: Outside, algorithm: string, skew: int, token: string, now: int, p: Payload) {
    exists j :: Genuine(o, algorithm, token, j) && o.parsePayload(j) == Object(p) && Complete(p) && now < p.exp + skew
  }

  /** A token carries at most one payload. */
  lemma GenuineOnce(o: Outside, algorithm: string, token: string, j: seq<Byte>, k: seq<Byte>)
    requires Genuine(o, algorithm, token, j) && Genuine(o, algorithm, token, k)
    ensures j == k
  {
    var h, p, s :| GenuineParts(o, algorithm, token, h, p, s, j);
    var h', p', s' :| GenuineParts(o, algorithm, token, h', p', s', k);
    hide UrlDecode, Lacks;
    TripleOnce(token, h, p, s, h', p', s');
  }

  lemma TripleOnce(token: string, h: string, p: string, s: string, h': string, p': string, s': string)
    requires IsTriple(token, h, p, s) && IsTriple(token, h', p', s')
    ensures h == h' && p == p' && s == s'
  {
    JoinThree(h', p', s');
    var parts := [h', p', s'];
    TripleSplits(token, h, p, s, parts);
    assert parts[0] == h && parts[1] == p && parts[2] == s;
  }

  // ---- what the signature covers ----

  /**
    The part behind the last dot is the encoded hash of everything before that
    dot, and the payload stands between the two dots.
   */
  ghost predicate SignedFront(o: Outside, token: string, front: string, payloadJson: seq<Byte>) {
    && (exists s :: Lacks(s, '.') && token == front + "." + s && s == UrlEncode(o.hmac(front)))
    && (exists h, p :: Lacks(h, '.') && Lacks(p, '.') && front == h + "." + p && UrlDecode(p) == Bytes(payloadJson))
  }

  /** The signature of an accepted token covers all of the header and all of the payload. */
  lemma GenuineIsSigned(o: Outside, algorithm: string, token: string, payloadJson: seq<Byte>) returns (front: string)
    requires Genuine(o, algorithm, token, payloadJson)
    ensures SignedFront(o, token, front, payloadJson)
  {
    var h, p, s :| GenuineParts(o, algorithm, token, h, p, s, payloadJson);
    hide UrlDecode, UrlEncode, Lacks;
    front := h + "." + p;
    assert token == front + "." + s;
    assert Lacks(s, '.') && token == front + "." + s && s == UrlEncode(o.hmac(front));
  }

  /** The text in front of the last dot is determined by the token. */
  lemma OneFront(o: Outside, token: string, front: string, front': string, j: seq<Byte>, k: seq<Byte>)
    requires SignedFront(o, token, front, j) && SignedFront(o, token, front', k)
    ensures front == front' && j == k
  {
    var s :| Lacks(s, '.') && token == front + "." + s && s == UrlEncode(o.hmac(front));
    var s' :| Lacks(s', '.') && token == front' + "." + s' && s' == UrlEncode(o.hmac(front'));
    LastPart(front, s, front', s', '.');
    var h, p :| Lacks(h, '.') && Lacks(p, '.') && front == h + "." + p && UrlDecode(p) == Bytes(j);
    var h', p' :| Lacks(h', '.') && Lacks(p', '.') && front' == h' + "." + p' && UrlDecode(p') == Bytes(k);
    hide UrlDecode, UrlEncode;
    LastPart(h, p, h', p', '.');
  }

  /**
    Two genuine tokens with the same third part have fronts with the same hash:
    for a hash that tells texts apart, neither header nor payload can be
    exchanged under a signature.
   */
  lemma SameSignatureSameHash(o: Outside, algorithm: string, front: string, front': string, s: string, j: seq<Byte>, k: seq<Byte>)
    requires Lacks(s, '.')
    requires Genuine(o, algorithm, front + "." + s, j) && Genuine(o, algorithm, front' + "." + s, k)
    ensures o.hmac(front) == o.hmac(front')
    ensures (forall x, y :: o.hmac(x) == o.hmac(y) ==> x == y) ==> front == front' && j == k
  {
    var a := GenuineIsSigned(o, algorithm, front + "." + s, j);
    var b := GenuineIsSigned(o, algorithm, front' + "." + s, k);
    hide Genuine, UrlEncode, UrlDecode;
    ThirdPart(o, a, front, s, j);
    ThirdPart(o, b, front', s, k);
    UrlInjective(o.hmac(front), o.hmac(front'));
    if front == front' {
      OneFront(o, front + "." + s, a, b, j, k);
    }
  }

  lemma ThirdPart(o: Outside, a: string, front: string, s: string, j: seq<Byte>)
    requires Lacks(s, '.') && SignedFront(o, front + "." + s, a, j)
    ensures a == front && s == UrlEncode(o.hmac(front))
  {
    var s' :| Lacks(s', '.') && front + "." + s == a + "." + s' && s' == UrlEncode(o.hmac(a));
    hide UrlEncode, UrlDecode;
    LastPart(front, s, a, s', '.');
  }

  /** An issued token is genuine, and carries its payload and nothing else. */
  lemma IssuedIsGenuine(o: Outside, algorithm: string, p: Payload, j: seq<Byte>)
    requires Proper(o)
    ensures Genuine(o, algorithm, TokenOf(o, algorithm, p), j) <==> j == o.dumpPayload(p)
  {
    var token := TokenOf(o, algorithm, p);
    var h, q := UrlEncode(o.dumpHeader(Header(algorithm, "JWT"))), UrlEncode(o.dumpPayload(p));
    var s := Signature(o, h, q);
    UrlAlphabet(o.dumpHeader(Header(algorithm, "JWT")));
    UrlAlphabet(o.dumpPayload(p));
    UrlAlphabet(o.hmac(h + "." + q));
    UrlRoundTrip(o.dumpHeader(Header(algorithm, "JWT")));
    UrlRoundTrip(o.dumpPayload(p));
    hide UrlEncode, UrlDecode;
    assert IsTriple(token, h, q, s);
    assert GenuineParts(o, algorithm, token, h, q, s, o.dumpPayload(p));
    if Genuine(o, algorithm, token, j) {
      GenuineOnce(o, algorithm, token, j, o.dumpPayload(p));
    }
  }

  lemma IssuedIsSigned(o: Outside, algorithm: string, p: Payload)
    ensures exists front :: SignedFront(o, TokenOf(o, algorithm, p), front, o.dumpPayload(p))
  {
    var h, q := UrlEncode(o.dumpHeader(Header(algorithm, "JWT"))), UrlEncode(o.dumpPayload(p));
    var front := h + "." + q;
    var s := UrlEncode(o.hmac(front));
    UrlAlphabet(o.dumpHeader(Header(algorithm, "JWT")));
    UrlAlphabet(o.dumpPayload(p));
    UrlAlphabet(o.hmac(front));
    UrlRoundTrip(o.dumpPayload(p));
    hide UrlEncode, UrlDecode;
    assert Lacks(s, '.') && TokenOf(o, algorithm, p) == front + "." + s && s == UrlEncode(o.hmac(front));
    assert Lacks(h, '.') && Lacks(q, '.') && front == h + "." + q;
    assert SignedFront(o, TokenOf(o, algorithm, p), front, o.dumpPayload(p));
  }

  /**
    What an accepted token shows: its payload stands in the signed front, names
    a session and a nonce, spans a positive time and has not run out.
   */
  lemma AcceptedIsSigned(o: Outside, algorithm: string, skew: int, token: string, now: int, p: Payload)
    returns (front: string, j: seq<Byte>)
    requires Accepts(o, algorithm, skew, token, now, p)
    ensures SignedFront(o, token, front, j) && o.parsePayload(j) == Object(p)
    ensures p.sessionId != "" && p.nonce != "" && 0 < p.iat < p.exp && now < p.exp + skew
  {
    j :| Genuine(o, algorithm, token, j) && o.parsePayload(j) == Object(p) && Complete(p) && now < p.exp + skew;
    front := GenuineIsSigned(o, algorithm, token, j);
  }

  /** No payload can be exchanged under a signature, unless the hash takes two texts for one. */
  lemma SameSignatureSamePayload(o: Outside, algorithm: string, skew: int, front: string, front': string, s: string,
                                 now: int, now': int, p: Payload, q: Payload)
    requires Lacks(s, '.')
    requires Accepts(o, algorithm, skew, front + "." + s, now, p) && Accepts(o, algorithm, skew, front' + "." + s, now', q)
    ensures o.hmac(front) == o.hmac(front')
    ensures (forall x, y :: o.hmac(x) == o.hmac(y) ==> x == y) ==> p == q
  {
    var j :| Genuine(o, algorithm, front + "." + s, j) && o.parsePayload(j) == Object(p);
    var k :| Genuine(o, algorithm, front' + "." + s, k) && o.parsePayload(k) == Object(q);
    hide Genuine, Accepts;
    SameSignatureSameHash(o, algorithm, front, front', s, j, k);
  }

  /** At time `t` an issued token is accepted if and only if its payload is complete and `t` is before its end plus the skew. */
  lemma TokenLifetime(o: Outside, algorithm: string, skew: int, p: Payload, t: int, q: Payload)
    requires Proper(o)
    ensures Accepts(o, algorithm, skew, TokenOf(o, algorithm, p), t, q) <==> q == p && Complete(p) && t < p.exp + skew
  {
    hide Genuine, TokenOf;
    var token := TokenOf(o, algorithm, p);
    IssuedIsGenuine(o, algorithm, p, o.dumpPayload(p));
    forall j
      ensures Genuine(o, algorithm, token, j) <==> j == o.dumpPayload(p)
    {
      IssuedIsGenuine(o, algorithm, p, j);
    }
  }

  /**
    A token issued at `t0` is accepted at `t` exactly when `t0` is positive and
    `t` is before `t0` plus lifetime plus skew, and gives its own payload back.
   */
  lemma IssuedTokenLifetime(service: JwtService, sessionId: string, t0: int, nonce: string, t: int)
    requires service.Valid() && sessionId != "" && nonce != ""
    ensures var p := Payload(sessionId, t0, t0 + service.qrTtlSeconds, nonce);
            var token := TokenOf(service.o, service.algorithm, p);
            && (Accepts(service.o, service.algorithm, service.clockSkewSeconds, token, t, p)
                <==> t0 > 0 && t < t0 + service.qrTtlSeconds + service.clockSkewSeconds)
            && forall q :: Accepts(service.o, service.algorithm, service.clockSkewSeconds, token, t, q) ==> q == p
  {
    hide Accepts, TokenOf;
    var p := Payload(sessionId, t0, t0 + service.qrTtlSeconds, nonce);
    TokenLifetime(service.o, service.algorithm, service.clockSkewSeconds, p, t, p);
    forall q
      ensures Accepts(service.o, service.algorithm, service.clockSkewSeconds, TokenOf(service.o, service.algorithm, p), t, q) ==> q == p
    {
      TokenLifetime(service.o, service.algorithm, service.clockSkewSeconds, p, t, q);
    }
  }

  const ALGORITHMS: seq<string> := ["HS256", "HS384", "HS512"]

  /** A service needs a secret, a known algorithm and a positive lifetime. */
  method FromConfig(o: Outside, secret: string, algorithm: string, qrTtlSeconds: int, clockSkewSeconds: int)
    returns (service: JwtService?)
    requires Proper(o)
    ensures service != null <==> secret != "" && algorithm in ALGORITHMS && qrTtlSeconds > 0
    ensures service != null ==> service.Valid() && service.o == o && service.algorithm == algorithm
                                && service.qrTtlSeconds == qrTtlSeconds && service.clockSkewSeconds == clockSkewSeconds
  {
    if secret == "" {
      return null;
    }
    if algorithm !in ALGORITHMS {
      return null;
    }
    if qrTtlSeconds <= 0 {
      return null;
    }
    service := new JwtService(o, algorithm, qrTtlSeconds, clockSkewSeconds);
  }

  /** Three parts without dots, none of them empty. */
  ghost predicate IsTriple(token: string, h: string, p: string, s: string) {
    h != "" && p != "" && s != "" && Lacks(h, '.') && Lacks(p, '.') && Lacks(s, '.') && token == h + "." + p + "." + s
  }

  ghost predicate GenuineParts(o: Outside, algorithm: string, token: string, h: string, p: string, s: string, payloadJson: seq<Byte>) {
    && IsTriple(token, h, p, s) && s == Signature(o, h, p)
    && UrlDecode(h).Bytes? && o.parseHeader(UrlDecode(h).bytes) == Object(Header(algorithm, "JWT"))
    && UrlDecode(p) == Bytes(payloadJson) && payloadJson != []
  }

  /** A token with the right header whose third part is the signature of the first two. */
  ghost predicate Genuine(o: Outside, algorithm: string, token: string, payloadJson: seq<Byte>) {
    exists h, p, s :: GenuineParts(o, algorithm, token, h, p, s, payloadJson)
  }

  lemma JoinThree(h: string, p: string, s: string)
    ensures JoinWith([h, p, s], '.') == h + "." + p + "." + s
  {
    assert [h, p, s][..2] == [h, p] && [h, p][..1] == [h];
    assert JoinWith([h], '.') == h;
    assert JoinWith([h, p], '.') == h + ['.'] + p;
  }

  lemma TripleSplits(token: string, h: string, p: string, s: string, parts: seq<string>)
    requires IsTriple(token, h, p, s)
    requires parts != [] && JoinWith(parts, '.') == token && forall i | 0 <= i < |parts| :: Lacks(parts[i], '.')
    ensures parts == [h, p, s] && h != "" && p != "" && s != ""
  {
    JoinThree(h, p, s);
    hide Lacks, JoinWith;
    SplitUnique(parts, [h, p, s], '.');
  }

  lemma PartsTriple(token: string, parts: seq<string>)
    requires |parts| == 3 && parts[0] != "" && parts[1] != "" && parts[2] != ""
    requires JoinWith(parts, '.') == token && forall i | 0 <= i < |parts| :: Lacks(parts[i], '.')
    ensures IsTriple(token, parts[0], parts[1], parts[2])
  {
    assert parts == [parts[0], parts[1], parts[2]];
    JoinThree(parts[0], parts[1], parts[2]);
  }
}

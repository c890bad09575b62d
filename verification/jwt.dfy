/** The hand-rolled HS256 JSON Web Token of models/Auth.php: three
    base64url segments `header.payload.signature`, the signature being an
    HMAC-SHA256 of the string "header.payload" under a fixed server secret.

    Base64, HMAC-SHA256 and JSON are not modelled: they are the function
    fields of a `Primitives` value, and `Lawful` states the only facts about
    them that the round trip needs. */
module Jwt {
  import opened Wrappers
  import Php

  /** The hardcoded signing key of the source. */
  const SecretKey: string := "your_secret_key_here"

  /** A token is valid for 24 hours after it is issued. */
  const TokenLifetime: int := 60 * 60 * 24

  /** `json_encode(['typ' => 'JWT', 'alg' => 'HS256'])`. */
  const HeaderJson: string := "{\"typ\":\"JWT\",\"alg\":\"HS256\"}"

  /** The decoded claims. Every field may be missing from a payload that
      was produced elsewhere and happens to carry a valid signature. */
  datatype Payload = Payload(iat: Option<int>, exp: Option<int>, userId: Option<int>)

  /** The library functions the token code calls but that are not modelled. */
  datatype Primitives = Primitives(
    base64Encode: string -> string,
    base64Decode: string -> string,
    hmacSha256: (string, string) -> string,
    jsonEncode: Payload -> string,
    jsonDecode: string -> Option<Payload>)

  /** The alphabet of standard base64 output, padding included. */
  predicate IsBase64Char(c: char) {
    ('A' <= c <= 'Z') || ('a' <= c <= 'z') || ('0' <= c <= '9') || c == '+' || c == '/' || c == '='
  }

  /** What the round trip needs from the primitives: standard base64 output
      uses the standard alphabet; the decoder accepts input whose `=`
      padding was stripped (PHP's non-strict `base64_decode` does); JSON
      decoding inverts JSON encoding. */
  ghost predicate Lawful(p: Primitives) {
    && (forall d, i | 0 <= i < |p.base64Encode(d)| :: IsBase64Char(p.base64Encode(d)[i]))
    && (forall d :: p.base64Decode(TrimRight(p.base64Encode(d), '=')) == d)
    && (forall x :: p.jsonDecode(p.jsonEncode(x)) == Some(x))
  }

  function UrlSafeChar(c: char): char {
    if c == '+' then '-' else if c == '/' then '_' else c
  }

  function StandardChar(c: char): char {
    if c == '-' then '+' else if c == '_' then '/' else c
  }

  /** `strtr($s, '+/', '-_')`. */
  function ToUrlAlphabet(s: string): (r: string)
    ensures |r| == |s|
    ensures forall i | 0 <= i < |s| :: r[i] == UrlSafeChar(s[i])
    ensures '+' !in r && '/' !in r
  {
    seq(|s|, i requires 0 <= i < |s| => UrlSafeChar(s[i]))
  }

  /** `strtr($s, '-_', '+/')`, the inverse translation used when decoding. */
  function ToStandardAlphabet(s: string): (r: string)
    ensures |r| == |s|
    ensures forall i | 0 <= i < |s| :: r[i] == StandardChar(s[i])
    ensures '-' !in r && '_' !in r
  {
    seq(|s|, i requires 0 <= i < |s| => StandardChar(s[i]))
  }

  /** `rtrim($s, $c)`: the longest prefix of `s` that does not end in `c`,
      everything cut off being `c`. */
  function TrimRight(s: string, c: char): (r: string)
    ensures r <= s
    ensures |r| == 0 || r[|r| - 1] != c
    ensures forall i | |r| <= i < |s| :: s[i] == c
    decreases |s|
  {
    if |s| > 0 && s[|s| - 1] == c then TrimRight(s[..|s| - 1], c) else s
  }

  /** The three properties of `TrimRight` determine its result. */
  lemma TrimRightUnique(s: string, c: char, r: string)
    requires r <= s
    requires |r| == 0 || r[|r| - 1] != c
    requires forall i | |r| <= i < |s| :: s[i] == c
    ensures r == TrimRight(s, c)
  {
  }

  /** `base64UrlEncode`: base64, then `+/` to `-_`, then right-strip `=`. */
  function Base64UrlEncode(p: Primitives, data: string): (r: string)
    ensures '+' !in r && '/' !in r
    ensures |r| == 0 || r[|r| - 1] != '='
    ensures r <= ToUrlAlphabet(p.base64Encode(data))
    ensures forall i | |r| <= i < |p.base64Encode(data)| :: p.base64Encode(data)[i] == '='
  {
    var u := ToUrlAlphabet(p.base64Encode(data));
    assert forall i | 0 <= i < |u| :: u[i] == '=' <==> p.base64Encode(data)[i] == '=';
    TrimRight(u, '=')
  }

  /** Recovering the bytes a `base64UrlEncode` segment stands for:
      `base64_decode(strtr($seg, '-_', '+/'))`. */
  function Base64UrlDecode(p: Primitives, segment: string): string {
    p.base64Decode(ToStandardAlphabet(segment))
  }

  /** Under lawful primitives `base64UrlEncode` is decodable. */
  lemma {:induction false} Base64UrlRoundTrip(p: Primitives, data: string)
    requires Lawful(p)
    ensures Base64UrlDecode(p, Base64UrlEncode(p, data)) == data
    ensures '.' !in Base64UrlEncode(p, data)
  {
    var e := p.base64Encode(data);
    var r := Base64UrlEncode(p, data);
    var t := TrimRight(e, '=');
    assert |r| == |t| by {
      TrimRightUnique(e, '=', e[..|r|]);
    }
    forall i | 0 <= i < |r|
      ensures ToStandardAlphabet(r)[i] == t[i] && r[i] != '.'
    {
      assert IsBase64Char(e[i]);
    }
    assert ToStandardAlphabet(r) == t;
  }

  /** The first position of `c` in `s`. */
  function FirstIndex(s: string, c: char): (k: nat)
    requires c in s
    ensures k < |s| && s[k] == c && c !in s[..k]
  {
    if s[0] == c then 0 else 1 + FirstIndex(s[1..], c)
  }

  /** `implode($sep, $parts)`. */
  function Implode(parts: seq<string>, sep: char): string {
    if |parts| == 0 then ""
    else if |parts| == 1 then parts[0]
    else parts[0] + [sep] + Implode(parts[1..], sep)
  }

  /** Joining three pieces with dots. */
  lemma ImplodeThree(a: string, b: string, c: string)
    ensures Implode([a, b, c], '.') == a + "." + b + "." + c
  {
    assert [a, b, c][1..] == [b, c];
    assert [b, c][1..] == [c];
    assert Implode([c], '.') == c;
    assert Implode([b, c], '.') == b + ['.'] + c;
    assert Implode([a, b, c], '.') == a + ['.'] + (b + ['.'] + c);
  }

  /** Three dot-free pieces joined by dots explode back into those pieces. */
  lemma SplitsIntoThree(a: string, b: string, c: string)
    requires '.' !in a && '.' !in b && '.' !in c
    ensures Explode(a + "." + b + "." + c, '.') == [a, b, c]
  {
    ImplodeThree(a, b, c);
    ExplodeImplode([a, b, c], '.');
  }

  /** `explode($sep, $s)`: the pieces between separators; never empty. */
  function Explode(s: string, sep: char): (parts: seq<string>)
    ensures |parts| >= 1
    ensures forall i | 0 <= i < |parts| :: sep !in parts[i]
    ensures Implode(parts, sep) == s
    decreases |s|
  {
    if sep !in s then [s]
    else
      var k := FirstIndex(s, sep);
      assert s == s[..k] + [sep] + s[k + 1..];
      [s[..k]] + Explode(s[k + 1..], sep)
  }

  /** Exploding pieces that do not contain the separator gives them back. */
  lemma {:induction false} ExplodeImplode(parts: seq<string>, sep: char)
    requires |parts| >= 1
    requires forall i | 0 <= i < |parts| :: sep !in parts[i]
    ensures Explode(Implode(parts, sep), sep) == parts
    decreases |parts|
  {
    if |parts| > 1 {
      var s := Implode(parts, sep);
      var rest := Implode(parts[1..], sep);
      assert sep !in parts[0];
      assert s == parts[0] + [sep] + rest;
      assert s[|parts[0]|] == sep;
      assert s[..|parts[0]|] == parts[0];
      assert FirstIndex(s, sep) == |parts[0]|;
      assert s[|parts[0]| + 1..] == rest;
      ExplodeImplode(parts[1..], sep);
      assert parts == [parts[0]] + parts[1..];
    }
  }

  /** The signature segment for a header and payload segment. */
  function Signature(p: Primitives, header: string, payload: string): string {
    Base64UrlEncode(p, p.hmacSha256(header + "." + payload, SecretKey))
  }

  /** `encode`: header, payload and signature segments joined by dots. */
  function Encode(p: Primitives, payload: Payload): (token: string)
    ensures '.' in token
  {
    var h := Base64UrlEncode(p, HeaderJson);
    var b := Base64UrlEncode(p, p.jsonEncode(payload));
    var token := h + "." + b + "." + Signature(p, h, b);
    assert token[|h|] == '.';
    token
  }

  /** The claims `generateJWT` puts into a token issued at `now`. */
  function IssuedPayload(userId: int, now: int): (c: Payload)
    ensures c.userId == Some(userId)
    ensures c.iat == Some(now) && c.exp == Some(now + 86400)
  {
    Payload(Some(now), Some(now + TokenLifetime), Some(userId))
  }

  /** `generateJWT`: a token for `userId` issued at the clock reading `now`. */
  function GenerateJwt(p: Primitives, userId: int, now: int): string {
    Encode(p, IssuedPayload(userId, now))
  }

  /** Decoding the payload segment: `json_decode(base64_decode(strtr(...)))`.
      `None` is a segment that does not decode to a JSON object. */
  function DecodeSegment(p: Primitives, segment: string): Option<Payload> {
    p.jsonDecode(Base64UrlDecode(p, segment))
  }

  /** The token splits into three segments whose third is the signature
      recomputed over the first two. */
  predicate WellSigned(p: Primitives, token: string) {
    var parts := Explode(token, '.');
    |parts| == 3 && parts[2] == Signature(p, parts[0], parts[1])
  }

  /** `validateToken`: rejects an empty token, a token that is not three
      dot-separated parts and a token whose signature differs from the
      recomputed one, all before the payload is decoded; then rejects a
      payload whose `exp` lies strictly before `now`. A payload without
      `exp` never expires. `None` stands for PHP's `false` and for an
      undecodable payload (`null`), which every caller treats alike. */
  function ValidateToken(p: Primitives, token: string, now: int): (r: Option<Payload>)
    ensures r.Some? ==> Php.Truthy(token) && WellSigned(p, token)
    ensures r.Some? ==> DecodeSegment(p, Explode(token, '.')[1]) == r
    ensures r.Some? ==> r.value.exp.None? || now <= r.value.exp.value
    ensures !WellSigned(p, token) ==> r.None?
  {
    if !Php.Truthy(token) then None
    else
      var parts := Explode(token, '.');
      if |parts| != 3 then None
      else if parts[2] != Signature(p, parts[0], parts[1]) then None
      else
        match DecodeSegment(p, parts[1])
        case None => None
        case Some(claims) =>
          if claims.exp.Some? && claims.exp.value < now then None else Some(claims)
  }

  /** An encoded token splits back into its three segments. */
  lemma EncodedTokenSplits(p: Primitives, payload: Payload)
    requires Lawful(p)
    ensures Explode(Encode(p, payload), '.') ==
      [Base64UrlEncode(p, HeaderJson),
       Base64UrlEncode(p, p.jsonEncode(payload)),
       Signature(p, Base64UrlEncode(p, HeaderJson), Base64UrlEncode(p, p.jsonEncode(payload)))]
  {
    var h := Base64UrlEncode(p, HeaderJson);
    var b := Base64UrlEncode(p, p.jsonEncode(payload));
    var s := Signature(p, h, b);
    Base64UrlRoundTrip(p, HeaderJson);
    Base64UrlRoundTrip(p, p.jsonEncode(payload));
    Base64UrlRoundTrip(p, p.hmacSha256(h + "." + b, SecretKey));
    SplitsIntoThree(h, b, s);
  }

  /** Round trip: a token encoded from any payload validates back to that
      payload at every clock reading up to and including its expiry. */
  lemma IssuedTokenRoundTrip(p: Primitives, payload: Payload, now: int)
    requires Lawful(p)
    requires payload.exp.None? || now <= payload.exp.value
    ensures ValidateToken(p, Encode(p, payload), now) == Some(payload)
  {
    var token := Encode(p, payload);
    EncodedTokenSplits(p, payload);
    Base64UrlRoundTrip(p, p.jsonEncode(payload));
    assert token != "" && token != "0" by {
      assert '.' in token;
    }
  }

  /** A token encoded from a payload whose `exp` lies strictly before `now`
      is rejected. */
  lemma ExpiredTokenRejected(p: Primitives, payload: Payload, now: int)
    requires Lawful(p)
    requires payload.exp.Some? && payload.exp.value < now
    ensures ValidateToken(p, Encode(p, payload), now) == None
  {
    EncodedTokenSplits(p, payload);
    Base64UrlRoundTrip(p, p.jsonEncode(payload));
  }

  /** A token issued at `now0` for `userId` validates to exactly the issued
      claims until `now0 + 86400` inclusive, and is rejected afterwards. */
  lemma GeneratedTokenLifetime(p: Primitives, userId: int, now0: int, now: int)
    requires Lawful(p)
    ensures now <= now0 + 86400 ==>
      ValidateToken(p, GenerateJwt(p, userId, now0), now) == Some(Payload(Some(now0), Some(now0 + 86400), Some(userId)))
    ensures now > now0 + 86400 ==> ValidateToken(p, GenerateJwt(p, userId, now0), now) == None
  {
    if now <= now0 + 86400 {
      IssuedTokenRoundTrip(p, IssuedPayload(userId, now0), now);
    } else {
      ExpiredTokenRejected(p, IssuedPayload(userId, now0), now);
    }
  }

  /** A token whose third segment is not the recomputed signature of the
      first two is rejected, whatever its payload segment says. */
  lemma ForgedSignatureRejected(p: Primitives, header: string, payload: string, signature: string, now: int)
    requires '.' !in header && '.' !in payload && '.' !in signature
    requires signature != Signature(p, header, payload)
    ensures ValidateToken(p, header + "." + payload + "." + signature, now) == None
  {
    SplitsIntoThree(header, payload, signature);
  }
}

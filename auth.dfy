/** The bearer-token gate: issuing a token whose only claim is the user name,
    and checking an `Authorization` header against a user name.

    The signed-token library is foreign code; it is modelled here by an
    injective codec. A token is a payload, a '.', and a signature. The payload
    encodes the claims with an escape encoding that never produces whitespace
    or '.'; the signature is a deterministic function of the secret and the
    payload (a stand-in for the keyed hash, with no claim to being one).
    Decoding fails in the ways the library's does: a missing token, a token it
    cannot parse, and a signature that does not verify. */
module Auth {
  import opened Common
  import opened Text

  /** The fixed signing secret. */
  const Secret := "cbtravelsample"

  /** The claims a token carries: the `user` claim, which a token forged with
      the secret might leave out. */
  datatype Claims = Claims(user: Option<string>)

  /** How the token library fails: no token given, a token it cannot parse,
      a token whose signature does not verify. */
  datatype JwtError = NilToken | Malformed | VerificationFailed

  datatype Decoded = Ok(claims: Claims) | Err(error: JwtError)

  /** Outcome of the header check: a boolean answer, or the library's
      exception, which the store does not turn into a domain error. */
  datatype AuthResult = Verdict(ok: bool) | Raised(cause: JwtError)

  /** Characters the payload encoding must not emit bare. */
  predicate Special(c: char)
  {
    IsSpace(c) || c == '.' || c == '%'
  }

  /** A special character becomes '%' and a letter code; ' ', '\t'..'\r', '%'
      and '.' lie in 9..46, so their codes lie in 'A'..'f'. */
  function EscapeChar(c: char): (e: string)
    ensures NoSpace(e) && '.' !in e && e != []
  {
    if Special(c) then ['%', (c as int + 56) as char] else [c]
  }

  function Escape(s: string): (e: string)
    ensures NoSpace(e) && '.' !in e
  {
    if s == [] then [] else EscapeChar(s[0]) + Escape(s[1..])
  }

  function Unescape(e: string): (r: Option<string>)
  {
    if e == [] then Some([])
    else if e[0] == '%' then
      if |e| >= 2 && 'A' <= e[1] <= 'f' && Special((e[1] as int - 56) as char) then
        match Unescape(e[2..])
        case Some(rest) => Some([(e[1] as int - 56) as char] + rest)
        case None => None
      else None
    else if Special(e[0]) then None
    else
      match Unescape(e[1..])
      case Some(rest) => Some([e[0]] + rest)
      case None => None
  }

  /** The escape encoding is undone by Unescape, so it is injective. */
  lemma {:induction false} UnescapeEscape(s: string)
    ensures Unescape(Escape(s)) == Some(s)
  {
    if s != [] {
      var e := Escape(s);
      UnescapeEscape(s[1..]);
      if Special(s[0]) {
        assert e[0] == '%' && e[2..] == Escape(s[1..]);
        assert 'A' <= e[1] <= 'f' && (e[1] as int - 56) as char == s[0];
      } else {
        assert e[0] == s[0] && e[1..] == Escape(s[1..]);
      }
      assert [s[0]] + s[1..] == s;
    }
  }

  lemma EscapeDistinct(s: string, t: string)
    requires s != t
    ensures Escape(s) != Escape(t)
  {
    UnescapeEscape(s);
    UnescapeEscape(t);
  }

  function EncodeClaims(c: Claims): (p: string)
    ensures NoSpace(p) && '.' !in p
  {
    match c.user
    case Some(u) => "u" + Escape(u)
    case None => "n"
  }

  function DecodeClaims(p: string): Option<Claims>
  {
    if p == "n" then Some(Claims(None))
    else if p != [] && p[0] == 'u' then
      match Unescape(p[1..])
      case Some(u) => Some(Claims(Some(u)))
      case None => None
    else None
  }

  lemma DecodeEncodeClaims(c: Claims)
    ensures DecodeClaims(EncodeClaims(c)) == Some(c)
  {
    if c.user.Some? {
      var p := EncodeClaims(c);
      assert p[1..] == Escape(c.user.value);
      UnescapeEscape(c.user.value);
    }
  }

  /** The stand-in for the keyed signature over a payload. */
  function Sign(secret: string, payload: string): (sig: string)
    ensures NoSpace(sig) && '.' !in sig
  {
    Escape(secret + payload)
  }

  /** Signing the token's payload: `JWT.encode(claims, secret)`. */
  function Encode(c: Claims, secret: string): (token: string)
    ensures NoSpace(token) && token != []
  {
    var p := EncodeClaims(c);
    p + "." + Sign(secret, p)
  }

  /** Index of the first '.' in `s`, if any. */
  function FirstDot(s: string): (r: Option<nat>)
    ensures r.Some? ==> r.value < |s| && s[r.value] == '.' && '.' !in s[..r.value]
    ensures r.None? ==> '.' !in s
  {
    if s == [] then None
    else if s[0] == '.' then Some(0)
    else match FirstDot(s[1..])
      case Some(i) => assert s[..i + 1] == [s[0]] + s[1..][..i]; Some(i + 1)
      case None => None
  }

  /** `JWT.decode(token, secret, true)`: parse the payload, then verify the
      signature with the secret. */
  function Decode(token: string, secret: string): (d: Decoded)
    ensures d.Ok? ==> exists p :: DecodeClaims(p) == Some(d.claims) && token == p + "." + Sign(secret, p)
  {
    match FirstDot(token)
    case None => Err(Malformed)
    case Some(i) =>
      var p := token[..i];
      match DecodeClaims(p)
      case None => Err(Malformed)
      case Some(c) =>
        if token[i + 1..] != Sign(secret, p) then Err(VerificationFailed)
        else assert token == p + "." + token[i + 1..]; Ok(c)
  }

  lemma {:induction false} FirstDotOf(p: string, rest: string)
    requires '.' !in p
    ensures FirstDot(p + "." + rest) == Some(|p|)
  {
    if p != [] {
      assert p[0] in p;
      assert (p + "." + rest)[1..] == p[1..] + "." + rest;
      FirstDotOf(p[1..], rest);
    }
  }

  /** A token decodes, under the secret that signed it, to the claims it was
      made from. */
  lemma DecodeEncode(c: Claims, secret: string)
    ensures Decode(Encode(c, secret), secret) == Ok(c)
  {
    var p := EncodeClaims(c);
    var token := Encode(c, secret);
    FirstDotOf(p, Sign(secret, p));
    assert token[..|p|] == p;
    assert token[|p| + 1..] == Sign(secret, p);
    DecodeEncodeClaims(c);
  }

  /** A token signed with one secret fails verification under any other. */
  lemma WrongSecretRejected(c: Claims, signer: string, verifier: string)
    requires signer != verifier
    ensures Decode(Encode(c, signer), verifier) == Err(VerificationFailed)
  {
    var p := EncodeClaims(c);
    var token := Encode(c, signer);
    FirstDotOf(p, Sign(signer, p));
    assert token[..|p|] == p;
    assert token[|p| + 1..] == Sign(signer, p);
    DecodeEncodeClaims(c);
    AppendDistinct(signer, verifier, p);
    EscapeDistinct(signer + p, verifier + p);
  }

  lemma AppendDistinct(s: string, t: string, p: string)
    requires s != t
    ensures s + p != t + p
  {
    if |s| == |t| {
      var k :| 0 <= k < |s| && s[k] != t[k];
      assert (s + p)[k] == s[k] && (t + p)[k] == t[k];
    } else {
      assert |s + p| != |t + p|;
    }
  }

  /** `genToken`: a token whose only claim is `user`, signed with the secret. */
  function GenToken(username: string): (token: string)
    ensures NoSpace(token) && token != []
    ensures Decode(token, Secret) == Ok(Claims(Some(username)))
  {
    DecodeEncode(Claims(Some(username)), Secret);
    Encode(Claims(Some(username)), Secret)
  }

  /** Different users get different tokens. */
  lemma GenTokenInjective(u: string, v: string)
    requires GenToken(u) == GenToken(v)
    ensures u == v
  {
  }

  /** `authenticated?`: the second whitespace-separated field of the header is
      decoded with the secret and its `user` claim compared with the user name.
      With no second field, or a token that does not decode and verify, the
      library raises instead of answering. */
  function Authenticated(header: string, username: string): (r: AuthResult)
    ensures |Words(header)| < 2 ==> r == Raised(NilToken)
    ensures |Words(header)| >= 2 ==>
      (r.Raised? <==> Decode(Words(header)[1], Secret).Err?)
    ensures r == Verdict(true) <==>
      |Words(header)| >= 2 && Decode(Words(header)[1], Secret) == Ok(Claims(Some(username)))
  {
    var fields := Words(header);
    if |fields| < 2 then Raised(NilToken)
    else
      match Decode(fields[1], Secret)
      case Err(e) => Raised(e)
      case Ok(c) => Verdict(c.user == Some(username))
  }

  /** The header the client sends, `"<scheme> <token>"`, with any leading
      whitespace, any run of whitespace between the two fields and anything
      after a further whitespace: its second field is the token. */
  lemma {:induction false} HeaderToken(lead: string, scheme: string, sep: string, token: string, trail: string)
    requires AllSpace(lead) && AllSpace(sep) && sep != []
    requires scheme != [] && NoSpace(scheme) && token != [] && NoSpace(token)
    requires trail == [] || IsSpace(trail[0])
    ensures |Words(lead + scheme + sep + token + trail)| >= 2
    ensures Words(lead + scheme + sep + token + trail)[1] == token
  {
    var rest := sep + token + trail;
    assert lead + scheme + sep + token + trail == lead + scheme + rest;
    WordsCons(lead, scheme, rest);
    WordsCons(sep, token, trail);
  }

  /** A token issued for `u` passes the check for `v` exactly when `u == v`,
      under case-sensitive comparison. */
  lemma {:induction false} GenTokenAuthenticates(scheme: string, u: string, v: string)
    requires scheme != [] && NoSpace(scheme)
    ensures Authenticated(scheme + " " + GenToken(u), v) == Verdict(u == v)
  {
    var t := GenToken(u);
    SchemeAndToken(scheme, t);
    HeaderDecides(scheme + " " + t, t, v);
  }

  /** The check on a header whose second field is `token` is decided by
      decoding `token`. */
  lemma HeaderDecides(header: string, token: string, username: string)
    requires |Words(header)| >= 2 && Words(header)[1] == token
    ensures Authenticated(header, username) ==
      match Decode(token, Secret)
      case Err(e) => Raised(e)
      case Ok(c) => Verdict(c.user == Some(username))
  {
  }

  /** A header carrying only a scheme word, or nothing but whitespace, makes
      the library raise: the check never answers false for it. */
  lemma {:induction false} SchemeOnlyRaises(lead: string, scheme: string, trail: string, username: string)
    requires AllSpace(lead) && AllSpace(trail)
    requires scheme != [] && NoSpace(scheme)
    ensures Authenticated(lead + scheme + trail, username) == Raised(NilToken)
  {
    if trail == [] {
      WordsCons(lead, scheme, trail);
      assert Words(trail) == [];
    } else {
      WordsCons(lead, scheme, trail);
      WordsOfSpace(trail);
    }
  }

  /** A well-formed header whose token was signed with another secret makes
      the library raise rather than answer false. */
  lemma ForeignTokenRaises(scheme: string, c: Claims, otherSecret: string, username: string)
    requires scheme != [] && NoSpace(scheme) && otherSecret != Secret
    ensures Authenticated(scheme + " " + Encode(c, otherSecret), username) == Raised(VerificationFailed)
  {
    var token := Encode(c, otherSecret);
    SchemeAndToken(scheme, token);
    HeaderDecides(scheme + " " + token, token, username);
    WrongSecretRejected(c, otherSecret, Secret);
  }
}

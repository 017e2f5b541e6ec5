/**
 * The token provider of src/application/security/jwt/jwt.provider.ts.
 *
 * A token is a string. Its claims and its expiry (`exp`, seconds since the
 * epoch) are written as fields separated by '.', each field over the alphabet
 * of digits, '-', 'n' and 's', and the last field is the signature: the
 * keyed MAC of the other fields under the shared secret. The MAC itself is a
 * parameter of the provider (HS256 is not modelled). The clock is `now`, in
 * milliseconds, as `Date.now()` gives it; `exp` is in whole seconds, as the
 * JWT library computes it.
 */
module Jwt {
  import opened Wrappers
  import opened Errors
  import opened Text

  /** The claims the services sign: `{id, role, type}`, plus `email` and `name` in the legacy service. */
  datatype Claims = Claims(id: string, role: string, tokenType: string, email: Option<string>, name: Option<string>)

  /** What a well-formed, correctly signed token carries. */
  datatype Decoded = Decoded(claims: Claims, exp: nat)

  type Mac = (string, string) -> string

  /** One token handler of the JWT library: a secret, the lifetime it stamps (seconds), the MAC. */
  datatype JwtHandler = JwtHandler(secret: string, lifetime: nat, mac: Mac)

  /** `exp: "1h"` */
  const VerificationLifetime: nat := 60 * 60
  /** `exp: "7d"` */
  const SessionLifetime: nat := 7 * 24 * 60 * 60

  const VerifyFailure: AppError := JWTError("Error verifying JWT")

  // ----- field encoding -----

  function CharCodes(s: string): (codes: seq<string>)
    ensures |codes| == |s|
    ensures forall k :: 0 <= k < |codes| ==> codes[k] == DecimalString(s[k] as nat)
  {
    if s == [] then [] else [DecimalString(s[0] as nat)] + CharCodes(s[1..])
  }

  /** A string as the decimal codes of its characters, joined by '-'. */
  function EncodeText(s: string): (field: string)
  {
    Join(CharCodes(s), '-')
  }

  predicate IsScalar(n: nat) {
    n < 0xD800 || 0xE000 <= n < 0x11_0000
  }

  function DecodeCodes(codes: seq<string>): Option<string>
  {
    if codes == [] then Some([])
    else if codes[0] != [] && AllDigits(codes[0]) && IsScalar(ParseDecimal(codes[0])) then
      match DecodeCodes(codes[1..])
      case Some(rest) => Some([ParseDecimal(codes[0]) as char] + rest)
      case None => None
    else None
  }

  function DecodeText(field: string): Option<string>
  {
    if field == [] then Some([]) else DecodeCodes(Split(field, '-'))
  }

  function EncodeOptional(o: Option<string>): string
  {
    match o
    case None => "n"
    case Some(s) => "s" + EncodeText(s)
  }

  function DecodeOptional(field: string): Option<Option<string>>
  {
    if field == "n" then Some(None)
    else if |field| >= 1 && field[0] == 's' then
      match DecodeText(field[1..])
      case Some(s) => Some(Some(s))
      case None => None
    else None
  }

  function DecodeNumber(field: string): Option<nat>
  {
    if field != [] && AllDigits(field) then Some(ParseDecimal(field)) else None
  }

  predicate FieldChar(c: char) {
    IsDigit(c) || c == '-' || c == 'n' || c == 's'
  }

  predicate IsField(f: string) {
    forall i :: 0 <= i < |f| ==> FieldChar(f[i])
  }

  lemma {:induction false} DecodeCharCodes(s: string)
    ensures DecodeCodes(CharCodes(s)) == Some(s)
  {
    if s != [] {
      var codes := CharCodes(s);
      assert codes[1..] == CharCodes(s[1..]);
      ParseDecimalString(s[0] as nat);
      DecodeCharCodes(s[1..]);
      assert [s[0]] + s[1..] == s;
    }
  }

  /** Text fields read back as written. */
  lemma DecodeEncodeText(s: string)
    ensures DecodeText(EncodeText(s)) == Some(s)
  {
    var codes := CharCodes(s);
    if s != [] {
      forall k | 0 <= k < |codes| ensures '-' !in codes[k] {
        assert AllDigits(codes[k]);
      }
      JoinStartsWithFirst(codes, '-');
      SplitJoin(codes, '-');
    }
    DecodeCharCodes(s);
  }

  lemma DecodeEncodeOptional(o: Option<string>)
    ensures DecodeOptional(EncodeOptional(o)) == Some(o)
  {
    if o.Some? {
      var f := EncodeOptional(o);
      assert f[1..] == EncodeText(o.value);
      DecodeEncodeText(o.value);
    }
  }

  lemma EncodeTextIsField(s: string)
    ensures IsField(EncodeText(s))
  {
    var codes := CharCodes(s);
    forall c | !FieldChar(c) ensures c !in EncodeText(s) {
      forall k | 0 <= k < |codes| ensures c !in codes[k] {
        assert AllDigits(codes[k]);
      }
      JoinAvoids(codes, '-', c);
    }
  }

  // ----- tokens -----

  function ClaimFields(c: Claims, exp: nat): seq<string>
  {
    [EncodeText(c.id), EncodeText(c.role), EncodeText(c.tokenType),
     EncodeOptional(c.email), EncodeOptional(c.name), DecimalString(exp)]
  }

  function DecodeClaims(fields: seq<string>): Option<Decoded>
    requires |fields| == 6
  {
    match (DecodeText(fields[0]), DecodeText(fields[1]), DecodeText(fields[2]),
           DecodeOptional(fields[3]), DecodeOptional(fields[4]), DecodeNumber(fields[5]))
    case (Some(id), Some(role), Some(tokenType), Some(email), Some(name), Some(exp)) =>
      Some(Decoded(Claims(id, role, tokenType, email, name), exp))
    case _ => None
  }

  lemma DecodeClaimFields(c: Claims, exp: nat)
    ensures DecodeClaims(ClaimFields(c, exp)) == Some(Decoded(c, exp))
  {
    DecodeEncodeText(c.id);
    DecodeEncodeText(c.role);
    DecodeEncodeText(c.tokenType);
    DecodeEncodeOptional(c.email);
    DecodeEncodeOptional(c.name);
    ParseDecimalString(exp);
  }

  lemma EncodeOptionalIsField(o: Option<string>)
    ensures IsField(EncodeOptional(o))
  {
    if o.Some? {
      EncodeTextIsField(o.value);
      assert EncodeOptional(o) == "s" + EncodeText(o.value);
    }
  }

  /** Every field of a token, the signature included, is over the field alphabet. */
  lemma TokenFieldsAreFields(c: Claims, exp: nat, signature: string)
    ensures var all := ClaimFields(c, exp) + [EncodeText(signature)];
            forall k :: 0 <= k < |all| ==> IsField(all[k])
  {
    EncodeTextIsField(c.id);
    EncodeTextIsField(c.role);
    EncodeTextIsField(c.tokenType);
    EncodeTextIsField(signature);
    EncodeOptionalIsField(c.email);
    EncodeOptionalIsField(c.name);
    assert AllDigits(DecimalString(exp));
  }

  lemma FieldsAvoid(all: seq<string>, c: char)
    requires !FieldChar(c)
    requires forall k :: 0 <= k < |all| ==> IsField(all[k])
    ensures forall k :: 0 <= k < |all| ==> c !in all[k]
  {
  }

  function Signature(h: JwtHandler, body: string): string
  {
    EncodeText(h.mac(h.secret, body))
  }

  /** The token the handler signs for `c` at time `now`. */
  function SignWith(h: JwtHandler, c: Claims, now: nat): string
  {
    var fields := ClaimFields(c, now / 1000 + h.lifetime);
    Join(fields + [Signature(h, Join(fields, '.'))], '.')
  }

  /** Well-formedness and signature check of a token under a handler's secret. */
  function Decode(h: JwtHandler, token: string): Option<Decoded>
  {
    var parts := Split(token, '.');
    if |parts| != 7 || parts[6] != Signature(h, Join(parts[..6], '.')) then None
    else DecodeClaims(parts[..6])
  }

  /** `handler.verify(token)`: decodes, then rejects a token whose `exp` has passed. */
  function VerifyWith(h: JwtHandler, token: string, now: nat): (r: Result<Claims, AppError>)
    ensures r.Err? ==> r.error == VerifyFailure
    ensures r.Ok? <==> Decode(h, token).Some? && now / 1000 < Decode(h, token).value.exp
    ensures r.Ok? ==> r.value == Decode(h, token).value.claims
  {
    match Decode(h, token)
    case None => Err(VerifyFailure)
    case Some(d) => if now / 1000 < d.exp then Ok(d.claims) else Err(VerifyFailure)
  }

  /** Handlers that agree on the secret and the MAC accept each other's tokens. */
  ghost predicate SameKey(a: JwtHandler, b: JwtHandler) {
    a.secret == b.secret && a.mac == b.mac
  }

  /** A signed token decodes, under any handler with the same key, to its claims and its expiry. */
  lemma DecodeSigned(h: JwtHandler, other: JwtHandler, c: Claims, now: nat)
    requires SameKey(h, other)
    ensures Decode(other, SignWith(h, c, now)) == Some(Decoded(c, now / 1000 + h.lifetime))
  {
    var exp := now / 1000 + h.lifetime;
    var fields := ClaimFields(c, exp);
    var all := fields + [Signature(h, Join(fields, '.'))];
    TokenFieldsAreFields(c, exp, h.mac(h.secret, Join(fields, '.')));
    FieldsAvoid(all, '.');
    SplitJoin(all, '.');
    var parts := Split(SignWith(h, c, now), '.');
    assert parts == all;
    assert parts[..6] == fields;
    assert parts[6] == Signature(other, Join(fields, '.'));
    DecodeClaimFields(c, exp);
    assert Decode(other, SignWith(h, c, now)) == DecodeClaims(fields);
  }

  /**
   * Round trip: a token verifies, under any handler with the same key, to the
   * claims it was signed with exactly while its own lifetime has not run out.
   */
  lemma SignThenVerify(h: JwtHandler, other: JwtHandler, c: Claims, now: nat, later: nat)
    requires SameKey(h, other)
    ensures VerifyWith(other, SignWith(h, c, now), later)
            == if later / 1000 < now / 1000 + h.lifetime then Ok(c) else Err(VerifyFailure)
  {
    DecodeSigned(h, other, c, now);
  }

  /** Tokens signed by a handler are non-empty and contain no space, so one fits a `Bearer <token>` header. */
  lemma SignedHasNoSpace(h: JwtHandler, c: Claims, now: nat)
    ensures ' ' !in SignWith(h, c, now)
    ensures SignWith(h, c, now) != ""
  {
    var exp := now / 1000 + h.lifetime;
    var fields := ClaimFields(c, exp);
    var all := fields + [Signature(h, Join(fields, '.'))];
    TokenFieldsAreFields(c, exp, h.mac(h.secret, Join(fields, '.')));
    FieldsAvoid(all, ' ');
    JoinAvoids(all, '.', ' ');
    assert Join(all, '.') == all[0] + ['.'] + Join(all[1..], '.');
  }

  /** The lifetime `sign` picks: the session handler's for `type == "login"`, the verification handler's otherwise. */
  function LifetimeFor(tokenType: string): nat
  {
    if tokenType == "login" then SessionLifetime else VerificationLifetime
  }

  /**
   * JWTProvider: two handlers over one secret, built once. `sign` picks a
   * handler by the `type` claim; `verify` always goes through the
   * verification handler.
   */
  class JWTProvider {
    const verificationHandler: JwtHandler
    const sessionHandler: JwtHandler

    ghost predicate Valid() {
      && SameKey(verificationHandler, sessionHandler)
      && verificationHandler.lifetime == VerificationLifetime
      && sessionHandler.lifetime == SessionLifetime
    }

    /** The constructor body after the `JWT_SECRET` check. */
    constructor (secret: string, mac: Mac)
      requires secret != ""
      ensures Valid() && verificationHandler.secret == secret && verificationHandler.mac == mac
    {
      verificationHandler := JwtHandler(secret, VerificationLifetime, mac);
      sessionHandler := JwtHandler(secret, SessionLifetime, mac);
    }

    /** `sign(payload)`: a token carrying the claims and expiring `LifetimeFor(type)` seconds after `now`. */
    function Sign(c: Claims, now: nat): (token: string)
      requires Valid()
      ensures Decode(verificationHandler, token) == Some(Decoded(c, now / 1000 + LifetimeFor(c.tokenType)))
      ensures ' ' !in token && token != ""
    {
      var h := if c.tokenType == "login" then sessionHandler else verificationHandler;
      DecodeSigned(h, verificationHandler, c, now);
      SignedHasNoSpace(h, c, now);
      SignWith(h, c, now)
    }

    /** `verify(token)`: every failure becomes JWTError("Error verifying JWT"). */
    function Verify(token: string, now: nat): (r: Result<Claims, AppError>)
      ensures r.Err? ==> r.error == JWTError("Error verifying JWT")
      ensures r.Ok? <==> Decode(verificationHandler, token).Some? && now / 1000 < Decode(verificationHandler, token).value.exp
      ensures r.Ok? ==> r.value == Decode(verificationHandler, token).value.claims
    {
      VerifyWith(verificationHandler, token, now)
    }
  }

  /** The provider verifies its own tokens to their claims until their own lifetime ends, whatever their type. */
  lemma ProviderRoundTrip(p: JWTProvider, c: Claims, now: nat, later: nat)
    requires p.Valid()
    ensures p.Verify(p.Sign(c, now), later)
            == if later / 1000 < now / 1000 + LifetimeFor(c.tokenType) then Ok(c) else Err(JWTError("Error verifying JWT"))
  {
  }

  /** A "login" token outlives every other token signed at the same instant by 7d - 1h. */
  lemma LoginOutlivesOthers(p: JWTProvider, user: Claims, other: Claims, now: nat, later: nat)
    requires p.Valid()
    requires user.tokenType == "login" && other.tokenType != "login"
    requires now / 1000 + VerificationLifetime <= later / 1000 < now / 1000 + SessionLifetime
    ensures p.Verify(p.Sign(user, now), later) == Ok(user)
    ensures p.Verify(p.Sign(other, now), later).Err?
  {
    ProviderRoundTrip(p, user, now, later);
    ProviderRoundTrip(p, other, now, later);
  }

  /** The constructor: refuses to build a provider when `JWT_SECRET` is unset or empty. */
  method NewJWTProvider(jwtSecret: Option<string>, mac: Mac) returns (r: Result<JWTProvider, string>)
    ensures r.Err? <==> jwtSecret == None || jwtSecret == Some("")
    ensures r.Err? ==> r.error == "JWT_SECRET is not defined"
    ensures r.Ok? ==> r.value.Valid() && r.value.verificationHandler.secret == jwtSecret.value
  {
    if jwtSecret == None || jwtSecret == Some("") {
      return Err("JWT_SECRET is not defined");
    }
    var p := new JWTProvider(jwtSecret.value, mac);
    r := Ok(p);
  }
}

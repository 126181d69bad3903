/** Game tokens: base64url(payload) "." base64url(HMAC), of internal/matchmaking/token.go. */
module Tokens {
  import opened Base

  // ----- base64url without padding (RFC 4648, sections 5 and 3.2) -----

  type Sextet = x: int | 0 <= x < 64

  function Symbol(v: Sextet): char {
    if v < 26 then 'A' + v as char
    else if v < 52 then 'a' + (v - 26) as char
    else if v < 62 then '0' + (v - 52) as char
    else if v == 62 then '-' else '_'
  }

  function ValueOf(c: char): Option<Sextet> {
    if 'A' <= c <= 'Z' then Some(c as int - 'A' as int)
    else if 'a' <= c <= 'z' then Some(c as int - 'a' as int + 26)
    else if '0' <= c <= '9' then Some(c as int - '0' as int + 52)
    else if c == '-' then Some(62)
    else if c == '_' then Some(63)
    else None
  }

  // the four sextets of three bytes, and the three bytes of four sextets
  function First(x: Byte): Sextet { x / 4 }
  function Second(x: Byte, y: Byte): Sextet { x % 4 * 16 + y / 16 }
  function Third(y: Byte, z: Byte): Sextet { y % 16 * 4 + z / 64 }
  function Fourth(z: Byte): Sextet { z % 64 }
  function High(v0: Sextet, v1: Sextet): Byte { (v0 as int) * 4 + v1 / 16 }
  function Middle(v1: Sextet, v2: Sextet): Byte { (v1 as int) % 16 * 16 + v2 / 4 }
  function Low(v2: Sextet, v3: Sextet): Byte { (v2 as int) % 4 * 64 + v3 }

  function EncodeToString(b: Bytes): string {
    if b == [] then ""
    else if |b| == 1 then [Symbol(First(b[0])), Symbol(Second(b[0], 0))]
    else if |b| == 2 then [Symbol(First(b[0])), Symbol(Second(b[0], b[1])), Symbol(Third(b[1], 0))]
    else
      [Symbol(First(b[0])), Symbol(Second(b[0], b[1])), Symbol(Third(b[1], b[2])), Symbol(Fourth(b[2]))]
      + EncodeToString(b[3..])
  }

  /** DecodeString of Go's RawURLEncoding: line breaks are skipped, left-over bits are not looked at. */
  function DecodeString(s: string): Option<Bytes> {
    DecodeDigits(WithoutBreaks(s))
  }

  function WithoutBreaks(s: string): string {
    if s == "" then ""
    else if s[0] == '\r' || s[0] == '\n' then WithoutBreaks(s[1..])
    else [s[0]] + WithoutBreaks(s[1..])
  }

  function DecodeDigits(s: string): Option<Bytes> {
    if s == "" then Some([])
    else if |s| == 1 || ValueOf(s[0]).None? || ValueOf(s[1]).None? then None
    else
      var v0, v1 := ValueOf(s[0]).value, ValueOf(s[1]).value;
      if |s| == 2 then Some([High(v0, v1)])
      else if ValueOf(s[2]).None? then None
      else
        var v2 := ValueOf(s[2]).value;
        if |s| == 3 then Some([High(v0, v1), Middle(v1, v2)])
        else if ValueOf(s[3]).None? then None
        else
          var rest := DecodeDigits(s[4..]);
          if rest.None? then None
          else Some([High(v0, v1), Middle(v1, v2), Low(v2, ValueOf(s[3]).value)] + rest.value)
  }

  lemma SymbolValue(v: Sextet)
    ensures ValueOf(Symbol(v)) == Some(v)
    ensures Symbol(v) != '.' && Symbol(v) != '\r' && Symbol(v) != '\n'
  {
  }

  /** Only symbols of the alphabet: no dot, no line break. */
  predicate Plain(s: string) {
    forall i :: 0 <= i < |s| ==> s[i] != '.' && s[i] != '\r' && s[i] != '\n'
  }

  lemma {:induction false} EncodingIsPlain(b: Bytes)
    ensures Plain(EncodeToString(b))
  {
    if |b| >= 3 {
      EncodingIsPlain(b[3..]);
    }
  }

  lemma {:induction false} PlainHasNoBreaks(s: string)
    requires Plain(s)
    ensures WithoutBreaks(s) == s
  {
    if s != "" {
      PlainHasNoBreaks(s[1..]);
    }
  }

  lemma Group(x: Byte, y: Byte, z: Byte)
    ensures High(First(x), Second(x, y)) == x
    ensures Middle(Second(x, y), Third(y, z)) == y
    ensures Low(Third(y, z), Fourth(z)) == z
  {
  }

  lemma DecodeFour(s: string, x: Byte, y: Byte, z: Byte, rest: Bytes)
    requires |s| >= 4 && s[0] == Symbol(First(x)) && s[1] == Symbol(Second(x, y))
    requires s[2] == Symbol(Third(y, z)) && s[3] == Symbol(Fourth(z)) && DecodeDigits(s[4..]) == Some(rest)
    ensures DecodeDigits(s) == Some([x, y, z] + rest)
  {
    SymbolValue(First(x));
    SymbolValue(Second(x, y));
    SymbolValue(Third(y, z));
    SymbolValue(Fourth(z));
    Group(x, y, z);
  }

  lemma DecodeThree(s: string, x: Byte, y: Byte)
    requires s == [Symbol(First(x)), Symbol(Second(x, y)), Symbol(Third(y, 0))]
    ensures DecodeDigits(s) == Some([x, y])
  {
    SymbolValue(First(x));
    SymbolValue(Second(x, y));
    SymbolValue(Third(y, 0));
    Group(x, y, 0);
  }

  lemma DecodeTwo(s: string, x: Byte)
    requires s == [Symbol(First(x)), Symbol(Second(x, 0))]
    ensures DecodeDigits(s) == Some([x])
  {
  }

  lemma EncodeParts(b: Bytes)
    requires |b| >= 3
    ensures var s := EncodeToString(b);
            && |s| >= 4 && s[0] == Symbol(First(b[0])) && s[1] == Symbol(Second(b[0], b[1]))
            && s[2] == Symbol(Third(b[1], b[2])) && s[3] == Symbol(Fourth(b[2])) && s[4..] == EncodeToString(b[3..])
  {
  }

  lemma {:induction false} DigitsRoundTrip(b: Bytes)
    ensures DecodeDigits(EncodeToString(b)) == Some(b)
  {
    if |b| >= 3 {
      DigitsRoundTrip(b[3..]);
      EncodeParts(b);
      DecodeFour(EncodeToString(b), b[0], b[1], b[2], b[3..]);
      assert b == [b[0], b[1], b[2]] + b[3..];
    } else if |b| == 2 {
      DecodeThree(EncodeToString(b), b[0], b[1]);
      assert b == [b[0], b[1]];
    } else if |b| == 1 {
      DecodeTwo(EncodeToString(b), b[0]);
      assert b == [b[0]];
    }
  }

  lemma Base64RoundTrip(b: Bytes)
    ensures DecodeString(EncodeToString(b)) == Some(b)
  {
    EncodingIsPlain(b);
    PlainHasNoBreaks(EncodeToString(b));
    DigitsRoundTrip(b);
  }

  // ----- signing and verifying -----

  datatype Claims = Claims(matchId: Uuid, playerId: Uuid, exp: int)

  /** crypto/hmac with SHA-256, and encoding/json on tokenPayload. */
  datatype Crypto = Crypto(hmac: (string, string) -> Bytes,
                           marshal: Claims -> Bytes, unmarshal: Bytes -> Option<Claims>)

  ghost predicate JsonRoundTrips(c: Crypto) {
    forall x :: c.unmarshal(c.marshal(x)) == Some(x)
  }

  const TOKEN_TTL := 5 * 60 * SECOND

  /** Time.Unix: whole seconds, rounded down. */
  function Unix(t: int): int {
    t / SECOND
  }

  datatype SignResult = Signed(token: string, expires: int) | EmptySecret | ZeroUuid

  function Signature(c: Crypto, secret: string, payload: string): string {
    EncodeToString(c.hmac(payload, secret))
  }

  function SignGameToken(c: Crypto, secret: string, matchId: Uuid, playerId: Uuid, now: int): SignResult {
    if secret == "" then EmptySecret
    else if matchId == NIL || playerId == NIL then ZeroUuid
    else
      var exp := Unix(now + TOKEN_TTL);
      var payload := EncodeToString(c.marshal(Claims(matchId, playerId, exp)));
      Signed(payload + "." + Signature(c, secret, payload), exp * SECOND)
  }

  /** The parts before and after the last dot. */
  function Split(s: string): Option<(string, string)> {
    if s == "" then None
    else
      var n := |s| - 1;
      if s[n] == '.' then Some((s[..n], ""))
      else
        match Split(s[..n])
        case Some(parts) => Some((parts.0, parts.1 + [s[n]]))
        case None => None
  }

  method SplitToken(s: string) returns (parts: Option<(string, string)>)
    ensures parts == Split(s)
  {
    var i := |s|;
    while i > 0
      invariant 0 <= i <= |s| && '.' !in s[i..]
    {
      i := i - 1;
      if s[i] == '.' {
        SplitMeaning(s, s[..i], s[i + 1..]);
        assert s == s[..i] + "." + s[i + 1..];
        return Some((s[..i], s[i + 1..]));
      }
    }
    SplitNone(s);
    parts := None;
  }

  lemma {:induction false} SplitMeaning(s: string, a: string, b: string)
    ensures Split(s) == Some((a, b)) <==> s == a + "." + b && '.' !in b
  {
    if s != "" {
      var n := |s| - 1;
      if s[n] == '.' {
        if s == a + "." + b && b == "" {
          assert s[..n] == a;
        }
        assert s == a + "." + b && b != "" ==> b[|b| - 1] == s[n];
        if Split(s) == Some((a, b)) {
          assert s == s[..n] + "." + "";
        }
      } else {
        if b != "" {
          var m := |b| - 1;
          SplitMeaning(s[..n], a, b[..m]);
          assert b == b[..m] + [b[m]];
          if s == a + "." + b && '.' !in b {
            assert s[..n] == a + "." + b[..m];
          }
          if Split(s) == Some((a, b)) {
            var parts := Split(s[..n]).value;
            assert parts.1 == b[..m];
            assert s == s[..n] + [s[n]];
          }
        } else {
          assert a + "." + b == a + "." && (a + ".")[|a|] == '.';
        }
      }
    }
  }

  lemma {:induction false} SplitNone(s: string)
    ensures Split(s) == None <==> '.' !in s
  {
    if s != "" {
      SplitNone(s[..|s| - 1]);
      assert s == s[..|s| - 1] + [s[|s| - 1]];
    }
  }

  predicate VerifyHMAC(c: Crypto, secret: string, raw: string) {
    match Split(raw)
    case Some((payload, signature)) => signature == Signature(c, secret, payload)
    case None => false
  }

  datatype TokenError = ErrTokenInvalid | ErrTokenExpired | ErrTokenConsumed | ErrStore

  datatype Verdict = Valid(claims: Claims) | Refused(error: TokenError)

  /** AssignmentIsFresh as an answer to the claims of a token. */
  datatype Freshness = Fresh | Stale | StoreDown

  function VerifyGameToken(c: Crypto, secret: string, raw: string,
                           db: Option<(Uuid, Uuid) -> Freshness>, now: int): Verdict
  {
    var parts := Split(raw);
    if parts.None? || parts.value.1 != Signature(c, secret, parts.value.0) then Refused(ErrTokenInvalid)
    else
      var body := DecodeString(parts.value.0);
      if body.None? then Refused(ErrTokenInvalid)
      else
        var claims := c.unmarshal(body.value);
        if claims.None? then Refused(ErrTokenInvalid)
        else if Unix(now) > claims.value.exp then Refused(ErrTokenExpired)
        else if db.Some? then
          match db.value(claims.value.matchId, claims.value.playerId)
          case Fresh => Valid(claims.value)
          case Stale => Refused(ErrTokenInvalid)
          case StoreDown => Refused(ErrStore)
        else Valid(claims.value)
  }

  // ----- what acceptance means -----

  /** The HMAC check passes for exactly the strings made of a payload, a dot and the payload's signature. */
  lemma HmacExact(c: Crypto, secret: string, raw: string)
    ensures VerifyHMAC(c, secret, raw) <==>
            exists payload: string :: raw == payload + "." + Signature(c, secret, payload)
  {
    forall payload: string
      ensures Split(raw) == Some((payload, Signature(c, secret, payload))) <==>
              raw == payload + "." + Signature(c, secret, payload)
    {
      SplitMeaning(raw, payload, Signature(c, secret, payload));
      EncodingIsPlain(c.hmac(payload, secret));
    }
    if VerifyHMAC(c, secret, raw) {
      var payload := Split(raw).value.0;
      assert raw == payload + "." + Signature(c, secret, payload);
    }
  }

  /** The token is a payload and its signature, and the payload decodes to these claims. */
  ghost predicate Carries(c: Crypto, secret: string, raw: string, claims: Claims) {
    exists payload: string ::
      && raw == payload + "." + Signature(c, secret, payload)
      && DecodeString(payload).Some? && c.unmarshal(DecodeString(payload).value) == Some(claims)
  }

  /** Signing fails for an empty secret first, then for a nil id. */
  lemma SigningFails(c: Crypto, secret: string, matchId: Uuid, playerId: Uuid, now: int)
    ensures SignGameToken(c, secret, matchId, playerId, now) == EmptySecret <==> secret == ""
    ensures SignGameToken(c, secret, matchId, playerId, now) == ZeroUuid <==>
            secret != "" && (matchId == 0 || playerId == 0)
  {
  }

  /** Otherwise the token carries the ids and an expiry 300 s later, rounded down to a second, and gives that back. */
  lemma SigningCarries(c: Crypto, secret: string, matchId: Uuid, playerId: Uuid, now: int)
    requires JsonRoundTrips(c) && SignGameToken(c, secret, matchId, playerId, now).Signed?
    ensures var signed := SignGameToken(c, secret, matchId, playerId, now);
            exists exp :: 1_000_000_000 * exp <= now + 300_000_000_000 < 1_000_000_000 * (exp + 1) &&
              signed.expires == 1_000_000_000 * exp &&
              Carries(c, secret, signed.token, Claims(matchId, playerId, exp))
  {
    hide EncodeToString, DecodeString, Signature;
    var exp := Unix(now + TOKEN_TTL);
    var raw := c.marshal(Claims(matchId, playerId, exp));
    Base64RoundTrip(raw);
    var signed := SignGameToken(c, secret, matchId, playerId, now);
    assert signed.token == EncodeToString(raw) + "." + Signature(c, secret, EncodeToString(raw));
    assert Carries(c, secret, signed.token, Claims(matchId, playerId, exp));
  }

  /** Each answer of the verifier, with its exact condition on the token, the time and the table. */
  lemma VerdictExact(c: Crypto, secret: string, raw: string, db: Option<(Uuid, Uuid) -> Freshness>, now: int,
                     claims: Claims)
    ensures var verdict := VerifyGameToken(c, secret, raw, db, now);
            var row := if db.Some? then db.value(claims.matchId, claims.playerId) else Fresh;
            && (verdict == Valid(claims) <==>
                  Carries(c, secret, raw, claims) && now / 1_000_000_000 <= claims.exp && row == Fresh)
            && (Carries(c, secret, raw, claims) ==>
                  verdict == if now / 1_000_000_000 > claims.exp then Refused(ErrTokenExpired)
                             else if row == Fresh then Valid(claims)
                             else if row == Stale then Refused(ErrTokenInvalid) else Refused(ErrStore))
    ensures (forall any :: !Carries(c, secret, raw, any)) ==>
              VerifyGameToken(c, secret, raw, db, now) == Refused(ErrTokenInvalid)
  {
    CarriesExactly(c, secret, raw, claims);
    var parts := Split(raw);
    if parts.Some? && DecodeString(parts.value.0).Some? && c.unmarshal(DecodeString(parts.value.0).value).Some? {
      CarriesExactly(c, secret, raw, c.unmarshal(DecodeString(parts.value.0).value).value);
    }
  }

  lemma CarriesExactly(c: Crypto, secret: string, raw: string, claims: Claims)
    ensures Carries(c, secret, raw, claims) <==>
            && VerifyHMAC(c, secret, raw) && DecodeString(Split(raw).value.0).Some?
            && c.unmarshal(DecodeString(Split(raw).value.0).value) == Some(claims)
  {
    forall payload: string
      ensures Split(raw) == Some((payload, Signature(c, secret, payload))) <==>
              raw == payload + "." + Signature(c, secret, payload)
    {
      SplitMeaning(raw, payload, Signature(c, secret, payload));
      EncodingIsPlain(c.hmac(payload, secret));
    }
    if VerifyHMAC(c, secret, raw) {
      var payload := Split(raw).value.0;
      assert raw == payload + "." + Signature(c, secret, payload);
    }
  }

  /** A signed token falls apart again into its payload, which holds its claims, and its signature. */
  lemma SignedTokenParts(c: Crypto, secret: string, matchId: Uuid, playerId: Uuid, at: int)
    requires JsonRoundTrips(c) && SignGameToken(c, secret, matchId, playerId, at).Signed?
    ensures var token := SignGameToken(c, secret, matchId, playerId, at).token;
            && VerifyHMAC(c, secret, token)
            && DecodeString(Split(token).value.0) == Some(c.marshal(Claims(matchId, playerId, Unix(at + TOKEN_TTL))))
  {
    var payload := EncodeToString(c.marshal(Claims(matchId, playerId, Unix(at + TOKEN_TTL))));
    var signature := Signature(c, secret, payload);
    EncodingIsPlain(c.hmac(payload, secret));
    SplitMeaning(payload + "." + signature, payload, signature);
    Base64RoundTrip(c.marshal(Claims(matchId, playerId, Unix(at + TOKEN_TTL))));
  }

  /**
   * A token signed at one time and verified at another is accepted, with the match and player it was
   * signed for, exactly while the clock's whole second is not after the claimed one: always up to an age
   * of the TTL, never from an age of TTL + 1 s, and in all other cases it is rejected as expired.
   */
  lemma AcceptanceExact(c: Crypto, secret: string, matchId: Uuid, playerId: Uuid, at: int, now: int)
    requires JsonRoundTrips(c) && SignGameToken(c, secret, matchId, playerId, at).Signed?
    ensures var verdict := VerifyGameToken(c, secret, SignGameToken(c, secret, matchId, playerId, at).token, None, now);
            && (if now / 1_000_000_000 <= (at + 300_000_000_000) / 1_000_000_000
                then verdict.Valid? && verdict.claims.matchId == matchId && verdict.claims.playerId == playerId
                else verdict == Refused(ErrTokenExpired))
            && (now - at <= 300_000_000_000 ==> verdict.Valid?)
            && (now - at >= 301_000_000_000 ==> verdict == Refused(ErrTokenExpired))
  {
    SignedTokenParts(c, secret, matchId, playerId, at);
  }

  /**
   * The row of an assignment expires at the whole second that the token claims: a row that is fresh has
   * an age of at most the TTL, and its token is then not expired.
   */
  lemma RowFreshnessIsStricter(c: Crypto, secret: string, matchId: Uuid, playerId: Uuid, at: int, now: int)
    requires JsonRoundTrips(c) && SignGameToken(c, secret, matchId, playerId, at).Signed?
    requires now <= SignGameToken(c, secret, matchId, playerId, at).expires
    ensures now - at <= 300_000_000_000
    ensures VerifyGameToken(c, secret, SignGameToken(c, secret, matchId, playerId, at).token, None, now).Valid?
  {
    AcceptanceExact(c, secret, matchId, playerId, at, now);
  }
}

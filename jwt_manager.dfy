/** Token issuing and classification (the `JwtGenerator` class of
    Auth/Services/JwtManager.cs). The class holds configuration and a date
    provider and mutates nothing, so it is modelled as functions over a
    configuration value; the current instant is a parameter. */
module Jwt {
  import opened Wrappers
  import opened Text
  import opened Models

  /** `ClaimTypes.Name`. */
  const NameClaimType: string := "http://schemas.xmlsoap.org/ws/2005/05/identity/claims/name"
  /** `JwtRegisteredClaimNames.Jti`. */
  const JtiClaimType: string := "jti"
  /** `SecurityAlgorithms.HmacSha256`. */
  const HmacSha256: string := "HS256"

  const SecondsPerMinute: int := 60

  datatype Claim = Claim(claimType: string, value: string)

  /** A symmetric key built from the UTF-8 bytes of the configured secret. */
  datatype SigningKey = SymmetricKey(secret: string)

  datatype SigningCredentials = SigningCredentials(key: SigningKey, algorithm: string)

  /** A parsed or freshly built token. `signingCredentials` is `None` where
      the token object carries no credentials. */
  datatype SecurityToken = SecurityToken(
    claims: seq<Claim>,
    issuer: string,
    audiences: seq<string>,
    validTo: Instant,
    signingCredentials: Option<SigningCredentials>)

  /** The "Jwt:..." configuration entries, as the raw strings the program reads. */
  datatype JwtSettings = JwtSettings(
    secret: string,
    issuer: string,
    audience: string,
    tokenValidityInMinutes: string,
    tokenValidityCheckPeriodInSeconds: string)

  /** Token serialisation, left uninterpreted: `write` is `WriteToken`,
      `read` is `ReadJwtToken` and gives `None` when that throws. */
  datatype TokenHandler = TokenHandler(
    write: SecurityToken -> string,
    read: string -> Option<SecurityToken>)

  /** The generator's collaborators. `keyMatches(k)` is the outcome of
      comparing a token's key `k` with the key object that the classifier
      builds afresh from the secret; the model does not interpret it. */
  datatype JwtGenerator = JwtGenerator(
    configuration: JwtSettings,
    handler: TokenHandler,
    keyMatches: SigningKey -> bool)

  /** The value of the first claim of the given type (`FirstOrDefault`),
      `None` when there is none. */
  function FirstClaimValue(claims: seq<Claim>, claimType: string): (r: Option<string>)
    ensures r.None? <==> forall i :: 0 <= i < |claims| ==> claims[i].claimType != claimType
  {
    if claims == [] then None
    else if claims[0].claimType == claimType then Some(claims[0].value)
    else FirstClaimValue(claims[1..], claimType)
  }

  /** A found value belongs to the first claim of that type. */
  lemma {:induction false} FirstClaimValueIsFirst(claims: seq<Claim>, claimType: string)
    requires FirstClaimValue(claims, claimType).Some?
    ensures exists i :: 0 <= i < |claims| && claims[i] == Claim(claimType, FirstClaimValue(claims, claimType).value)
                        && forall j :: 0 <= j < i ==> claims[j].claimType != claimType
  {
    if claims[0].claimType != claimType {
      var rest := claims[1..];
      FirstClaimValueIsFirst(rest, claimType);
      var i :| 0 <= i < |rest| && rest[i] == Claim(claimType, FirstClaimValue(rest, claimType).value)
               && forall j :: 0 <= j < i ==> rest[j].claimType != claimType;
      assert claims[i + 1] == rest[i];
      assert forall j :: 1 <= j < i + 1 ==> claims[j] == rest[j - 1];
    } else {
      assert claims[0] == Claim(claimType, FirstClaimValue(claims, claimType).value);
    }
  }

  /** The configured validity window: 0 when the entry does not parse. */
  function TokenValidityInMinutes(settings: JwtSettings): int {
    match ParseInt32(settings.tokenValidityInMinutes)
    case Some(n) => n
    case None => 0
  }

  /** The claims a login token carries: the user's name and a token id. */
  function AuthClaims(username: string, jti: string): seq<Claim> {
    [Claim(NameClaimType, username), Claim(JtiClaimType, jti)]
  }

  /** `CreateToken`: issuer and audience from the configuration, expiry the
      configured number of minutes after `now`, signed with HMAC-SHA256. */
  function CreateToken(settings: JwtSettings, claims: seq<Claim>, now: Instant): SecurityToken {
    SecurityToken(
      claims,
      settings.issuer,
      [settings.audience],
      now + SecondsPerMinute * TokenValidityInMinutes(settings),
      Some(SigningCredentials(SymmetricKey(settings.secret), HmacSha256)))
  }

  /** `GenerateToken`; `jti` stands for the fresh GUID and `refreshToken`
      for the encoded random bytes. */
  function GenerateToken(g: JwtGenerator, username: string, now: Instant, jti: string,
                         refreshToken: string): JwtTokenInfo
  {
    var token := CreateToken(g.configuration, AuthClaims(username, jti), now);
    JwtTokenInfo(g.handler.write(token), refreshToken, token.validTo)
  }

  /** `GetTokenValidityCheckPeriod`, `None` where `int.Parse` throws. */
  function GetTokenValidityCheckPeriod(g: JwtGenerator): Option<int> {
    ParseInt32(g.configuration.tokenValidityCheckPeriodInSeconds)
  }

  /** `RefreshToken`: read the token and write it out again, passing the
      refresh string through. `None` where reading throws. */
  function RefreshToken(g: JwtGenerator, token: string, refreshToken: string): Option<JwtTokenInfo> {
    match g.handler.read(token)
    case None => None
    case Some(parsed) => Some(JwtTokenInfo(g.handler.write(parsed), refreshToken, parsed.validTo))
  }

  /** Step 1 rejects: the key comparison fails or the algorithm is not HMAC-SHA256. */
  predicate SignatureRejected(g: JwtGenerator, c: SigningCredentials) {
    !g.keyMatches(c.key) || c.algorithm != HmacSha256
  }

  /** Step 2 rejects: the first name claim is absent or names someone else. */
  predicate NameRejected(t: SecurityToken, username: string) {
    FirstClaimValue(t.claims, NameClaimType) != Some(username)
  }

  /** Step 3 rejects, as written: the audiences contain the configured
      ISSUER and the issuer is the configured AUDIENCE. */
  predicate IssuerAudienceRejected(settings: JwtSettings, t: SecurityToken) {
    settings.issuer in t.audiences && t.issuer == settings.audience
  }

  /** The four checks on a parsed token, in order. `None` where the token has
      no signing credentials, so that reading their key throws. */
  function Classify(g: JwtGenerator, t: SecurityToken, username: string, now: Instant): (r: Option<JwtTokenStatus>)
    ensures r.None? <==> t.signingCredentials.None?
  {
    match t.signingCredentials
    case None => None
    case Some(c) =>
      if SignatureRejected(g, c) then Some(Invalid)
      else if NameRejected(t, username) then Some(Invalid)
      else if IssuerAudienceRejected(g.configuration, t) then Some(Invalid)
      else if t.validTo < now then Some(Expired)
      else Some(Valid)
  }

  /** `ValidateToken`: parse, then classify. `None` where it throws. */
  function ValidateToken(g: JwtGenerator, token: string, username: string, now: Instant): Option<JwtTokenStatus> {
    match g.handler.read(token)
    case None => None
    case Some(t) => Classify(g, t, username, now)
  }

  // ---------------------------------------------------------------------
  // Properties of the classifier
  // ---------------------------------------------------------------------

  /** A token that cannot be read, or that carries no credentials, makes the
      classifier throw rather than answer. */
  lemma UnreadableTokenThrows(g: JwtGenerator, token: string, username: string, now: Instant)
    requires g.handler.read(token).None? || g.handler.read(token).value.signingCredentials.None?
    ensures ValidateToken(g, token, username, now).None?
  {
  }

  /** The classifier answers exactly when the token reads and carries credentials. */
  lemma ClassifierAnswersIffCredentials(g: JwtGenerator, token: string, username: string, now: Instant)
    ensures ValidateToken(g, token, username, now).Some?
        <==> g.handler.read(token).Some? && g.handler.read(token).value.signingCredentials.Some?
  {
  }

  /** A failed signature step gives Invalid whatever the claims, issuer,
      audiences and expiry. */
  lemma SignatureCheckedFirst(g: JwtGenerator, t: SecurityToken, username: string, now: Instant)
    requires t.signingCredentials.Some? && SignatureRejected(g, t.signingCredentials.value)
    ensures Classify(g, t, username, now) == Some(Invalid)
    ensures forall later: Instant :: Classify(g, t.(validTo := later), username, now) == Some(Invalid)
  {
  }

  /** With the signature step passed, a missing or foreign first name claim
      gives Invalid whatever the later claims and the expiry. */
  lemma NameClaimCheckedSecond(g: JwtGenerator, t: SecurityToken, username: string, now: Instant)
    requires t.signingCredentials.Some? && !SignatureRejected(g, t.signingCredentials.value)
    requires FirstClaimValue(t.claims, NameClaimType) != Some(username)
    ensures Classify(g, t, username, now) == Some(Invalid)
    ensures forall later: Instant :: Classify(g, t.(validTo := later), username, now) == Some(Invalid)
  {
  }

  /** In particular, a token none of whose name claims names the user is Invalid. */
  lemma NoNameClaimForUserIsInvalid(g: JwtGenerator, t: SecurityToken, username: string, now: Instant)
    requires t.signingCredentials.Some? && !SignatureRejected(g, t.signingCredentials.value)
    requires forall i :: 0 <= i < |t.claims| && t.claims[i].claimType == NameClaimType ==>
               t.claims[i].value != username
    ensures Classify(g, t, username, now) == Some(Invalid)
  {
    var r := FirstClaimValue(t.claims, NameClaimType);
    if r.Some? {
      FirstClaimValueIsFirst(t.claims, NameClaimType);
      var i :| 0 <= i < |t.claims| && t.claims[i] == Claim(NameClaimType, r.value)
               && forall j :: 0 <= j < i ==> t.claims[j].claimType != NameClaimType;
      assert r.value != username;
    }
    NameClaimCheckedSecond(g, t, username, now);
  }

  /** Only the first name claim counts: a token naming "alice" first and
      "bob" second is Invalid for "bob" and passes the name step for "alice". */
  lemma FirstNameClaimDecides(g: JwtGenerator, t: SecurityToken, now: Instant)
    requires t.signingCredentials.Some? && !SignatureRejected(g, t.signingCredentials.value)
    requires t.claims == [Claim(NameClaimType, "alice"), Claim(NameClaimType, "bob")]
    ensures Classify(g, t, "bob", now) == Some(Invalid)
    ensures !NameRejected(t, "alice")
  {
    assert FirstClaimValue(t.claims, NameClaimType) == Some("alice");
    NameClaimCheckedSecond(g, t, "bob", now);
  }

  /** With the first two steps passed, the issuer/audience step rejects
      exactly when the audiences contain the configured issuer and the
      token's issuer is the configured audience. */
  lemma IssuerAudienceCheckedThird(g: JwtGenerator, t: SecurityToken, username: string, now: Instant)
    requires t.signingCredentials.Some? && !SignatureRejected(g, t.signingCredentials.value)
    requires !NameRejected(t, username)
    ensures Classify(g, t, username, now) == Some(Invalid)
        <==> g.configuration.issuer in t.audiences && t.issuer == g.configuration.audience
  {
  }

  /** Once the first three steps pass, the token is Expired exactly when its
      expiry lies strictly before `now`, and Valid otherwise: a token is still
      Valid at the instant it expires. */
  lemma ExpiryCheckedLast(g: JwtGenerator, t: SecurityToken, username: string, now: Instant)
    requires t.signingCredentials.Some? && !SignatureRejected(g, t.signingCredentials.value)
    requires !NameRejected(t, username) && !IssuerAudienceRejected(g.configuration, t)
    ensures Classify(g, t, username, now) == (if t.validTo < now then Some(Expired) else Some(Valid))
  {
  }

  /** Valid means every step passed; Expired means every step but the last passed. */
  lemma ClassificationMeaning(g: JwtGenerator, t: SecurityToken, username: string, now: Instant)
    ensures Classify(g, t, username, now) == Some(Valid) <==>
      && t.signingCredentials.Some? && !SignatureRejected(g, t.signingCredentials.value)
      && FirstClaimValue(t.claims, NameClaimType) == Some(username)
      && !IssuerAudienceRejected(g.configuration, t)
      && now <= t.validTo
    ensures Classify(g, t, username, now) == Some(Expired) <==>
      && t.signingCredentials.Some? && !SignatureRejected(g, t.signingCredentials.value)
      && FirstClaimValue(t.claims, NameClaimType) == Some(username)
      && !IssuerAudienceRejected(g.configuration, t)
      && t.validTo < now
  {
  }

  /** The issuer/audience step compares the configured names crosswise and
      rejects only when both comparisons hold: a token whose issuer is not the
      configured audience passes it, whatever its audiences, and so does a
      token whose audiences leave out the configured issuer, whatever its
      issuer. The crosswise pair is rejected; the configured pair passes. */
  lemma IssuerAudienceSwapped(g: JwtGenerator, t: SecurityToken)
    requires g.configuration.issuer != g.configuration.audience
    ensures t.issuer != g.configuration.audience ==> !IssuerAudienceRejected(g.configuration, t)
    ensures g.configuration.issuer !in t.audiences ==> !IssuerAudienceRejected(g.configuration, t)
    ensures IssuerAudienceRejected(g.configuration,
              t.(issuer := g.configuration.audience, audiences := [g.configuration.issuer]))
    ensures !IssuerAudienceRejected(g.configuration,
               t.(issuer := g.configuration.issuer, audiences := [g.configuration.audience]))
  {
  }

  // ---------------------------------------------------------------------
  // Properties of issuing and refreshing
  // ---------------------------------------------------------------------

  /** A generated token carries exactly the name and token-id claims, the
      configured issuer and audience, and expires the configured number of
      minutes (0 when the entry does not parse) after `now`. */
  lemma GeneratedTokenContents(g: JwtGenerator, username: string, now: Instant, jti: string, refreshToken: string)
    ensures var info := GenerateToken(g, username, now, jti, refreshToken);
            var t := CreateToken(g.configuration, AuthClaims(username, jti), now);
            && info.token == g.handler.write(t)
            && info.refreshToken == refreshToken
            && t.claims == [Claim(NameClaimType, username), Claim(JtiClaimType, jti)]
            && t.issuer == g.configuration.issuer
            && t.audiences == [g.configuration.audience]
            && t.signingCredentials == Some(SigningCredentials(SymmetricKey(g.configuration.secret), HmacSha256))
            && info.tokenValidTo == t.validTo
            && (ParseInt32(g.configuration.tokenValidityInMinutes).None? ==> t.validTo == now)
            && (ParseInt32(g.configuration.tokenValidityInMinutes).Some? ==>
                  t.validTo == now + SecondsPerMinute * ParseInt32(g.configuration.tokenValidityInMinutes).value)
  {
  }

  /** A window configured as the printed form of `n` minutes makes the token
      expire `60 * n` seconds after `now`. */
  lemma ConfiguredWindow(g: JwtGenerator, n: int, username: string, now: Instant, jti: string, refreshToken: string)
    requires MinInt32 <= n <= MaxInt32
    requires g.configuration.tokenValidityInMinutes == FormatInt(n)
    ensures GenerateToken(g, username, now, jti, refreshToken).tokenValidTo == now + SecondsPerMinute * n
  {
    ParseFormatRoundTrip(n);
  }

  /** A freshly generated token, read back unchanged and classified for its
      own user at its creation instant with the key comparison passing, is
      Valid exactly when the window is not negative and the configured issuer
      and audience differ; otherwise it is Invalid or Expired. */
  lemma FreshTokenClassification(g: JwtGenerator, username: string, now: Instant, jti: string, refreshToken: string)
    requires var t := CreateToken(g.configuration, AuthClaims(username, jti), now);
             g.handler.read(g.handler.write(t)) == Some(t)
    requires g.keyMatches(SymmetricKey(g.configuration.secret))
    ensures var info := GenerateToken(g, username, now, jti, refreshToken);
            var window := TokenValidityInMinutes(g.configuration);
            var valid := ValidateToken(g, info.token, username, now) == Some(Valid);
            valid <==> window >= 0 && g.configuration.issuer != g.configuration.audience
    ensures var info := GenerateToken(g, username, now, jti, refreshToken);
            g.configuration.issuer == g.configuration.audience ==>
              ValidateToken(g, info.token, username, now) == Some(Invalid)
  {
  }

  /** Refreshing re-serialises the token it reads: the refresh string passes
      through unchanged and the expiry stays that of the old token, so no new
      expiry is issued. */
  lemma RefreshKeepsToken(g: JwtGenerator, token: string, refreshToken: string)
    requires g.handler.read(token).Some?
    ensures var t := g.handler.read(token).value;
            RefreshToken(g, token, refreshToken) ==
              Some(JwtTokenInfo(g.handler.write(t), refreshToken, t.validTo))
  {
  }

  /** Where reading back a written token keeps its expiry, a token the
      classifier calls Expired stays unfit after a refresh: the refreshed
      token is never Valid at that instant or any later one, whatever the
      refresh string. */
  lemma {:induction false} RefreshedExpiredNeverValid(g: JwtGenerator, token: string, username: string,
                                                      now: Instant, later: Instant, refreshToken: string)
    requires forall t: SecurityToken :: g.handler.read(g.handler.write(t)).Some? &&
               g.handler.read(g.handler.write(t)).value.validTo == t.validTo
    requires ValidateToken(g, token, username, now) == Some(Expired)
    requires now <= later
    ensures RefreshToken(g, token, refreshToken).Some?
    ensures ValidateToken(g, RefreshToken(g, token, refreshToken).value.token, username, later) != Some(Valid)
  {
    var t := g.handler.read(token).value;
    var written := g.handler.write(t);
    ClassificationMeaning(g, t, username, now);
    var back := g.handler.read(written).value;
    assert back.validTo == t.validTo < later;
    ClassificationMeaning(g, back, username, later);
  }

  /** Where reading back a written token gives the same token, a refreshed
      Expired token is Expired again, at that instant and any later one. */
  lemma {:induction false} RefreshedExpiredStaysExpired(g: JwtGenerator, token: string, username: string,
                                                        now: Instant, later: Instant, refreshToken: string)
    requires forall t: SecurityToken :: g.handler.read(g.handler.write(t)) == Some(t)
    requires ValidateToken(g, token, username, now) == Some(Expired)
    requires now <= later
    ensures RefreshToken(g, token, refreshToken).Some?
    ensures ValidateToken(g, RefreshToken(g, token, refreshToken).value.token, username, later) == Some(Expired)
  {
    var t := g.handler.read(token).value;
    ClassificationMeaning(g, t, username, now);
    assert g.handler.read(g.handler.write(t)) == Some(t);
    ClassificationMeaning(g, t, username, later);
  }
}

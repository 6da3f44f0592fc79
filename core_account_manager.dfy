/** The account manager of Auth/Services/CoreAccountManager.cs: registration
    into the account store, login, and cache-assisted token validation with
    refresh on expiry. The class keeps the shared cache as a map and the
    in-memory account store as an object. Hashing and the repository's read
    queries are functions the model does not implement. */
module AccountManager {
  import opened Wrappers
  import opened Text
  import opened Models
  import opened Jwt
  import opened DataAccess
  import Validators

  const CacheKeyPrefix: string := "user_token:"

  /** The cache key under which a user's known-valid token is kept. */
  function CacheKey(username: string): string {
    CacheKeyPrefix + username
  }

  /** A cached string and the time to live it was stored with, in seconds. */
  datatype CacheEntry = CacheEntry(value: string, ttlSeconds: int)

  /** A cached value that is absent or blank counts as a miss. */
  predicate CacheHit(cache: map<string, CacheEntry>, key: string) {
    key in cache && !IsNullOrWhiteSpace(cache[key].value)
  }

  /** `MakeSalt` returns 128 bits. */
  const SaltLength: nat := 16

  type Salt = s: seq<byte> | |s| == SaltLength
    witness [0, 0, 0, 0, 0, 0, 0, 0, 0, 0, 0, 0, 0, 0, 0, 0]

  /** The collaborators whose code is not part of this model: `HashString`
      (deterministic), and the repository queries `GetUserSalt` (`None`
      where it throws), `ValidateUser` and `GetUserRefreshToken`. */
  datatype Collaborators = Collaborators(
    hashString: (string, seq<byte>) -> string,
    getUserSalt: string -> Option<seq<byte>>,
    validateUser: (string, string) -> bool,
    getUserRefreshToken: string -> string)

  /** How a run of `ValidateTokenAsync` ends: it returns a verdict, it
      throws, or it would go on to a round for which no clock reading is
      given. */
  datatype ValidationRun = Finished(valid: bool) | Raised | Unfinished

  /** Clock readings that never go backwards. */
  predicate NonDecreasing(clock: seq<Instant>) {
    forall i, j :: 0 <= i <= j < |clock| ==> clock[i] <= clock[j]
  }

  /** The record the mapping profile builds from a request: the username and
      the profile fields; every other column keeps its default. */
  function MapToUserData(request: RegisterRequest): UserData {
    var info := request.userInformation;
    UserData(EmptyGuid, request.username, None, None, None, DefaultInstant, None,
             Some(AdditionalUserInformation(info.firstName, info.lastName,
                                            info.primaryLocationId, info.birthDate)))
  }

  /** The record registration stores: the mapped request with the password
      hash and salt filled in. */
  function RegistrationData(request: RegisterRequest, passwordHash: string, salt: seq<byte>): UserData {
    MapToUserData(request).(passwordHash := Some(passwordHash), salt := Some(salt))
  }

  /** One run of `ValidateTokenAsync`: the verdict and the cache afterwards.
      Round `i` classifies the token at `clock[i]`, the instant the date
      provider reports then; a run that needs more rounds than there are
      readings is `Unfinished`. */
  function ValidateTokenRun(g: JwtGenerator, services: Collaborators, cache: map<string, CacheEntry>,
                            userToken: string, username: string, clock: seq<Instant>)
    : (ValidationRun, map<string, CacheEntry>)
    decreases |clock|
  {
    var key := CacheKey(username);
    if CacheHit(cache, key) then (Finished(true), cache)
    else if clock == [] then (Unfinished, cache)
    else
      match ValidateToken(g, userToken, username, clock[0])
      case None => (Raised, cache)
      case Some(Valid) =>
        (match GetTokenValidityCheckPeriod(g)
         case None => (Raised, cache)
         case Some(period) => (Finished(true), cache[key := CacheEntry(userToken, period)]))
      case Some(Invalid) => (Finished(false), cache)
      case Some(Expired) =>
        var refreshToken := services.getUserRefreshToken(username);
        match RefreshToken(g, userToken, refreshToken)
        case None => (Raised, cache)
        case Some(refreshed) => ValidateTokenRun(g, services, cache, refreshed.token, username, clock[1..])
  }

  class CoreAccountManager {
    const jwt: JwtGenerator
    const services: Collaborators
    const accountRepository: MockAccountRepository
    /** The shared cache service. */
    var cache: map<string, CacheEntry>

    ghost predicate Valid()
      reads this, accountRepository
    {
      accountRepository.Valid()
    }

    constructor (jwt: JwtGenerator, services: Collaborators, accountRepository: MockAccountRepository,
                 cache: map<string, CacheEntry>)
      requires accountRepository.Valid()
      ensures Valid()
      ensures this.jwt == jwt && this.services == services
      ensures this.accountRepository == accountRepository && this.cache == cache
    {
      this.jwt := jwt;
      this.services := services;
      this.accountRepository := accountRepository;
      this.cache := cache;
    }

    /** `RegisterUserAsync` with the salt `MakeSalt` returned: store the
        request with its salted hash; report the store's exception message
        when the insert fails. */
    method RegisterUserAsync(request: RegisterRequest, salt: Salt) returns (r: RegisterResult)
      requires Valid()
      modifies accountRepository
      ensures Valid()
      ensures var data := RegistrationData(request, services.hashString(request.password, salt), salt);
              request.username !in old(accountRepository.userData) ==>
                && r == RegisterResult(true, "")
                && accountRepository.userData == old(accountRepository.userData)[request.username := data]
      ensures request.username in old(accountRepository.userData) ==>
                && r == RegisterResult(false, DuplicateKeyMessage(request.username))
                && accountRepository.userData == old(accountRepository.userData)
    {
      var passwordHash := services.hashString(request.password, salt);
      var registrationData := MapToUserData(request);
      registrationData := registrationData.(passwordHash := Some(passwordHash));
      registrationData := registrationData.(salt := Some(salt));
      var created := accountRepository.CreateUserAsync(registrationData);
      match created {
        case Pass => r := RegisterResult(true, "");
        case Fail(message) => r := RegisterResult(false, message);
      }
    }

    /** `HandleLoginAsync`: reads the salt, compares hashes through the
        repository and issues a token; it changes neither store nor cache.
        It succeeds exactly when a salt is found and the repository accepts
        the salted hash, and only then carries a token. */
    function HandleLoginAsync(username: string, password: string, now: Instant, jti: string,
                              refreshToken: string): (r: LoginResult)
      ensures r.success <==>
                (services.getUserSalt(username).Some? &&
                 services.validateUser(username, services.hashString(password, services.getUserSalt(username).value)))
      ensures r.success ==> r.tokenInfo == Some(GenerateToken(jwt, username, now, jti, refreshToken))
      ensures r.success ==> r.tokenInfo.value.refreshToken == refreshToken
      ensures !r.success ==> r.tokenInfo.None?
    {
      match services.getUserSalt(username)
      case None => LoginResult(false, None)
      case Some(userSalt) =>
        var passwordHash := services.hashString(password, userSalt);
        if services.validateUser(username, passwordHash)
        then LoginResult(true, Some(GenerateToken(jwt, username, now, jti, refreshToken)))
        else LoginResult(false, None)
    }

    /** `ValidateTokenAsync`; `clock` holds the instants the date provider
        reports on successive rounds. */
    method ValidateTokenAsync(userToken: string, username: string, clock: seq<Instant>)
        returns (r: ValidationRun)
      modifies this
      ensures (r, cache) == ValidateTokenRun(jwt, services, old(cache), userToken, username, clock)
      decreases |clock|
    {
      var key := CacheKey(username);
      if CacheHit(cache, key) {
        return Finished(true);
      }
      if clock == [] {
        return Unfinished;
      }
      var status := ValidateToken(jwt, userToken, username, clock[0]);
      match status {
        case None =>
          r := Raised;
        case Some(Valid) =>
          var period := GetTokenValidityCheckPeriod(jwt);
          if period.None? {
            return Raised;
          }
          cache := cache[key := CacheEntry(userToken, period.value)];
          r := Finished(true);
        case Some(Invalid) =>
          r := Finished(false);
        case Some(Expired) =>
          var refreshToken := services.getUserRefreshToken(username);
          var refreshed := RefreshToken(jwt, userToken, refreshToken);
          if refreshed.None? {
            return Raised;
          }
          r := ValidateTokenAsync(refreshed.value.token, username, clock[1..]);
      }
    }
  }

  // ---------------------------------------------------------------------
  // Properties of token validation
  // ---------------------------------------------------------------------

  /** A non-blank cached value for the user accepts any token, even one that
      differs from the cached string, without classifying it. */
  lemma CacheHitAccepts(g: JwtGenerator, services: Collaborators, cache: map<string, CacheEntry>,
                        userToken: string, username: string, clock: seq<Instant>)
    requires CacheHit(cache, CacheKey(username))
    ensures ValidateTokenRun(g, services, cache, userToken, username, clock) == (Finished(true), cache)
  {
  }

  /** On a miss, a Valid token is accepted and cached under the user's key
      with the check period as its time to live. */
  lemma ValidTokenIsCached(g: JwtGenerator, services: Collaborators, cache: map<string, CacheEntry>,
                           userToken: string, username: string, clock: seq<Instant>)
    requires !CacheHit(cache, CacheKey(username))
    requires |clock| > 0 && ValidateToken(g, userToken, username, clock[0]) == Some(Valid)
    requires GetTokenValidityCheckPeriod(g).Some?
    ensures ValidateTokenRun(g, services, cache, userToken, username, clock) ==
            (Finished(true), cache[CacheKey(username) :=
                                   CacheEntry(userToken, GetTokenValidityCheckPeriod(g).value)])
  {
  }

  /** On a miss, an Invalid token is rejected and the cache is not written. */
  lemma InvalidTokenRejected(g: JwtGenerator, services: Collaborators, cache: map<string, CacheEntry>,
                             userToken: string, username: string, clock: seq<Instant>)
    requires !CacheHit(cache, CacheKey(username))
    requires |clock| > 0 && ValidateToken(g, userToken, username, clock[0]) == Some(Invalid)
    ensures ValidateTokenRun(g, services, cache, userToken, username, clock) == (Finished(false), cache)
  {
  }

  /** Where every token the serialiser reads comes without signing
      credentials, as parsed tokens do, validation throws on every cache miss:
      the classifier dereferences the missing credentials. */
  lemma ParsedTokensThrow(g: JwtGenerator, services: Collaborators, cache: map<string, CacheEntry>,
                          userToken: string, username: string, clock: seq<Instant>)
    requires forall s :: g.handler.read(s).Some? ==> g.handler.read(s).value.signingCredentials.None?
    requires !CacheHit(cache, CacheKey(username)) && |clock| > 0
    ensures ValidateTokenRun(g, services, cache, userToken, username, clock) == (Raised, cache)
  {
    UnreadableTokenThrows(g, userToken, username, clock[0]);
  }

  /** Validation writes at most the user's own cache key. */
  lemma {:induction false} OnlyUserKeyWritten(g: JwtGenerator, services: Collaborators,
                                              cache: map<string, CacheEntry>, userToken: string,
                                              username: string, clock: seq<Instant>)
    ensures var after := ValidateTokenRun(g, services, cache, userToken, username, clock).1;
            && after.Keys <= cache.Keys + {CacheKey(username)}
            && forall k :: k in cache && k != CacheKey(username) ==> k in after && after[k] == cache[k]
    decreases |clock|
  {
    if !CacheHit(cache, CacheKey(username)) && clock != []
       && ValidateToken(g, userToken, username, clock[0]) == Some(Expired) {
      var refreshed := RefreshToken(g, userToken, services.getUserRefreshToken(username));
      if refreshed.Some? {
        OnlyUserKeyWritten(g, services, cache, refreshed.value.token, username, clock[1..]);
      }
    }
  }

  lemma NonDecreasingTail(clock: seq<Instant>)
    requires NonDecreasing(clock) && |clock| > 0
    ensures NonDecreasing(clock[1..]) && (|clock| > 1 ==> clock[0] <= clock[1])
  {
    forall i, j | 0 <= i <= j < |clock| - 1
      ensures clock[1..][i] <= clock[1..][j]
    {
      assert clock[1..][i] == clock[i + 1] && clock[1..][j] == clock[j + 1];
    }
  }

  /** Where reading back a written token keeps its expiry and the clock never
      goes backwards, an Expired token is never accepted on a miss, however
      many refresh rounds follow, and the cache is never written: the refresh
      keeps the expiry, so no later round can reach Valid. */
  lemma {:induction false} ExpiredNeverAccepted(g: JwtGenerator, services: Collaborators,
                                                cache: map<string, CacheEntry>, userToken: string,
                                                username: string, clock: seq<Instant>)
    requires forall t: SecurityToken :: g.handler.read(g.handler.write(t)).Some? &&
               g.handler.read(g.handler.write(t)).value.validTo == t.validTo
    requires NonDecreasing(clock)
    requires !CacheHit(cache, CacheKey(username))
    requires |clock| > 0 && ValidateToken(g, userToken, username, clock[0]) == Some(Expired)
    ensures ValidateTokenRun(g, services, cache, userToken, username, clock).0 != Finished(true)
    ensures ValidateTokenRun(g, services, cache, userToken, username, clock).1 == cache
    decreases |clock|
  {
    var refreshToken := services.getUserRefreshToken(username);
    NonDecreasingTail(clock);
    if |clock| > 1 {
      RefreshedExpiredNeverValid(g, userToken, username, clock[0], clock[1], refreshToken);
      var refreshed := RefreshToken(g, userToken, refreshToken).value;
      if ValidateToken(g, refreshed.token, username, clock[1]) == Some(Expired) {
        ExpiredNeverAccepted(g, services, cache, refreshed.token, username, clock[1..]);
      }
    }
  }

  /** Where reading back a written token gives the same token and the clock
      never goes backwards, an Expired token on a miss makes validation
      recurse without end: every finite run of clock readings is used up, and
      the cache stays as it was. */
  lemma {:induction false} ExpiredRecursesForever(g: JwtGenerator, services: Collaborators,
                                                  cache: map<string, CacheEntry>, userToken: string,
                                                  username: string, clock: seq<Instant>)
    requires forall t: SecurityToken :: g.handler.read(g.handler.write(t)) == Some(t)
    requires NonDecreasing(clock)
    requires !CacheHit(cache, CacheKey(username))
    requires |clock| > 0 && ValidateToken(g, userToken, username, clock[0]) == Some(Expired)
    ensures ValidateTokenRun(g, services, cache, userToken, username, clock) == (Unfinished, cache)
    decreases |clock|
  {
    var refreshToken := services.getUserRefreshToken(username);
    NonDecreasingTail(clock);
    if |clock| > 1 {
      RefreshedExpiredStaysExpired(g, userToken, username, clock[0], clock[1], refreshToken);
      var refreshed := RefreshToken(g, userToken, refreshToken).value;
      ExpiredRecursesForever(g, services, cache, refreshed.token, username, clock[1..]);
    } else {
      RefreshedExpiredStaysExpired(g, userToken, username, clock[0], clock[0], refreshToken);
    }
  }

  /** A run that finishes with some clock readings finishes the same way when
      more readings follow: further readings only matter to runs that have
      not finished. */
  lemma {:induction false} LongerClockSameVerdict(g: JwtGenerator, services: Collaborators,
                                                  cache: map<string, CacheEntry>, userToken: string,
                                                  username: string, clock: seq<Instant>, more: seq<Instant>)
    requires ValidateTokenRun(g, services, cache, userToken, username, clock).0 != Unfinished
    requires clock <= more
    ensures ValidateTokenRun(g, services, cache, userToken, username, more) ==
            ValidateTokenRun(g, services, cache, userToken, username, clock)
    decreases |clock|
  {
    if !CacheHit(cache, CacheKey(username)) {
      assert clock != [] && more[0] == clock[0];
      if ValidateToken(g, userToken, username, clock[0]) == Some(Expired) {
        var refreshed := RefreshToken(g, userToken, services.getUserRefreshToken(username));
        if refreshed.Some? {
          assert clock[1..] <= more[1..];
          LongerClockSameVerdict(g, services, cache, refreshed.value.token, username, clock[1..], more[1..]);
        }
      }
    }
  }

  // ---------------------------------------------------------------------
  // Properties of login and registration
  // ---------------------------------------------------------------------

  /** A token from a successful login, read back unchanged, with the key
      comparison passing, a non-negative window and distinct issuer and
      audience, validates in a first round at its creation instant on a
      cache miss and is then cached. */
  lemma LoginTokenValidates(m: CoreAccountManager, cache: map<string, CacheEntry>,
                            username: string, password: string, now: Instant, jti: string,
                            refreshToken: string, clock: seq<Instant>)
    requires m.HandleLoginAsync(username, password, now, jti, refreshToken).success
    requires var t := CreateToken(m.jwt.configuration, AuthClaims(username, jti), now);
             m.jwt.handler.read(m.jwt.handler.write(t)) == Some(t)
    requires m.jwt.keyMatches(SymmetricKey(m.jwt.configuration.secret))
    requires TokenValidityInMinutes(m.jwt.configuration) >= 0
    requires m.jwt.configuration.issuer != m.jwt.configuration.audience
    requires GetTokenValidityCheckPeriod(m.jwt).Some?
    requires !CacheHit(cache, CacheKey(username))
    requires |clock| > 0 && clock[0] == now
    ensures var token := m.HandleLoginAsync(username, password, now, jti, refreshToken).tokenInfo.value.token;
            ValidateTokenRun(m.jwt, m.services, cache, token, username, clock) ==
              (Finished(true), cache[CacheKey(username) :=
                                     CacheEntry(token, GetTokenValidityCheckPeriod(m.jwt).value)])
  {
    FreshTokenClassification(m.jwt, username, now, jti, refreshToken);
  }

  /** What registration stores: the username, the salted hash, the salt and
      the whole profile; the default id, no refresh token, the default
      refresh-token expiry and no ban. */
  lemma RegistrationDataContents(request: RegisterRequest, services: Collaborators, salt: Salt)
    ensures var d := RegistrationData(request, services.hashString(request.password, salt), salt);
            && d.id == EmptyGuid
            && d.username == request.username
            && d.passwordHash == Some(services.hashString(request.password, salt))
            && d.salt == Some(salt)
            && d.refreshToken.None? && d.refreshTokenExpiryTime == DefaultInstant
            && d.bannedTill.None?
            && d.additionalUserInformation.Some?
            && d.additionalUserInformation.value.firstName == request.userInformation.firstName
            && d.additionalUserInformation.value.lastName == request.userInformation.lastName
            && d.additionalUserInformation.value.primaryLocationId == request.userInformation.primaryLocationId
            && d.additionalUserInformation.value.birthDate == request.userInformation.birthDate
  {
  }

  /** Once a request is registered in the store, the validator, asking that
      store for uniqueness, reports a Username error for any request with the
      same username. */
  lemma RegisteredNameFailsValidation(users: map<string, UserData>, request: RegisterRequest,
                                      services: Collaborators, salt: Salt, again: RegisterRequest)
    requires again.username == request.username
    requires Add(users, RegistrationData(request, services.hashString(request.password, salt), salt)).Some?
    ensures var after := Add(users, RegistrationData(request, services.hashString(request.password, salt), salt)).value;
            Validators.Username in Validators.Validate(again, u => u !in after)
  {
    var after := Add(users, RegistrationData(request, services.hashString(request.password, salt), salt)).value;
    Validators.TakenUsernameRejected(again, u => u !in after);
  }

  /** Registering the same username twice: the first call succeeds, the second
      fails with the store's duplicate-key message, and the first account's
      record stays as stored. */
  method RegisterTwice(manager: CoreAccountManager, request: RegisterRequest, again: RegisterRequest,
                       salt: Salt, otherSalt: Salt)
      returns (first: RegisterResult, second: RegisterResult)
    requires manager.Valid()
    requires request.username !in manager.accountRepository.userData
    requires again.username == request.username
    modifies manager.accountRepository
    ensures first == RegisterResult(true, "")
    ensures second == RegisterResult(false, DuplicateKeyMessage(request.username))
    ensures manager.accountRepository.userData ==
            old(manager.accountRepository.userData)[request.username :=
              RegistrationData(request, manager.services.hashString(request.password, salt), salt)]
  {
    first := manager.RegisterUserAsync(request, salt);
    second := manager.RegisterUserAsync(again, otherSalt);
  }
}

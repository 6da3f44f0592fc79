# Flamma.Auth account core in Dafny

A model of the account core of Flamma.Auth, a small authentication service.
The model covers four parts:

- the token generator, which issues, refreshes and classifies JSON Web Tokens (`Jwt`, jwt_manager.dfy);
- the registration request validator (`Validators`, register_request_validator.dfy);
- the in-memory account store (`DataAccess`, mock_account_repository.dfy);
- the account manager (`AccountManager`, core_account_manager.dfy), which ties them together.

The account manager registers users, logs them in, and validates tokens with the help of a shared cache.
Shared pieces live in `Wrappers` (wrappers.dfy), `Models` (models.dfy) and `Text` (text.dfy).
`Text` holds the .NET whitespace class, the `\d` digit class, and the `int.Parse` grammar.

Modelling choices:

- Instants are whole seconds counted from 0001-01-01, so the default `DateTime` is 0.
  The clock is a parameter `now`.
  A token expires `60 * minutes` seconds after it is created.
- Token serialisation is a pair of uninterpreted functions, `TokenHandler.write` and `TokenHandler.read`.
  `read` returns `None` where `ReadJwtToken` throws.
- The classifier's key comparison is the uninterpreted predicate `JwtGenerator.keyMatches`.
  No lemma assumes it holds unless it says so.
  In .NET, `!=` on two key objects compares references, and the classifier compares with a key it has just built.
  In the running program this step would reject every token that reached it.
  No token reaches it, though: a token parsed by `ReadJwtToken` carries no signing credentials.
  So Auth/Services/JwtManager.cs:80 throws on every readable token; that is the `None` path of `Jwt.Classify` (`AccountManager.ParsedTokensThrow`).
  The lemmas that assume credentials and a matching key describe paths the running program never takes.
- A library call that throws is a `None` result.
  `Dictionary.Add` on a taken key fails with the runtime's message, `DuplicateKeyMessage`.
  That message becomes `RegisterResult.Message`.
- `ValidateTokenAsync` recurses after every refresh, and every round reads the clock again.
  The model gives a run the sequence `clock` of instants the date provider reports, one per round.
  A run ends `Finished(valid)`, `Raised` (an exception propagates) or `Unfinished`.
  `Unfinished` means the program would go on to a round beyond the readings given.
- Hashing (`HashString`) and the repository queries `GetUserSalt`, `ValidateUser` and `GetUserRefreshToken` are functions in `Collaborators`.
  Their bodies are not in the files this model follows.
  The fresh GUID (`jti`), the random refresh string and the salt from `MakeSalt` are parameters.
- Regular expressions are predicates over characters, with .NET semantics:
  - `$` also matches before a final line feed, so `^[a-zA-Z0-9]*$` accepts one trailing "\n";
  - `\d` accepts every decimal digit of the Basic Multilingual Plane, not only 0-9;
  - `NotEmpty` rejects whitespace-only strings.

Where the code does something other than what it evidently intends, the model follows the code:

- Reading a malformed token throws, and `ValidateTokenAsync` rethrows. It does not answer Invalid.
- The issuer/audience step compares the configured names crosswise (Auth/Services/JwtManager.cs:89-91).
  It rejects only when both crosswise comparisons hold.
  So tokens from a foreign issuer pass (`Jwt.IssuerAudienceSwapped`).
- Any non-blank cached value for the user accepts any token. The cached string is not compared with the token.
- Refreshing keeps the old expiry, so an expired token never validates after a refresh.
  With a faithful serialiser and a clock that does not go backwards, the recursion never ends (`AccountManager.ExpiredRecursesForever`).
- Login issues a token but persists nothing: no refresh token is stored.
- The stored record has the columns of Data.Access/Migrations/20230131142813_AddBanField.Designer.cs:56-86.
  Data.Access/Models/UserData.cs lacks the `Salt` column that registration sets.

## Model

| member | source | states |
|---|---|---|
| `Text.ParseInt32` | Auth/Services/JwtManager.cs:103 | an accepted configuration value is an `Int32` |
| `Text.ParseFormatRoundTrip` | Auth/Services/JwtManager.cs:57 | parsing the printed form of any `Int32` gives it back, so a configured number is read as written |
| `Text.ParseIgnoresSurroundingWhite` | Auth/Services/JwtManager.cs:103 | any amount of the allowed whitespace (tab to carriage return, space) before and after a configured number is ignored |
| `Text.PaddedNumberVector` | Auth/Services/JwtManager.cs:103 | " 42\r\n" parses as 42 |
| `Jwt.FirstClaimValue` | Auth/Services/JwtManager.cs:85 | the lookup finds nothing exactly when no claim has the name type |
| `Jwt.FirstClaimValueIsFirst` | Auth/Services/JwtManager.cs:85 | a found value is that of the first claim of the name type |
| `Jwt.TokenValidityInMinutes` | Auth/Services/JwtManager.cs:103 | the window read with `int.TryParse`, 0 when it does not parse; specified by `Jwt.GeneratedTokenContents` and `Jwt.ConfiguredWindow` |
| `Jwt.CreateToken` | Auth/Services/JwtManager.cs:100-114 | the token built from the claims, issuer, audience, window and HMAC-SHA256 credentials; specified by `Jwt.GeneratedTokenContents` and `Jwt.ConfiguredWindow` |
| `Jwt.GenerateToken` | Auth/Services/JwtManager.cs:35-54 | the serialised token, the refresh string and the expiry; specified by `Jwt.GeneratedTokenContents`, `Jwt.ConfiguredWindow` and `Jwt.FreshTokenClassification` |
| `Jwt.GetTokenValidityCheckPeriod` | Auth/Services/JwtManager.cs:57 | the check period read with `int.Parse`, absent where that throws; its reading is specified by `Text.ParseFormatRoundTrip` and `Text.ParseIgnoresSurroundingWhite`, its use by `AccountManager.ValidTokenIsCached` |
| `Jwt.RefreshToken` | Auth/Services/JwtManager.cs:60-70 | the re-serialised token; specified by `Jwt.RefreshKeepsToken`, `Jwt.RefreshedExpiredNeverValid` and `Jwt.RefreshedExpiredStaysExpired` |
| `Jwt.Classify` | Auth/Services/JwtManager.cs:79-94 | answers exactly when the token carries credentials; its four steps are specified by `Jwt.SignatureCheckedFirst`, `Jwt.NameClaimCheckedSecond`, `Jwt.IssuerAudienceCheckedThird`, `Jwt.ExpiryCheckedLast` and `Jwt.ClassificationMeaning` |
| `Jwt.ValidateToken` | Auth/Services/JwtManager.cs:73-95 | read, then classify; specified by `Jwt.UnreadableTokenThrows`, `Jwt.ClassifierAnswersIffCredentials` and the lemmas about `Jwt.Classify` |
| `Jwt.UnreadableTokenThrows` | Auth/Services/JwtManager.cs:75-82 | a token that does not parse, or carries no signing credentials, makes the classifier throw |
| `Jwt.ClassifierAnswersIffCredentials` | Auth/Services/JwtManager.cs:73-95 | the classifier answers exactly when the token parses and carries credentials |
| `Jwt.SignatureCheckedFirst` | Auth/Services/JwtManager.cs:79-82 | a failed key or algorithm check gives Invalid whatever the claims or expiry |
| `Jwt.NameClaimCheckedSecond` | Auth/Services/JwtManager.cs:85-86 | after the signature step, a token whose first name claim is missing or names someone else is Invalid, whatever its later claims and its expiry |
| `Jwt.NoNameClaimForUserIsInvalid` | Auth/Services/JwtManager.cs:85-86 | in particular, after the signature step a token none of whose name claims names the user is Invalid |
| `Jwt.FirstNameClaimDecides` | Auth/Services/JwtManager.cs:85 | only the first name claim counts: claims naming "alice" then "bob" are Invalid for "bob" and pass the name step for "alice" |
| `Jwt.IssuerAudienceCheckedThird` | Auth/Services/JwtManager.cs:89-91 | after two steps, the result is Invalid exactly when the audiences contain the configured issuer and the issuer is the configured audience |
| `Jwt.ExpiryCheckedLast` | Auth/Services/JwtManager.cs:94 | after three steps, Expired exactly when the expiry is strictly before now, Valid otherwise |
| `Jwt.ClassificationMeaning` | Auth/Services/JwtManager.cs:73-95 | Valid exactly when all four steps pass, Expired exactly when all but the expiry step pass |
| `Jwt.IssuerAudienceSwapped` | Auth/Services/JwtManager.cs:89-91 | for every configuration with distinct issuer and audience: a token whose issuer is not the configured audience passes the step, and so does one whose audiences leave out the configured issuer; the crosswise pair is rejected; the configured pair passes |
| `Jwt.GeneratedTokenContents` | Auth/Services/JwtManager.cs:35-54 | a generated token has exactly the name and jti claims, the configured issuer and audience, HMAC-SHA256 credentials, and expiry now plus the parsed minutes (0 when unparsable) |
| `Jwt.ConfiguredWindow` | Auth/Services/JwtManager.cs:100-114 | a window configured as `n` minutes makes the token expire `60 * n` seconds after now |
| `Jwt.FreshTokenClassification` | Auth/Services/JwtManager.cs:35-114 | with the key check passing, a fresh token is Valid for its user at creation exactly when the window is not negative and issuer and audience differ; it is Invalid when they are equal |
| `Jwt.RefreshKeepsToken` | Auth/Services/JwtManager.cs:60-70 | a refresh re-serialises the read token, keeps its expiry and passes the refresh string through |
| `Jwt.RefreshedExpiredNeverValid` | Auth/Services/JwtManager.cs:60-94 | if serialisation keeps the expiry, a refreshed Expired token is never Valid at the same or any later instant |
| `Jwt.RefreshedExpiredStaysExpired` | Auth/Services/JwtManager.cs:60-94 | if serialisation is faithful, a refreshed Expired token is Expired again at the same or any later instant |
| `Validators.BeNewUsername` | Auth/Validators/RegisterRequestValidator.cs:65-69 | the repository's uniqueness answer; specified by `Validators.TakenUsernameRejected` and `AccountManager.RegisteredNameFailsValidation` |
| `Validators.BeAValidLocation` | Auth/Validators/RegisterRequestValidator.cs:55-60 | accepts every location; specified by `Validators.LocationRuleMeaning` |
| `Validators.UsernameRule` | Auth/Validators/RegisterRequestValidator.cs:21-24 | the username chain; specified by `Validators.UsernameRuleMeaning` and `Validators.TrailingLineFeedAccepted` |
| `Validators.PasswordRule` | Auth/Validators/RegisterRequestValidator.cs:27-34 | the password chain; specified by `Validators.RejectedPasswordVectors`, `Validators.AcceptedPasswordVector` and `Validators.HashSignIsNotSpecial` |
| `Validators.NameRule` | Auth/Validators/RegisterRequestValidator.cs:37-44 | the first- and last-name chain; specified by `Validators.NameRuleMeaning` and `Validators.NameVectors` |
| `Validators.LocationRule` | Auth/Validators/RegisterRequestValidator.cs:47-49 | the location chain; specified by `Validators.LocationRuleMeaning` |
| `Validators.Validate` | Auth/Validators/RegisterRequestValidator.cs:21-49 | the properties that fail validation; specified by `Validators.ValidIffAllRulesPass` and `Validators.ErrorsPerProperty` |
| `Validators.ValidIffAllRulesPass` | Auth/Validators/RegisterRequestValidator.cs:21-49 | a request is valid exactly when the username, password, both names and location rules pass |
| `Validators.ErrorsPerProperty` | Auth/Validators/RegisterRequestValidator.cs:21-49 | each property is reported exactly when its own rule fails; the location only when it is the empty GUID |
| `Validators.TakenUsernameRejected` | Tests/RegisterRequestValidatorTests.cs:46-57 | a username the repository reports as taken always gets a Username error |
| `Validators.UsernameRuleMeaning` | Auth/Validators/RegisterRequestValidator.cs:21-24 | a username passes exactly when it is unique and is non-empty letters and digits, optionally followed by one line feed |
| `Validators.NameRuleMeaning` | Auth/Validators/RegisterRequestValidator.cs:37-44 | a name passes exactly when it is non-empty letters, optionally followed by one line feed |
| `Validators.LocationRuleMeaning` | Auth/Validators/RegisterRequestValidator.cs:47-60 | the location rule only asks for a non-empty identifier |
| `Validators.TrailingLineFeedAccepted` | Auth/Validators/RegisterRequestValidator.cs:23 | usernames and names ending in a line feed pass |
| `Validators.RejectedPasswordVectors` | Tests/RegisterRequestValidatorTests.cs:60-62 | "12345", "qwerty12345" and "Qwerty12345" fail the password rule |
| `Validators.AcceptedPasswordVector` | Tests/RegisterRequestValidatorTests.cs:63 | "Qwerty12345!" passes the password rule |
| `Validators.NameVectors` | Tests/RegisterRequestValidatorTests.cs:85-88 | "name" passes the name rule; "111", "name1" and "name!" fail |
| `Validators.HashSignIsNotSpecial` | Auth/Validators/RegisterRequestValidator.cs:32 | `#` is outside the special class, so a password whose only symbol is `#` fails |
| `DataAccess.SeedUsers` | Data.Access/Services/MockAccountRepository.cs:22-53 | the seed holds exactly the keys "bobv" and "rick", each under its own username |
| `DataAccess.Add` | Data.Access/Services/MockAccountRepository.cs:60 | `Dictionary.Add`, absent where it throws; specified by `DataAccess.AddEffect`, `DataAccess.AddKeepsKeysAreUsernames` and `DataAccess.AddThenTaken` |
| `DataAccess.AddEffect` | Data.Access/Services/MockAccountRepository.cs:60 | adding a fresh name stores the record, keeps the other entries and grows the store by one; adding a taken name fails |
| `DataAccess.AddKeepsKeysAreUsernames` | Data.Access/Services/MockAccountRepository.cs:14 | adding keeps every key equal to its record's username |
| `DataAccess.AddThenTaken` | Data.Access/Services/MockAccountRepository.cs:58-68 | after a successful add the name is taken and a second add with it fails |
| `DataAccess.SeedNamesTaken` | Data.Access/Services/MockAccountRepository.cs:22-60 | adding a record named "bobv" or "rick" to the seed fails |
| `DataAccess.MockAccountRepository.constructor` | Data.Access/Services/MockAccountRepository.cs:19-54 | the new store holds exactly the two seed records |
| `DataAccess.MockAccountRepository.CreateUserAsync` | Data.Access/Services/MockAccountRepository.cs:58-62 | a fresh name updates the store to `store[name := record]`; a taken name fails with the duplicate-key message and leaves the store unchanged |
| `DataAccess.MockAccountRepository.IsUsernameUniqueAsync` | Data.Access/Services/MockAccountRepository.cs:65-68 | the answer is true exactly when the name is not a key; nothing changes |
| `DataAccess.CreateThenQuery` | Data.Access/Services/MockAccountRepository.cs:58-68 | after an insert, the name is reported taken and a second insert fails |
| `AccountManager.MapToUserData` | Auth/Mappings/MappingProfile.cs:25-28 | the request mapped to a record, password hash ignored; specified by `AccountManager.RegistrationDataContents` |
| `AccountManager.RegistrationData` | Auth/Services/CoreAccountManager.cs:105-107 | the mapped record with hash and salt set; specified by `AccountManager.RegistrationDataContents` |
| `AccountManager.ValidateTokenRun` | Auth/Services/CoreAccountManager.cs:164-204 | one validation run over successive clock readings; specified by the lemmas `AccountManager.CacheHitAccepts` to `AccountManager.LongerClockSameVerdict` |
| `AccountManager.CoreAccountManager.constructor` | Auth/Services/CoreAccountManager.cs:58-70 | the manager holds the given generator, collaborators, store and cache |
| `AccountManager.CoreAccountManager.RegisterUserAsync` | Auth/Services/CoreAccountManager.cs:96-127 | stores the request with `HashString(password, salt)` and the salt and returns success with an empty message; a taken name returns failure with the store's message and changes nothing |
| `AccountManager.CoreAccountManager.HandleLoginAsync` | Auth/Services/CoreAccountManager.cs:130-161 | login succeeds exactly when the salt is found and the repository accepts the salted hash; on success the token info is the generated token, with the issued refresh string, otherwise absent; it writes neither store nor cache |
| `AccountManager.CoreAccountManager.ValidateTokenAsync` | Auth/Services/CoreAccountManager.cs:164-204 | the verdict and the new cache are those of `ValidateTokenRun` on the old cache, with round `i` classified at the `i`-th clock reading |
| `AccountManager.CacheHitAccepts` | Auth/Services/CoreAccountManager.cs:169-171 | a non-blank cached value under "user_token:" + username accepts any token, without classifying it |
| `AccountManager.ValidTokenIsCached` | Auth/Services/CoreAccountManager.cs:174-182 | on a miss a Valid token is accepted and cached under the user's key, with the check period as time to live |
| `AccountManager.InvalidTokenRejected` | Auth/Services/CoreAccountManager.cs:190-191 | on a miss an Invalid token is rejected and the cache is not written |
| `AccountManager.ParsedTokensThrow` | Auth/Services/CoreAccountManager.cs:174 | where parsed tokens carry no signing credentials, validation throws on every cache miss |
| `AccountManager.OnlyUserKeyWritten` | Auth/Services/CoreAccountManager.cs:164-204 | validation writes no cache key but the user's own |
| `AccountManager.ExpiredNeverAccepted` | Auth/Services/CoreAccountManager.cs:184-189 | if serialisation keeps the expiry and the clock does not go backwards, an Expired token on a miss is never accepted, for any number of refresh rounds, and the cache is not written |
| `AccountManager.ExpiredRecursesForever` | Auth/Services/CoreAccountManager.cs:184-189 | if serialisation is faithful and the clock does not go backwards, an Expired token on a miss recurses without end: every finite sequence of clock readings is used up |
| `AccountManager.LongerClockSameVerdict` | Auth/Services/CoreAccountManager.cs:164-204 | a run that finishes with some clock readings finishes the same way when more readings follow |
| `AccountManager.LoginTokenValidates` | Auth/Services/CoreAccountManager.cs:145-182 | under the key check, a faithful serialiser, a non-negative window and distinct issuer and audience, a login token validates in a first round at its creation instant and is cached |
| `AccountManager.RegistrationDataContents` | Auth/Services/CoreAccountManager.cs:102-107 | the stored record holds the username, the salted hash, the salt and the whole profile (names, location, birth date), with the default id, no refresh token, the default refresh-token expiry and no ban |
| `AccountManager.RegisteredNameFailsValidation` | Auth/Validators/RegisterRequestValidator.cs:65-69 | once a request is registered, validating any request with that username against the store gives a Username error |
| `AccountManager.RegisterTwice` | Auth/Services/CoreAccountManager.cs:96-127 | registering one username twice: first success, then failure with the duplicate-key message, and the first record stays stored |

## Left out

- Password hashing (PBKDF2 through a cryptography library) is an uninterpreted function `Collaborators.hashString`.
  `MakeSalt`'s randomness is the `Salt` parameter of `RegisterUserAsync`, a 16-byte value.
- The random refresh string and `Guid.NewGuid` are parameters, because they are random.
- The token encoding (base64, JSON, HMAC) is the uninterpreted pair `TokenHandler.write` and `TokenHandler.read`.
  Two library behaviours are not modelled:
  - the truncation of the expiry to whole seconds;
  - the exceptions the token library raises for an empty or short secret.
- The key comparison is the parameter `keyMatches`, because it compares object references.
- Redis eviction is not modelled: entries stay in the map with the time to live they were stored with.
- `ValidateTokenAsync`'s unbounded recursion is bounded by the length of `clock`. A run that needs more rounds ends `Unfinished` instead of recursing further.
- Async execution, cancellation tokens and logging are left out. Calls run one after another.
- `ValidateRegistrationRequestAsync` only delegates to the validator and logs, so `Validators.Validate` stands for it.
- `RefreshTokenAsync`, `RevokeTokenAsync`, `RevokeAllTokensAsync`, both `BanUserAsync` overloads and `UnbanUserAsync` are declared but have no implementation in the files modelled.
  `BannedTill` exists only as a column. `UserBanInfo` is not modelled.
- The repository queries `ValidateUser`, `GetUserSalt` and `GetUserRefreshToken` have no implementation in the files modelled.
  They are functions independent of the store state. `UpdateUserRefreshToken` is never called by the modelled code.
  A `ValidateUser` that throws has the same effect on login as one that answers false, so it is a `bool`.
  `GetUserRefreshToken` is total.
- Null strings and null request parts are not modelled: every string is present.
  All configuration entries are present too.
- Lengths are counted in Unicode scalar values, not UTF-16 code units; this only matters for characters outside the Basic Multilingual Plane.
- `int.Parse` tolerates trailing NUL characters and culture-specific sign symbols; the model does not.
- `DateTime.AddMinutes` throws past year 9999; instants are unbounded.
- Transport (gRPC), AutoMapper, dependency injection, the EF context, migrations, the seeder and `AccountRepository` are glue.
  The only mapping the core depends on is modelled as `MapToUserData`: request to stored record, password hash ignored.
- Auth/Services/JwtGenerator.cs repeats the generator of Auth/Services/JwtManager.cs and is not modelled separately.

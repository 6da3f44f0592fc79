/** The in-memory account store of Data.Access/Services/MockAccountRepository.cs:
    a dictionary from username to account record, seeded with two records,
    filled by `Dictionary.Add`, and asked whether a username is free. */
module DataAccess {
  import opened Wrappers
  import opened Models

  /** Every key is the username of its record, as a unique index would keep it. */
  ghost predicate KeysAreUsernames(users: map<string, UserData>) {
    forall k :: k in users ==> users[k].username == k
  }

  /** A seeded record: a username, an empty password hash and profile data;
      every other column has its default. */
  function SeedRecord(username: string, firstName: string, lastName: string,
                      location: Guid, birthDate: Instant): UserData
  {
    UserData(EmptyGuid, username, Some(""), None, None, DefaultInstant, None,
             Some(AdditionalUserInformation(firstName, lastName, location, birthDate)))
  }

  /** The two records the constructor puts into the dictionary. */
  function SeedUsers(): (users: map<string, UserData>)
    ensures users.Keys == {"bobv", "rick"}
    ensures KeysAreUsernames(users)
  {
    map[
      "bobv" := SeedRecord("bobv", "Bob", "Valentine",
                           0xd01eb040_e06b_4ed0_99d8_e134e0a061f7, 62778240000),
      "rick" := SeedRecord("rick", "Rick", "Holmes",
                           0x9e44fe80_328a_46d0_a532_0302caf40c26, 62614684800)]
  }

  /** The message of the exception `Dictionary.Add` throws for a key that is
      already present. */
  function DuplicateKeyMessage(key: string): string {
    "An item with the same key has already been added. Key: " + key
  }

  /** `Dictionary.Add(d.username, d)`: the new dictionary, or `None` when the
      key is present and `Add` throws. */
  function Add(users: map<string, UserData>, d: UserData): Option<map<string, UserData>> {
    if d.username in users then None else Some(users[d.username := d])
  }

  // ---------------------------------------------------------------------
  // Properties of the store
  // ---------------------------------------------------------------------

  /** Adding a fresh username stores the record under it, leaves every other
      entry as it was and grows the store by one; adding a taken username
      fails and changes nothing. */
  lemma AddEffect(users: map<string, UserData>, d: UserData)
    ensures d.username !in users ==>
      && Add(users, d).Some?
      && Add(users, d).value[d.username] == d
      && Add(users, d).value.Keys == users.Keys + {d.username}
      && (forall k :: k in users ==> Add(users, d).value[k] == users[k])
      && |Add(users, d).value| == |users| + 1
    ensures d.username in users <==> Add(users, d).None?
  {
  }

  /** Adding keeps every key equal to its record's username. */
  lemma AddKeepsKeysAreUsernames(users: map<string, UserData>, d: UserData)
    requires KeysAreUsernames(users)
    requires Add(users, d).Some?
    ensures KeysAreUsernames(Add(users, d).value)
  {
  }

  /** After a successful add the username is no longer unique, and a second
      add of any record with that username fails. */
  lemma AddThenTaken(users: map<string, UserData>, d: UserData, e: UserData)
    requires Add(users, d).Some?
    requires e.username == d.username
    ensures d.username in Add(users, d).value
    ensures Add(Add(users, d).value, e).None?
  {
  }

  /** The seeded names are taken from the start. */
  lemma SeedNamesTaken(d: UserData)
    requires d.username == "bobv" || d.username == "rick"
    ensures Add(SeedUsers(), d).None?
  {
  }

  class MockAccountRepository {
    /** The `_userData` dictionary. */
    var userData: map<string, UserData>

    ghost predicate Valid()
      reads this
    {
      KeysAreUsernames(userData)
    }

    constructor ()
      ensures Valid()
      ensures userData == SeedUsers()
      ensures userData.Keys == {"bobv", "rick"}
    {
      userData := SeedUsers();
    }

    /** `CreateUserAsync`: insert under the record's username; fail with the
        dictionary's message when the username is taken. */
    method CreateUserAsync(d: UserData) returns (r: Outcome)
      requires Valid()
      modifies this
      ensures Valid()
      ensures old(Add(userData, d)).Some? ==> r == Pass && userData == old(userData)[d.username := d]
      ensures old(Add(userData, d)).None? ==>
                r == Fail(DuplicateKeyMessage(d.username)) && userData == old(userData)
    {
      var added := Add(userData, d);
      if added.None? {
        return Fail(DuplicateKeyMessage(d.username));
      }
      AddKeepsKeysAreUsernames(userData, d);
      userData := added.value;
      r := Pass;
    }

    /** `IsUsernameUniqueAsync`: the username is not a key of the store. */
    method IsUsernameUniqueAsync(username: string) returns (unique: bool)
      ensures unique <==> username !in userData
    {
      unique := username !in userData;
    }
  }

  /** Registering a record and then asking for its username: the store says
      the name is taken, and a second record with that name is refused. */
  method CreateThenQuery(repo: MockAccountRepository, d: UserData, e: UserData)
      returns (first: Outcome, unique: bool, second: Outcome)
    requires repo.Valid() && d.username !in repo.userData && e.username == d.username
    modifies repo
    ensures first == Pass && !unique && second == Fail(DuplicateKeyMessage(d.username))
    ensures repo.userData == old(repo.userData)[d.username := d]
    ensures |repo.userData| == |old(repo.userData)| + 1
  {
    first := repo.CreateUserAsync(d);
    unique := repo.IsUsernameUniqueAsync(d.username);
    second := repo.CreateUserAsync(e);
  }
}

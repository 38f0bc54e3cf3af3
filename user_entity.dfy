/** The account record and the table that stores it. */
module UserEntity {
  import opened Wrappers
  import opened Exceptions

  /** bcrypt.compare(plaintext, hash): whether a plaintext matches a stored
      hash. It is a library call whose internals are not modelled; it may
      fail. */
  type Compare = (string, string) -> Result<bool, Error>

  /** A stored account: generated primary key, username, salted hash of the
      password (never the plaintext) and the salt. */
  datatype User = User(id: nat, username: string, password: string, salt: string) {

    /** Compares a plaintext against the stored hash, and against nothing
        else: neither the salt nor the plaintext's own hash is involved. */
    function ValidatePassword(plaintext: string, compare: Compare): (r: Result<bool, Error>)
      ensures r == compare(plaintext, password)
    {
      compare(plaintext, password)
    }
  }

  /** An account built by `create` and not yet saved: it has no id yet. */
  datatype UserDraft = UserDraft(username: string, password: string, salt: string)

  /** The answer of `validatePassword` depends on the stored hash alone: two
      accounts with the same hash give the same answer, whatever their salt,
      id or username. */
  lemma ValidatePasswordReadsOnlyHash(u: User, v: User, plaintext: string, compare: Compare)
    requires u.password == v.password
    ensures u.ValidatePassword(plaintext, compare) == v.ValidatePassword(plaintext, compare)
  {
  }

  // ---------------------------------------------------------------------------
  // The table, keyed by username

  /** The unique constraint on `username`: each record sits under its own
      username, so a username names at most one record. */
  predicate KeyedByUsername(users: map<string, User>) {
    forall name :: name in users ==> users[name].username == name
  }

  /** Every generated id is below the next one the table will hand out. */
  predicate IdsBelow(users: map<string, User>, nextId: nat) {
    forall name :: name in users ==> users[name].id < nextId
  }

  /** The primary key: no two records share an id. */
  predicate DistinctIds(users: map<string, User>) {
    forall a, b :: a in users && b in users && users[a].id == users[b].id ==> a == b
  }

  predicate TableInvariant(users: map<string, User>, nextId: nat) {
    KeyedByUsername(users) && IdsBelow(users, nextId) && DistinctIds(users)
  }

  /** No two stored accounts share a username. */
  lemma UsernamesUnique(users: map<string, User>, nextId: nat, a: string, b: string)
    requires TableInvariant(users, nextId)
    requires a in users && b in users && users[a].username == users[b].username
    ensures a == b
  {
  }

  /** What an insert does: a failure of the connection or the driver comes
      first; otherwise the unique constraint refuses a taken username;
      otherwise the record is stored with the next generated id. */
  function SaveOutcome(users: map<string, User>, nextId: nat, draft: UserDraft, fault: Option<Error>): (r: Result<User, Error>)
    ensures r.Success? <==> fault.None? && draft.username !in users
    ensures fault.Some? ==> r == Failure(fault.value)
    ensures fault.None? && draft.username in users ==> r == Failure(DuplicateKeyError)
    ensures r.Success? ==> r.value.username == draft.username && r.value.id == nextId
                           && r.value.password == draft.password && r.value.salt == draft.salt
  {
    if fault.Some? then Failure(fault.value)
    else if draft.username in users then Failure(DuplicateKeyError)
    else Success(User(nextId, draft.username, draft.password, draft.salt))
  }

  /** A successful insert keeps the table's invariant and leaves every other
      record as it was. */
  lemma SavePreservesInvariant(users: map<string, User>, nextId: nat, draft: UserDraft, fault: Option<Error>)
    requires TableInvariant(users, nextId)
    requires SaveOutcome(users, nextId, draft, fault).Success?
    ensures var u := SaveOutcome(users, nextId, draft, fault).value;
            && TableInvariant(users[draft.username := u], nextId + 1)
            && forall name :: name in users ==> name in users[draft.username := u] && users[draft.username := u][name] == users[name]
  {
  }

  /** The user table: a map from username to account and the counter behind
      the generated primary key. */
  class UserRepository {
    var users: map<string, User>
    var nextId: nat

    ghost predicate Valid()
      reads this
    {
      TableInvariant(users, nextId)
    }

    constructor ()
      ensures Valid() && users == map[] && nextId == 1
    {
      users := map[];
      nextId := 1;
    }

    /** `findOneBy({ username })`: exact, case-sensitive lookup, `None` when
        absent; `fault` is a failure of the database itself. */
    method FindOneBy(username: string, fault: Option<Error>) returns (r: Result<Option<User>, Error>)
      requires Valid()
      ensures fault.Some? ==> r == Failure(fault.value)
      ensures fault.None? ==> r.Success? && (r.value.Some? <==> username in users)
      ensures r.Success? && r.value.Some? ==> r.value.value == users[username] && r.value.value.username == username
    {
      if fault.Some? {
        return Failure(fault.value);
      }
      if username in users {
        r := Success(Some(users[username]));
      } else {
        r := Success(None);
      }
    }

    /** `save(newUser)`: inserts the draft, or fails and changes nothing. */
    method Save(draft: UserDraft, fault: Option<Error>) returns (r: Result<User, Error>)
      requires Valid()
      modifies this
      ensures Valid()
      ensures r == SaveOutcome(old(users), old(nextId), draft, fault)
      ensures r.Success? ==> users == old(users)[draft.username := r.value] && nextId == old(nextId) + 1
      ensures r.Failure? ==> users == old(users) && nextId == old(nextId)
    {
      r := SaveOutcome(users, nextId, draft, fault);
      if r.Success? {
        SavePreservesInvariant(users, nextId, draft, fault);
        users := users[draft.username := r.value];
        nextId := nextId + 1;
      }
    }
  }
}

/** Sign-up and sign-in: how each flow classifies what its collaborators do. */
module AuthService {
  import opened Wrappers
  import opened Exceptions
  import opened UserEntity

  /** The username and password a request carries, already validated. */
  datatype Credentials = Credentials(username: string, password: string)

  /** What `getSaltAndHashPassword` yields. */
  datatype SaltedHash = SaltedHash(salt: string, hashPassword: string)

  /** `getSaltAndHashPassword(password)`: derives a salt and a salted hash. Its
      source is not part of this model; it may fail. */
  type Hasher = string -> Result<SaltedHash, Error>

  /** `getAccessToken(username, jwtService)`: a signed token for the username.
      Its source is not part of this model; it may fail. */
  type TokenIssuer = string -> Result<string, Error>

  const UsernameExistsMessage := "Username already exists"
  const InvalidCredentialsMessage := "Invalid credentials"

  /** `new UnauthorizedException('Invalid credentials')`. */
  const InvalidCredentialsError := Error(None, Some(401), InvalidCredentialsMessage)

  /** How a call to the service ends. `SignedUp` is sign-up's empty success and
      `SignedIn` sign-in's `{ accessToken }`; the others are the exceptions the
      service throws: ConflictException (409), UnauthorizedException (401),
      InternalServerErrorException (500), or an error re-thrown unchanged. */
  datatype Outcome =
    | SignedUp
    | SignedIn(accessToken: string)
    | Conflict(message: string)
    | Unauthorized(message: string)
    | InternalServerError
    | Rethrown(error: Error)

  /** Sign-up's `catch`: the duplicate-key code becomes a conflict, anything
      else goes on unchanged. */
  function SignUpCatch(e: Error): (o: Outcome)
    ensures o.Conflict? <==> e.code == Some(DuplicateKey)
    ensures o.Conflict? ==> o.message == UsernameExistsMessage
    ensures !o.Conflict? ==> o == Rethrown(e)
  {
    if e.code == Some(DuplicateKey) then Conflict(UsernameExistsMessage) else Rethrown(e)
  }

  /** Sign-in's `catch`: a 401 keeps its message, anything else becomes an
      internal server error that says nothing. */
  function SignInCatch(e: Error): (o: Outcome)
    ensures o.Unauthorized? <==> e.statusCode == Some(401)
    ensures o.Unauthorized? ==> o.message == e.message
    ensures !o.Unauthorized? ==> o == InternalServerError
  {
    if e.statusCode == Some(401) then Unauthorized(e.message) else InternalServerError
  }

  /** The outcome of a sign-up together with the table it leaves. */
  datatype SignUpEffect = SignUpEffect(outcome: Outcome, users: map<string, User>, nextId: nat)

  /** Sign-up, as a function of the table before it, the credentials, the
      hashing helper and the fault (if any) the database raises on insert. */
  function SignUpSpec(users: map<string, User>, nextId: nat, credentials: Credentials, hasher: Hasher, saveFault: Option<Error>): (e: SignUpEffect)
    ensures e.outcome == SignedUp || e.outcome == Conflict(UsernameExistsMessage) || e.outcome.Rethrown?
    ensures e.outcome == SignedUp <==> hasher(credentials.password).Success? && saveFault.None? && credentials.username !in users
    ensures e.outcome != SignedUp ==> e.users == users && e.nextId == nextId
  {
    match hasher(credentials.password)
    case Failure(err) => SignUpEffect(SignUpCatch(err), users, nextId)
    case Success(derived) =>
      var draft := UserDraft(credentials.username, derived.hashPassword, derived.salt);
      match SaveOutcome(users, nextId, draft, saveFault)
      case Failure(err) => SignUpEffect(SignUpCatch(err), users, nextId)
      case Success(user) => SignUpEffect(SignedUp, users[credentials.username := user], nextId + 1)
  }

  /** Sign-in, as a function of the table, the credentials, the comparison and
      token helpers and the fault (if any) the database raises on lookup. */
  function SignInSpec(users: map<string, User>, credentials: Credentials, compare: Compare, accessToken: TokenIssuer, lookupFault: Option<Error>): (o: Outcome)
    ensures o.SignedIn? || o.Unauthorized? || o == InternalServerError
    ensures o.SignedIn? <==> && lookupFault.None?
                             && credentials.username in users
                             && compare(credentials.password, users[credentials.username].password) == Success(true)
                             && accessToken(credentials.username).Success?
    ensures o.SignedIn? ==> accessToken(credentials.username) == Success(o.accessToken)
  {
    if lookupFault.Some? then SignInCatch(lookupFault.value)
    else if credentials.username !in users then SignInCatch(InvalidCredentialsError)
    else match users[credentials.username].ValidatePassword(credentials.password, compare)
      case Failure(err) => SignInCatch(err)
      case Success(false) => SignInCatch(InvalidCredentialsError)
      case Success(true) =>
        match accessToken(credentials.username)
        case Failure(err) => SignInCatch(err)
        case Success(token) => SignedIn(token)
  }

  // ---------------------------------------------------------------------------
  // Sign-up

  /** A sign-up for a taken username, when hashing and the database otherwise
      work, ends in the conflict and changes nothing, so the stored record and
      its hash stay as they were. */
  lemma DuplicateSignUpConflicts(users: map<string, User>, nextId: nat, credentials: Credentials, hasher: Hasher)
    requires credentials.username in users
    requires hasher(credentials.password).Success?
    ensures SignUpSpec(users, nextId, credentials, hasher, None) == SignUpEffect(Conflict(UsernameExistsMessage), users, nextId)
  {
  }

  /** A successful sign-up stores exactly one new record: under the username,
      with the next id, the derived hash in place of the password and the
      derived salt. */
  lemma SignUpStoresDerivedHash(users: map<string, User>, nextId: nat, credentials: Credentials, hasher: Hasher, saveFault: Option<Error>)
    requires SignUpSpec(users, nextId, credentials, hasher, saveFault).outcome == SignedUp
    ensures var derived := hasher(credentials.password).value;
            SignUpSpec(users, nextId, credentials, hasher, saveFault).users
              == users[credentials.username := User(nextId, credentials.username, derived.hashPassword, derived.salt)]
  {
  }

  /** A re-thrown error is the very error the hashing helper or the database
      raised, and never one with the duplicate-key code. */
  lemma SignUpRethrowsOtherErrors(users: map<string, User>, nextId: nat, credentials: Credentials, hasher: Hasher, saveFault: Option<Error>, err: Error)
    requires SignUpSpec(users, nextId, credentials, hasher, saveFault).outcome == Rethrown(err)
    ensures err.code != Some(DuplicateKey)
    ensures hasher(credentials.password) == Failure(err) || (hasher(credentials.password).Success? && saveFault == Some(err))
  {
  }

  /** Sign-up keeps the table's invariant: usernames unique, ids distinct. */
  lemma SignUpPreservesInvariant(users: map<string, User>, nextId: nat, credentials: Credentials, hasher: Hasher, saveFault: Option<Error>)
    requires TableInvariant(users, nextId)
    ensures var e := SignUpSpec(users, nextId, credentials, hasher, saveFault);
            TableInvariant(e.users, e.nextId)
  {
    if SignUpSpec(users, nextId, credentials, hasher, saveFault).outcome == SignedUp {
      var derived := hasher(credentials.password).value;
      SavePreservesInvariant(users, nextId, UserDraft(credentials.username, derived.hashPassword, derived.salt), saveFault);
    }
  }

  // ---------------------------------------------------------------------------
  // Sign-in

  /** An unknown username and a wrong password for a known one end alike: the
      same 401 with the same message, so a caller cannot tell them apart. */
  lemma UnknownUserLikeWrongPassword(unknown: map<string, User>, known: map<string, User>, credentials: Credentials, compare: Compare, accessToken: TokenIssuer)
    requires credentials.username !in unknown
    requires credentials.username in known
    requires compare(credentials.password, known[credentials.username].password) == Success(false)
    ensures SignInSpec(unknown, credentials, compare, accessToken, None) == Unauthorized(InvalidCredentialsMessage)
    ensures SignInSpec(known, credentials, compare, accessToken, None) == Unauthorized(InvalidCredentialsMessage)
  {
  }

  /** A failure of the lookup, of the comparison or of token issuance that is
      not itself a 401 ends in the internal server error, whatever it was. */
  lemma OtherSignInFailuresAreInternal(users: map<string, User>, credentials: Credentials, compare: Compare, accessToken: TokenIssuer, lookupFault: Option<Error>, err: Error)
    requires err.statusCode != Some(401)
    requires || lookupFault == Some(err)
             || (lookupFault.None? && credentials.username in users
                 && compare(credentials.password, users[credentials.username].password) == Failure(err))
             || (lookupFault.None? && credentials.username in users
                 && compare(credentials.password, users[credentials.username].password) == Success(true)
                 && accessToken(credentials.username) == Failure(err))
    ensures SignInSpec(users, credentials, compare, accessToken, lookupFault) == InternalServerError
  {
  }

  /** Round trip: after a successful sign-up, signing in with the same
      credentials yields the token issued for the username. This rests on an
      assumption about bcrypt that is stated, not proved: `compare` accepts the
      hash derived from the same password. */
  lemma SignUpThenSignIn(users: map<string, User>, nextId: nat, credentials: Credentials, hasher: Hasher, compare: Compare, accessToken: TokenIssuer)
    requires credentials.username !in users
    requires hasher(credentials.password).Success?
    requires compare(credentials.password, hasher(credentials.password).value.hashPassword) == Success(true)
    requires accessToken(credentials.username).Success?
    ensures var e := SignUpSpec(users, nextId, credentials, hasher, None);
            && e.outcome == SignedUp
            && SignInSpec(e.users, credentials, compare, accessToken, None) == SignedIn(accessToken(credentials.username).value)
  {
  }

  // ---------------------------------------------------------------------------
  // The service

  class AuthService {
    const userRepository: UserRepository
    const hasher: Hasher
    const compare: Compare
    const accessToken: TokenIssuer

    ghost predicate Valid()
      reads this, userRepository
    {
      userRepository.Valid()
    }

    constructor (userRepository: UserRepository, hasher: Hasher, compare: Compare, accessToken: TokenIssuer)
      requires userRepository.Valid()
      ensures Valid()
      ensures this.userRepository == userRepository && this.hasher == hasher
      ensures this.compare == compare && this.accessToken == accessToken
    {
      this.userRepository := userRepository;
      this.hasher := hasher;
      this.compare := compare;
      this.accessToken := accessToken;
    }

    /** Hashes the password, builds the record and saves it; `saveFault` is a
        failure the database raises on insert other than the constraint. */
    method SignUp(credentials: Credentials, saveFault: Option<Error>) returns (o: Outcome)
      requires Valid()
      modifies userRepository
      ensures Valid()
      ensures SignUpEffect(o, userRepository.users, userRepository.nextId)
              == SignUpSpec(old(userRepository.users), old(userRepository.nextId), credentials, hasher, saveFault)
    {
      var derived := hasher(credentials.password);
      if derived.Failure? {
        return SignUpCatch(derived.error);
      }
      var newUser := UserDraft(credentials.username, derived.value.hashPassword, derived.value.salt);
      var saved := userRepository.Save(newUser, saveFault);
      if saved.Failure? {
        o := SignUpCatch(saved.error);
      } else {
        o := SignedUp;
      }
    }

    /** Looks the user up, checks the password and issues a token; every error
        on the way goes through one `catch`. It has no `modifies` clause: it
        changes nothing. `lookupFault` is a failure of the database on lookup. */
    method SignIn(credentials: Credentials, lookupFault: Option<Error>) returns (o: Outcome)
      requires Valid()
      ensures o == SignInSpec(userRepository.users, credentials, compare, accessToken, lookupFault)
    {
      var thrown: Option<Error> := None;
      var found := userRepository.FindOneBy(credentials.username, lookupFault);
      if found.Failure? {
        thrown := Some(found.error);
      } else if found.value.None? {
        thrown := Some(InvalidCredentialsError);
      } else {
        var valid := found.value.value.ValidatePassword(credentials.password, compare);
        if valid.Failure? {
          thrown := Some(valid.error);
        } else if !valid.value {
          thrown := Some(InvalidCredentialsError);
        } else {
          var token := accessToken(credentials.username);
          if token.Failure? {
            thrown := Some(token.error);
          } else {
            return SignedIn(token.value);
          }
        }
      }
      o := SignInCatch(thrown.value);
    }
  }
}

# Task backend: authentication core and request validation, in Dafny

This project models the parts of a NestJS task backend that hold decisions:

- **Sign-up and sign-in** (`AuthService`, over the `UserRepository` class). Sign-up derives a salt and a salted hash and inserts an account. A duplicate-key failure becomes a 409 conflict; any other failure is re-thrown unchanged. Sign-in looks the account up, compares the password and issues a token. An unknown user and a wrong password give the same 401. Any other failure that is not a 401 becomes a 500.
- **The account record** (`UserEntity`). The table is a map keyed by username, which models the database's unique constraint. Ids are generated and distinct. `validatePassword` reads only the stored hash.
- **Request validation** (`AuthCredentials`, `CreateTask`, `GetTasksFilter`, `UpdateTask`). These model class-validator's decorators as functions from a request body to a verdict. The sign-up, sign-in, create and update handlers apply a validation pipe to their bodies. The listing handler takes its filter query without one (src/tasks/tasks.controller.ts:66-67), and the bootstrap file installs no global pipe. So unless the module wiring, which is not part of this model, registers one, the `GetTasksFilter` rules state what the filter declares rather than what a listing request is checked against.
- **The password-strength pattern** (`PasswordPattern`). It is modelled with ECMAScript's regular-expression semantics. The pattern is not anchored. `.` stops at line terminators. `$` matches only at the end of the input. The classes are ASCII. `PatternMatches` carries a characterisation that needs no backtracking. `Test` decides the pattern with three loops and is proved equal to the regex semantics.

The bcrypt and JWT helpers are function-valued fields of the service class: `hasher` (`getSaltAndHashPassword`), `compare` (`bcrypt.compare`) and `accessToken` (`getAccessToken`). Their bodies are not modelled. Database failures other than the unique constraint are method parameters (`saveFault`, `lookupFault`). Each flow also has a pure specification function (`SignUpSpec`, `SignInSpec`). The class methods are proved equal to these functions, and the lemmas are stated over them.

Three behaviours of the code are easy to miss:

- A sign-up failure other than the duplicate key is re-thrown unchanged (src/auth/auth.service.ts:44). It is not turned into an opaque internal failure.
- In sign-in, an error carrying HTTP status 401 from any collaborator becomes a 401 with that error's own message (src/auth/auth.service.ts:71). Only other errors become 500.
- The password rule is stricter and odder than "one upper-case letter, one lower-case letter, one digit or symbol" (src/auth/dto/auth-credentials.dto.ts:4-8). Only the text after the last line terminator counts, and dots that open it are skipped. So `".Abc"` and `"Ab\n1"` are refused, while `"Abc."` and `"x\nAb1"` are accepted (`LeadingDotDoesNotCount`, `OnlyLastLineCounts`).

## Model

| member | source | states |
|---|---|---|
| PasswordPattern.PatternMatches | src/auth/dto/auth-credentials.dto.ts:31 | The pattern matches iff some start index i has s[i] neither '.' nor '\n', no line terminator from i on, and an upper-case letter, a lower-case letter and a digit or non-word character from i on. |
| PasswordPattern.SuffixCharacterisation | src/auth/dto/auth-credentials.dto.ts:31 | Let j be the index just past the last line terminator, and i the first index from j on that is not '.'. The pattern matches iff the suffix from i holds all three kinds of character. |
| PasswordPattern.Test | src/auth/dto/auth-credentials.dto.ts:30-33 | The three-loop decision procedure returns exactly whether the regex matches. |
| PasswordPattern.MissingLetterCaseRejected | src/auth/dto/auth-credentials.dto.ts:31 | A string with no ASCII upper-case letter, or with no ASCII lower-case letter, does not match. |
| PasswordPattern.LettersOnlyRejected | src/auth/dto/auth-credentials.dto.ts:4-8 | A string of ASCII letters only does not match, since it has no digit and no non-word character. |
| PasswordPattern.TrailingLineTerminatorRejected | src/auth/dto/auth-credentials.dto.ts:31 | A string ending in a line terminator does not match. |
| PasswordPattern.SingleLinePasswordAccepted | src/auth/dto/auth-credentials.dto.ts:31 | A string matches if it has no line terminator, does not start with '.', and holds an upper-case letter, a lower-case letter and a digit. |
| PasswordPattern.AppendKeepsMatch | src/auth/dto/auth-credentials.dto.ts:31 | Appending characters that are not line terminators to a matching string keeps it matching. |
| PasswordPattern.MatchImpliesLengthAtLeast3 | src/auth/dto/auth-credentials.dto.ts:28-31 | Every matching string has at least three characters. |
| PasswordPattern.LeadingDotDoesNotCount | src/auth/dto/auth-credentials.dto.ts:31 | ".Abc" does not match: a leading '.' is not the special character. "Abc." matches. |
| PasswordPattern.OnlyLastLineCounts | src/auth/dto/auth-credentials.dto.ts:31 | "Ab\n1" does not match although it holds all three kinds. "x\nAb1" matches. |
| Validation.MeasuredLength | src/auth/dto/auth-credentials.dto.ts:17-18 | The length MinLength and MaxLength measure is at most the number of `char`s. It equals that number iff the string holds no variation selector (U+FE0E, U+FE0F). |
| Validation.MeasuredLengthAppend | src/auth/dto/auth-credentials.dto.ts:28-29 | That length adds up over a concatenation. |
| Validation.SelectorsAppended | src/auth/dto/auth-credentials.dto.ts:28-29 | Appending variation selectors leaves that length unchanged. |
| AuthCredentials.UsernameViolations | src/auth/dto/auth-credentials.dto.ts:16-19 | A username is accepted iff it is a string whose length, as validator.js measures it, is 4 to 20. Every violation names the username property. |
| AuthCredentials.PasswordViolations | src/auth/dto/auth-credentials.dto.ts:27-33 | A password is accepted iff it is a string whose length, as validator.js measures it, is 3 to 20, and which matches the pattern. The 'password too weak' violation occurs iff the value is not a matching string. |
| AuthCredentials.Validate | src/auth/dto/auth-credentials.dto.ts:16-33 | The body is accepted iff both properties have no violation. Validation never fails in a transform. |
| AuthCredentials.MatchingPasswordLongEnough | src/auth/dto/auth-credentials.dto.ts:28-31 | A password that matches the pattern and holds no variation selector never violates MinLength(3). |
| AuthCredentials.SelectorMatchesButTooShort | src/auth/dto/auth-credentials.dto.ts:28-31 | "Ab" followed by U+FE0F matches the pattern, whose `\W` counts the selector, yet violates MinLength(3) and nothing else. |
| AuthCredentials.SelectorsNotCountedByMaxLength | src/auth/dto/auth-credentials.dto.ts:27-33 | "Passw0rd" followed by thirteen U+FE0F, 21 `char`s long, is accepted: MaxLength(20) does not count the selectors. |
| AuthCredentials.WeakPasswordRejected | src/auth/dto/auth-credentials.dto.ts:30-33 | Some passwords are refused with exactly one violation, 'password too weak': a measured length of 3 to 20, plus a missing letter case, letters only, or a final line terminator. |
| AuthCredentials.ExampleCredentialsAccepted | src/auth/dto/auth-credentials.dto.ts:10-33 | The documented example, username "usuario123" with password "Password123", is accepted. |
| TaskStatus.Parse | src/tasks/dto/get-tasks-filter.dto.ts:14 | A string names a status only if it equals that member's value exactly. Each member's value names that member. |
| CreateTask.Violations | src/tasks/dto/create-task.dto.ts:11-20 | A property violates IsNotEmpty iff it is missing or ''. There are no other violations. |
| CreateTask.Validate | src/tasks/dto/create-task.dto.ts:11-20 | The body is accepted iff the title and the description are both present and not ''. |
| CreateTask.OnlyMissingOrEmptyRejected | src/tasks/dto/create-task.dto.ts:11-20 | Any present values other than '' are accepted. There is no trimming and no maximum length. |
| CreateTask.CreateTaskExamples | src/tasks/dto/create-task.dto.ts:11-20 | A missing title is refused, and so is an empty description. White-space strings are accepted. |
| GetTasksFilter.StatusViolations | src/tasks/dto/get-tasks-filter.dto.ts:13-15 | A status is accepted iff it is absent or a string spelling OPEN, IN_PROGRESS or DONE exactly. |
| GetTasksFilter.SearchViolations | src/tasks/dto/get-tasks-filter.dto.ts:22-24 | A search is accepted iff it is not ''. |
| GetTasksFilter.Validate | src/tasks/dto/get-tasks-filter.dto.ts:13-24 | A filter is accepted iff neither its status nor its search has a violation. Validation never fails in a transform. |
| GetTasksFilter.IndependentChecks | src/tasks/dto/get-tasks-filter.dto.ts:13-24 | A filter is accepted iff its status alone and its search alone would be. |
| GetTasksFilter.SearchRejectedOnlyWhenEmpty | src/tasks/dto/get-tasks-filter.dto.ts:22-24 | A string search is refused iff it is ''. White space passes. |
| GetTasksFilter.StatusMustBeExact | src/tasks/dto/get-tasks-filter.dto.ts:13-15 | A string status is accepted iff it is one of "OPEN", "IN_PROGRESS", "DONE". There is no case folding. |
| GetTasksFilter.FilterExamples | src/tasks/dto/get-tasks-filter.dto.ts:13-24 | The empty filter is accepted. "open" is refused by IsIn. |
| UpdateTask.ToUpperCase | src/tasks/dto/update-task.dto.ts:34 | Upper-casing keeps the length and maps each ASCII lower-case letter to its upper-case letter. Every other character is unchanged. |
| UpdateTask.ToUpperCaseIdempotent | src/tasks/dto/update-task.dto.ts:34 | Upper-casing twice gives the same result as upper-casing once. |
| UpdateTask.TransformStatus | src/tasks/dto/update-task.dto.ts:34 | The transform keeps null or undefined as absent and upper-cases a string. It throws on any other value. |
| UpdateTask.TitleViolations | src/tasks/dto/update-task.dto.ts:13-16 | A title is accepted iff it is absent or a string whose measured length is at least 3. |
| UpdateTask.DescriptionViolations | src/tasks/dto/update-task.dto.ts:23-25 | A description is accepted iff it is absent or a string of any length. |
| UpdateTask.StatusViolations | src/tasks/dto/update-task.dto.ts:33-35 | A transformed status is accepted iff it is absent or a string equal to a member's value. |
| UpdateTask.Validate | src/tasks/dto/update-task.dto.ts:13-36 | Validation fails in the transform iff the status is a non-string. With a string status, the body is accepted iff the title and description pass and the upper-cased status names a member. With no status, it is accepted iff the title and description pass. |
| UpdateTask.CaseInsensitiveStatus | src/tasks/dto/update-task.dto.ts:34-35 | A status whose upper-case form equals a member's is accepted, transformed into exactly that member's value. |
| UpdateTask.UnknownStatusRejected | src/tasks/dto/update-task.dto.ts:35 | A status whose upper-case form names no member is refused by IsEnum alone. |
| UpdateTask.UpdateExamples | src/tasks/dto/update-task.dto.ts:13-25 | An empty update is accepted. A 2-character title is refused by MinLength(3). An empty description is accepted. |
| UpdateTask.LowerCaseStatusExample | src/tasks/dto/update-task.dto.ts:34-35 | "in_progress" is accepted. |
| UpdateTask.UnknownStatusExample | src/tasks/dto/update-task.dto.ts:35 | "closed" is refused by IsEnum. |
| UserEntity.User.ValidatePassword | src/auth/user.entity.ts:51-53 | The answer, or the failure, is the one `compare` gives for the plaintext and the stored hash. The salt is not involved. |
| UserEntity.ValidatePasswordReadsOnlyHash | src/auth/user.entity.ts:51-53 | validatePassword depends on the stored hash alone. Two accounts with the same hash answer alike, whatever their salt, id or username. |
| UserEntity.UsernamesUnique | src/auth/user.entity.ts:8 | Under the table invariant, no two stored accounts share a username. |
| UserEntity.SaveOutcome | src/auth/user.entity.ts:8-15 | An insert succeeds iff there is no database fault and the username is free. A taken username gives the duplicate-key error. A stored record gets the next id and the draft's fields. |
| UserEntity.SavePreservesInvariant | src/auth/user.entity.ts:8-15 | A successful insert keeps usernames unique and ids distinct and below the counter. It leaves every existing record unchanged. |
| UserEntity.UserRepository.FindOneBy | src/auth/auth.service.ts:61 | The lookup is exact. It finds a record iff the username is stored, and the record it returns carries that username. A database fault is passed on. |
| UserEntity.UserRepository.Save | src/auth/auth.service.ts:39 | The insert follows SaveOutcome and keeps the table invariant. It adds the one record on success and changes nothing on failure. |
| AuthService.SignUpCatch | src/auth/auth.service.ts:40-45 | The duplicate-key code becomes Conflict('Username already exists'). Any other error is re-thrown unchanged. |
| AuthService.SignInCatch | src/auth/auth.service.ts:68-72 | An error with status 401 becomes Unauthorized with its own message. Any other error becomes InternalServerError. |
| AuthService.SignUpSpec | src/auth/auth.service.ts:29-47 | Sign-up issues no token: it ends in success, the conflict or a re-thrown error. It succeeds iff hashing succeeds, the database raises no fault and the username is free. Every failure leaves the table as it was. |
| AuthService.SignInSpec | src/auth/auth.service.ts:57-74 | Sign-in ends in a token, a 401 or a 500. It yields a token iff the lookup works, the user exists, compare accepts and issuance succeeds, and the token is the one issued for the username. |
| AuthService.DuplicateSignUpConflicts | src/auth/auth.service.ts:39-42 | Signing up a taken username gives Conflict('Username already exists'). The table, including the existing record, is unchanged. |
| AuthService.SignUpStoresDerivedHash | src/auth/auth.service.ts:33-38 | A successful sign-up adds one record: the next id, the username, the derived hash as the password and the derived salt. |
| AuthService.SignUpRethrowsOtherErrors | src/auth/auth.service.ts:43-45 | A re-thrown error is exactly the one the hasher or the database raised, and never has the duplicate-key code. |
| AuthService.SignUpPreservesInvariant | src/auth/auth.service.ts:33-39 | Sign-up keeps usernames unique and ids distinct. |
| AuthService.UnknownUserLikeWrongPassword | src/auth/auth.service.ts:61-63 | An unknown username and a wrong password both give Unauthorized('Invalid credentials'). |
| AuthService.OtherSignInFailuresAreInternal | src/auth/auth.service.ts:68-72 | A lookup, compare or token failure whose status is not 401 gives InternalServerError. |
| AuthService.SignUpThenSignIn | src/auth/auth.service.ts:29-67 | After a successful sign-up, sign-in with the same credentials returns the issued token. This assumes compare accepts the hash derived from the same password. |
| AuthService.AuthService.SignUp | src/auth/auth.service.ts:29-47 | The method's outcome and the new table are exactly SignUpSpec of the old table. It keeps the table invariant. |
| AuthService.AuthService.SignIn | src/auth/auth.service.ts:57-74 | The outcome is exactly SignInSpec of the table. The method has no modifies clause, so it changes nothing. |

## Left out

- Controllers, the bootstrap file, the module wiring and the user decorator hold routing, configuration and framework glue only.
- Task ownership, listing and filtering live in src/tasks/tasks.service.ts, which is not part of this model.
- The access guard and token verification (the JWT strategy) are not part of this model.
- bcrypt and JWT internals are left out: salt generation, hash cost, token signing and expiry (RFC 7519). The helpers are uninterpreted function fields.
- Salt randomness is not modelled: the hasher is a function, so the same password gives the same salt.
- The round trip in SignUpThenSignIn assumes that `compare` accepts the hash derived from the same password. It is a `requires`, not a proved fact.
- The Logger call (src/auth/auth.service.ts:69) and the async/Promise plumbing are left out. Calls run in sequence.
- Concurrent sign-ups are left out: the store is one map whose unique key is the username.
- UserEntity.SaveOutcome: the database engine is not part of this model. Many engines advance the key sequence on a failed insert too, so real ids can have gaps. The model advances the counter only on success. Both give distinct ids.
- The concrete value of the duplicate-key code (src/auth/helpers/auth.constants.ts) is not part of this model. It is the abstract constructor `DuplicateKey`.
- The database's own error message for a duplicate key is a placeholder: no flow reads it.
- The eager `tasks` relation of the user record (src/auth/user.entity.ts:42) is left out.
- The TaskStatus enum file is not part of this model. src/tasks/dto/get-tasks-filter.dto.ts:14 names only the members OPEN, IN_PROGRESS and DONE. Two things are assumed about it.
- TaskStatus.Parse: each member's string value is assumed equal to its name ("OPEN", "IN_PROGRESS", "DONE").
- UpdateTask.StatusViolations: the enum is assumed to have exactly these three members. IsEnum (src/tasks/dto/update-task.dto.ts:35) accepts every member, so a further member would be accepted by the update but still refused by the filter's IsIn.
- A `char` is a Unicode scalar value. A character beyond U+FFFF is two UTF-16 code units in JavaScript. validator.js `isLength`, behind MinLength and MaxLength, counts such a pair once, as `Validation.MeasuredLength` does. The regex sees two `\W` code units where the model sees one `\W` character; neither is a line terminator or '.', so the verdict is the same.
- Validation.MeasuredLength: it follows the `isLength` of current validator.js releases, which leave U+FE0E and U+FE0F out of the length. The library version the project locks is not part of this model.
- Lone surrogates, which JSON text may carry as escapes, are not Unicode scalar values and cannot be written as a `string` here. Strings holding them are left out.
- UpdateTask.ToUpperCase: only ASCII letters are mapped. `toUpperCase` also maps other letters, such as 'ß' to "SS" and 'ı' to 'I'.
- UpdateTask.Validate: the model does not say whether the handler receives the upper-cased value.
- UpdateTask.Validate: a non-string status makes the transform throw a TypeError. The framework reports that as a server error. The model only says `TransformFailed`.
- class-validator's default messages are left out, as are the pipe's options (whitelisting, unknown values). A violation names the failed decorator, and only the pattern's custom message is kept.

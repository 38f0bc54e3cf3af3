/** Errors as the service's `catch` blocks inspect them. */
module Exceptions {
  import opened Wrappers

  /** The database error codes the sign-up flow tells apart. The concrete value
      of the duplicate-key code (src/auth/helpers/auth.constants.ts) is not part
      of this model, so it is an abstract constructor here. */
  datatype ErrorCode = DuplicateKey | OtherCode(name: string)

  /** A thrown error: its `code` (set by the database driver), its
      `response.statusCode` (set by the HTTP exceptions of the framework) and
      its `message`. */
  datatype Error = Error(code: Option<ErrorCode>, statusCode: Option<int>, message: string)

  /** What the database raises when an insert violates the unique constraint. */
  const DuplicateKeyError := Error(Some(DuplicateKey), None, "duplicate key")
}

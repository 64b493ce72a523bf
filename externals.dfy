/** The library calls the service makes but whose code is not modelled, as
    total function values handed to the model. */
module Externals {
  import opened Wrappers
  import opened JsonValues

  /** What make_password produces: "algorithm$...", never empty. */
  type Encoded = s: string | s != "" witness "!"

  datatype Externals = Externals(
    /** Django's make_password under the configured BCryptSHA256 hasher (salt left out). */
    hash: string -> Encoded,
    /** base64.b64decode(...).decode('utf-8'); None where either step raises. */
    b64decode: string -> Option<string>,
    /** json.loads; None where it raises JSONDecodeError. */
    jsonLoads: string -> Option<Json>,
    /** Django's EmailValidator. */
    isEmail: string -> bool
  )

  /** django.contrib.auth.hashers.check_password against a stored hash. An
      empty stored value (a user created without a password) names no hasher,
      so it matches no password. */
  predicate CheckPassword(ext: Externals, raw: string, stored: string)
  {
    stored != "" && ext.hash(raw) == stored
  }

  /** A user stored without a password cannot authenticate, and a password
      always checks against its own hash. */
  lemma CheckPasswordEmpty(ext: Externals, raw: string)
    ensures !CheckPassword(ext, raw, "")
    ensures CheckPassword(ext, raw, ext.hash(raw))
  {
  }
}

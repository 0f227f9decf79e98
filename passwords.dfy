/** The two foreign libraries the handlers call on passwords: bcrypt
    (hash, compare) and zxcvbn (strength score). They are not modelled;
    the handlers receive them as a `Kit` of uninterpreted functions. */
module Passwords {

  /** The lowest zxcvbn score a password may have. */
  const MIN_SCORE: nat := 3

  datatype Kit = Kit(
    hash: string -> string,              // Bcrypt.hash(password, SALT)
    compare: (string, string) -> bool,   // Bcrypt.compare(password, digest)
    score: string -> nat)                // Zxcvbn(password).score
  {
    /** isPasswordStrongEnough */
    predicate StrongEnough(password: string)
      ensures StrongEnough(password) <==> score(password) >= 3
    {
      score(password) >= MIN_SCORE
    }

    /** A digest of a password matches that password. */
    ghost predicate Sound() {
      forall p :: compare(p, hash(p))
    }
  }
}

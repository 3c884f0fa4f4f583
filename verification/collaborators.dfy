/**
 * The collaborators the core calls but whose code is not part of this model:
 * password hashing (bcrypt), token signing and verification (JWT), the
 * up-front e-mail and password validators, the clock, the object-id
 * generator, the runtime mode and the stack trace of a raised error. Each is
 * a parameter; `fault` is an exception the first storage or collaborator call
 * of a request throws.
 */
module Collaborators {
  import opened Common
  import opened Http

  datatype Crypto = Crypto(
    hash: string -> string,             // bcrypt.hash(plain, 10)
    compare: (string, string) -> bool,  // bcrypt.compare(plain, hashed)
    sign: Id -> string,                 // generateToken(subject)
    verify: string -> Option<Id>)       // verifyToken(token); None when it throws

  /** `validateEmail` and `validatePassword`, used only by the validating controller. */
  datatype Validators = Validators(email: string -> bool, password: string -> bool)

  datatype World = World(
    crypto: Crypto,
    validators: Validators,
    fault: Option<Thrown>,
    now: int,
    freshId: Id,
    mode: string,
    trace: string)

  /** A token issued for a subject verifies back to that subject (while it is unexpired). */
  ghost predicate TokensRoundTrip(c: Crypto) {
    forall subject: Id :: c.verify(c.sign(subject)) == Some(subject)
  }

  /** A password matches its own hash. */
  ghost predicate HashMatches(c: Crypto) {
    forall plain: string :: c.compare(plain, c.hash(plain))
  }
}

/** Password hashing (bcrypt) and token signing (JSON Web Tokens), abstracted
    to uninterpreted operations. */
module Crypto {

  /** The claims a session token carries. */
  datatype TokenPayload = TokenPayload(userId: string, email: string)

  /** `hash(password, rounds, salt)` stands for `bcrypt.hash` with a random
      salt, `compare` for `bcrypt.compare`, `sign(payload, secret)` for
      `jwt.sign`. Nothing is assumed of them except what `Sound` states. */
  datatype Primitives = Primitives(
    hash: (string, nat, nat) -> string,
    compare: (string, string) -> bool,
    sign: (TokenPayload, string) -> string)
  {
    /** The one property relied on: a password matches its own hash. */
    ghost predicate Sound() {
      forall p, rounds, salt :: compare(p, hash(p, rounds, salt))
    }
  }

  /** The bcrypt cost factor passed to `hash` on registration. */
  const SaltRounds: nat := 10
}

/** Idealised stand-ins for the cryptographic libraries the service calls (passlib's bcrypt,
    the JWT library, pyotp's code derivation). Each is a term that records what went into it,
    so the model can state exactly the properties the service relies on and no more. */
module Primitives {

  /** A stored password digest. `Bcrypt` is the digest passlib produces: the random salt
      drawn for it and the password it was computed from (bcrypt is treated as a perfect
      one-way function, so two digests verify the same password only if they were made from
      it). `Unparsable` is a stored string that is not a bcrypt digest at all. */
  datatype PasswordHash = Bcrypt(salt: nat, password: string) | Unparsable(text: string)

  /** A compact JWT. `Signed` is a token the library produced: its claim set, the `exp`
      claim of section 4.1.4 of RFC 7519 in whole seconds, the `alg` header and the key it
      was signed with (HMAC is treated as unforgeable, so only the key holder can produce a
      `Signed` term with that key). `Garbled` is any other bearer string. */
  datatype Jwt = Signed(claims: map<string, string>, exp: int, alg: string, key: string)
               | Garbled(text: string)

  /** The HOTP code derivation of RFC 4226 that section 4 of RFC 6238 applies to a time-step
      counter: from the shared secret and a counter to the code string. It is a parameter of
      every member that checks codes, so nothing is assumed about it beyond being a function. */
  type CodeGenerator = (string, int) -> string
}

/**
 * The library calls the core makes but does not define: bcrypt's `hashSync`
 * and `compareSync`, and the validator's `isEmail`. They are carried as
 * function values, so every property is proved for every implementation.
 */
module Externals {

  datatype Env = Env(
    hash: string -> string,
    compare: (string, string) -> bool,
    isEmail: string -> bool)

  /** The one fact about bcrypt the model relies on: a password verifies against its own hash. */
  ghost predicate HashVerifies(env: Env) {
    forall pw: string :: env.compare(pw, env.hash(pw))
  }
}

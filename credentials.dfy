/** Password hashing as the user registry consumes it: `set_password` stores a
    salted hash, `check_password` recomputes the hash of a candidate password
    with the stored salt and compares. The adaptive work factor and the actual
    key-derivation function of bcrypt are not modelled; the derivation is
    idealised as injective in the password. The registry relies on two facts:
    a password matches its own hash, and different passwords give different
    keys. */
module Credentials {

  /** The random salt drawn when a hash is made; randomness enters the model as this value. */
  type Salt = nat

  /** A stored password hash: the salt it was made with and the derived key. */
  datatype PasswordHash = PasswordHash(salt: Salt, key: seq<char>)

  /** Idealised key derivation: it ignores the salt and returns the password
      unchanged, so the stored key is the plaintext. It stands in for bcrypt
      only through the two facts the registry uses: a password matches its
      own hash, and distinct passwords give distinct keys. */
  function DeriveKey(salt: Salt, password: string): seq<char>
  {
    password
  }

  /** `set_password`: hash a password under a freshly drawn salt. */
  function Hash(password: string, salt: Salt): (h: PasswordHash)
    ensures h.salt == salt
    ensures Check(h, password)
    ensures forall candidate :: Check(h, candidate) ==> candidate == password
  {
    PasswordHash(salt, DeriveKey(salt, password))
  }

  /** `check_password`: rederive the key with the stored salt and compare. */
  predicate Check(h: PasswordHash, password: string)
  {
    DeriveKey(h.salt, password) == h.key
  }

  /** A password always checks against its own hash, whatever salt was drawn.
      A corollary of the contract of `Hash`, kept as the statement the tests rely on. */
  lemma CheckHash(password: string, salt: Salt)
    ensures Check(Hash(password, salt), password)
  {
  }

  /** A hash accepts exactly the password it was made from.
      A corollary of the contract of `Hash`, kept as the statement the tests rely on. */
  lemma CheckRejectsOther(password: string, candidate: string, salt: Salt)
    ensures Check(Hash(password, salt), candidate) <==> candidate == password
  {
  }
}

/**
 * Stand-ins for the two libraries the auth routes call: bcrypt (hash and
 * compare) and jsonwebtoken (sign). Neither's cryptography is modelled: a
 * digest is a deterministic function of its inputs and nothing else is
 * relied on.
 */
module Crypto {

  /** The cost factor the register route passes to bcrypt. */
  const SaltRounds: nat := 10

  /** The `expiresIn: '24h'` of a login token, in seconds. */
  const TokenLifetime: nat := 24 * 60 * 60

  /** A stored bcrypt hash: cost factor, random salt and digest, with no plaintext field. */
  datatype Hash = Bcrypt(cost: nat, salt: string, digest: int)

  /** The claims a login token carries: `{ id: user.id }`. */
  datatype Payload = Payload(id: int)

  /** A signed token with its lifetime in seconds. */
  datatype Token = Jwt(payload: Payload, expiresIn: nat, signature: int)

  /** Placeholder for a key derivation: deterministic in its two inputs. */
  function Digest(text: string, salt: string): int
  {
    if text == [] then |salt| else Digest(text[..|text| - 1], salt) * 257 + text[|text| - 1] as int
  }

  /** bcrypt.hash(plain, cost) with the salt it drew at random. */
  function HashPassword(plain: string, cost: nat, salt: string): (h: Hash)
    ensures h.cost == cost && h.salt == salt
  {
    Bcrypt(cost, salt, Digest(plain, salt))
  }

  /** bcrypt.compare(plain, hash): re-derive with the stored salt and compare digests. */
  predicate Compare(plain: string, h: Hash)
  {
    Digest(plain, h.salt) == h.digest
  }

  /** A password always matches the hash made from it. */
  lemma CompareAcceptsOwnHash(plain: string, cost: nat, salt: string)
    ensures Compare(plain, HashPassword(plain, cost, salt))
  {
  }

  /** jwt.sign(payload, secret, { expiresIn }). */
  function Sign(payload: Payload, secret: string, expiresIn: nat): (t: Token)
    ensures t.payload == payload && t.expiresIn == expiresIn
  {
    Jwt(payload, expiresIn, Digest(secret, "") + payload.id + expiresIn)
  }
}

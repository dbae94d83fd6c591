/**
 SHA-256 and Ed25519 as parameters: total functions with one law, that a
 genuine signature verifies. Nothing is said about how hard collisions are to
 find; statements that lean on the digest name the two inputs that would collide.
 */
module Crypto {
  import opened Wrappers

  type Digest = b: bytes | |b| == 32 witness seq(32, _ => 0)
  type SigningKey = b: bytes | |b| == 32 witness seq(32, _ => 0)
  type VerifyingKey = b: bytes | |b| == 32 witness seq(32, _ => 0)
  type Signature = b: bytes | |b| == 64 witness seq(64, _ => 0)

  datatype Primitives = Primitives(
    sha256: bytes -> Digest,
    verifyingKey: SigningKey -> VerifyingKey,
    sign: (SigningKey, bytes) -> Signature,
    verify: (VerifyingKey, bytes, Signature) -> bool)

  ghost predicate Lawful(p: Primitives) {
    forall key: SigningKey, message: bytes ::
      p.verify(p.verifyingKey(key), message, p.sign(key, message))
  }

  const ZEROS: bytes := seq(64, _ => 0)

  const TOY: Primitives :=
    Primitives(_ => ZEROS[..32], _ => ZEROS[..32], (_, _) => ZEROS, (_, _, _) => true)

  type Suite = p: Primitives | Lawful(p) witness TOY

  ghost predicate Collision(c: Suite, x: bytes, y: bytes) { x != y && c.sha256(x) == c.sha256(y) }
}

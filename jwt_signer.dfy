/** jwt/signer.go: the HS256 signer, which keeps its own copy of the
    secret and tags messages with HMAC-SHA256. */
module JwtSigner {
  import opened Common
  import opened JwtToken
  import opened JwtPrimitives

  class HS256 {
    const secret: array<byte>

    /** HS256Signer: the secret is copied into a fresh array, so later
        writes to the caller's bytes do not reach the signer. */
    constructor (key: array<byte>)
      ensures fresh(secret)
      ensures secret[..] == key[..]
    {
      var copy := new byte[key.Length];
      var i := 0;
      while i < key.Length
        invariant 0 <= i <= key.Length
        invariant copy[..i] == key[..i]
      {
        copy[i] := key[i];
        i := i + 1;
      }
      secret := copy;
    }

    /** The JOSE name of the algorithm (section 3.1 of RFC 7518). */
    function Algorithm(): (alg: string)
      ensures alg != "" && alg != "none"
    {
      "HS256"
    }

    /** The HMAC-SHA256 tag of `msg` under the signer's copy of the
        secret. */
    function Sign(msg: string, prims: Primitives): (r: Result<Bytes, Error>)
      reads secret
      ensures Lawful(prims) && r.Ok? ==> |r.value| == 32
    {
      prims.hmac(secret[..], msg)
    }
  }
}

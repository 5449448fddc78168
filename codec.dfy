/**
  The message codec (AES-256-CBC with a process-wide key and a fresh 16-byte
  iv per message), modelled symbolically: a ciphertext records the key and
  the iv it was sealed with, and can be opened only with both.
*/
module Codec {
  import opened Outcomes

  type Byte = bv8

  const KeyLength: nat := 32
  const IvLength: nat := 16

  /** The process refuses to start unless its key is exactly 32 bytes. */
  type Key = k: seq<Byte> | |k| == KeyLength witness seq(KeyLength, _ => 0)

  /** An iv as drawn from the random source: exactly 16 bytes. */
  type Iv = v: seq<Byte> | |v| == IvLength witness seq(IvLength, _ => 0)

  datatype Cipher = Sealed(key: seq<Byte>, iv: seq<Byte>, plain: string)

  /** Opening fails, never garbles, when the key or the iv does not match. */
  function Decrypt(key: Key, iv: seq<Byte>, c: Cipher): (r: Option<string>)
    ensures r.Some? <==> c.key == key && c.iv == iv
  {
    if c.key == key && c.iv == iv then Some(c.plain) else None
  }

  /** Encryption under the process key and a caller-supplied iv; the result
      opens to the plaintext with that iv and with no other. */
  function Encrypt(key: Key, iv: Iv, m: string): (c: Cipher)
    ensures Decrypt(key, iv, c) == Some(m)
    ensures forall other: seq<Byte> :: other != iv ==> Decrypt(key, other, c) == None
    ensures forall k: Key :: k != key ==> Decrypt(k, iv, c) == None
  {
    Sealed(key, iv, m)
  }
}

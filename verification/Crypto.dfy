// The Ledger SDK's cryptography, as far as the protocol uses it: two unknown functions.
module Crypto {
  import opened Bytes
  import opened Transaction

  const SIG_LEN := 65

  type Signature = s: seq<byte> | |s| == SIG_LEN witness seq(65, _ => 0)
  type Path = s: seq<uint32> | |s| == 5 witness seq(5, _ => 0)

  /** `sign(path, h)`: R | S | recovery id over `h` under the key derived along `path`. */
  datatype Sdk = Sdk(sha256: seq<byte> -> Digest, sign: (Path, Digest) -> Signature)
}

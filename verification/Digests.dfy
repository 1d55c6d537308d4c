/** Values shared by several components: an option type, bounded windows and the free algebra of
    digests. */
module Digests {

  datatype Option<+T> = None | Some(value: T)

  /** The last `n` elements, or all of them. */
  function LastN<T>(xs: seq<T>, n: nat): seq<T> {
    if |xs| <= n then xs else xs[|xs| - n..]
  }

  lemma LastNStep<T>(xs: seq<T>, x: T, n: nat)
    ensures LastN(LastN(xs, n) + [x], n) == LastN(xs + [x], n)
  {
  }

  /** What `canonical_entry_bytes` serialises besides `prev_hash`. `payload` is its canonical
      JSON text, so equal contents are equal bytes and the other way round. */
  datatype Content = Content(
    sequence: nat, timestamp: int, actor: string, action: string,
    subject: Option<string>, payload: string)

  /** SHA-256 as a free constructor of each pre-image shape that the chain hashes.
      `Genesis` is the 32 zero bytes; `EmptyString` is the hash of no bytes at all. */
  datatype Digest =
    | Genesis
    | EmptyString
    | EntryHash(content: Content, prev: Digest)
    | LeafHash(leaf: Digest)
    | NodeHash(left: Digest, right: Digest)
}

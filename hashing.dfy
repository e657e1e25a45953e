/**
 * `std::collections::hash_map::DefaultHasher` seen from outside: a `Hash`
 * implementation feeds it values one after another, and `finish` returns a
 * 64-bit digest of everything fed so far. The digest function itself
 * (SipHash with fixed keys) is not modelled: callers pass it as `digest`,
 * an arbitrary but deterministic function of the fed values.
 */
module Hashing {
  import opened Paths
  import opened Hex

  /** One value fed to a hasher: a string, a path, or an enum's discriminant. */
  datatype HashToken = Str(text: string) | PathValue(path: Path) | Discriminant(index: nat)

  class DefaultHasher {
    var written: seq<HashToken>

    /** `DefaultHasher::new()`. */
    constructor ()
      ensures written == []
    {
      written := [];
    }

    /** Feeds one value (`Hash::hash(value, &mut hasher)` for a single field). */
    method Write(t: HashToken)
      modifies this
      ensures written == old(written) + [t]
    {
      written := written + [t];
    }

    /** `Hasher::finish`: the digest of everything fed, leaving the hasher as it is. */
    method Finish(digest: seq<HashToken> -> U64) returns (h: U64)
      ensures h == digest(written)
    {
      h := digest(written);
    }
  }
}

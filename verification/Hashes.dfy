/** The form of hexadecimal SHA-256 digests. */
module Hashes {

  predicate IsHash(hash: string) {
    |hash| == 64 && forall i | 0 <= i < 64 :: '0' <= hash[i] <= '9' || 'a' <= hash[i] <= 'f'
  }
}

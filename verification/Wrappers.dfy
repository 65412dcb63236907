/** Optional values and results, shared by every other module. */
module Wrappers {

  newtype byte = b: int | 0 <= b < 256

  type Bytes = seq<byte>

  datatype Option<+T> = None | Some(value: T)

  /** The failures the registry tells apart; every other failure of the disk or the database is `Io`. */
  datatype Error =
    | NotFound
    | InvalidDigest
    | InvalidReference
    | InvalidRepository
    | InvalidPattern
    | InvalidArgument
    | TagOverwriteProtected
    | Io

  datatype Result<+T> = Ok(value: T) | Err(error: Error)

  /** Map lookup that answers None for a missing key. */
  function Get<K, V>(m: map<K, V>, k: K): Option<V> {
    if k in m then Some(m[k]) else None
  }

  /** Two maps that answer every lookup alike are equal. */
  lemma SameLookups<K(!new), V>(m: map<K, V>, n: map<K, V>)
    requires forall k :: Get(m, k) == Get(n, k)
    ensures m == n
  {
    assert forall k :: k in m <==> Get(m, k).Some?;
    assert forall k :: k in n <==> Get(n, k).Some?;
    assert m.Keys == n.Keys;
    forall k | k in m ensures m[k] == n[k] {
      assert Get(m, k) == Get(n, k);
    }
  }
}

/** Types every module shares: options, results, bytes, record ids and row versions. */
module Base {

  datatype Option<+T> = None | Some(value: T)
  {
    function Or(other: Option<T>): Option<T> { if Some? then this else other }
  }

  datatype Result<+T, +E> = Ok(value: T) | Err(error: E)

  function Find<K, V>(m: map<K, V>, k: K): Option<V> { if k in m then Some(m[k]) else None }

  newtype byte = x: int | 0 <= x < 256

  type Bytes = seq<byte>

  const PAGE_SIZE: int := 8192

  /** The largest page id that a page can have; the one above it is reserved. */
  const MAX_PAGE_ID: nat := 0xFFFF_FFFE

  /** Names a row by the table page it is on and its slot in the directory of that page. */
  datatype RecordId = RecordId(pageId: nat, slotId: nat)

  /** A version of a tuple: its stamp, whether it is a deletion, and its bytes. It is what a heap
      slot holds, what an undo entry holds and what a logged undo image holds. */
  datatype Version = Version(ts: nat, deleted: bool, data: Bytes)

  /** How many numbers `n` bytes can hold. */
  function Pow256(n: nat): (p: nat)
    ensures p > 0
  {
    if n == 0 then 1 else 256 * Pow256(n - 1)
  }

  /** The prefix of `s` before its last element. */
  function Init<T>(s: seq<T>): seq<T>
    requires s != []
  {
    s[..|s| - 1]
  }

  function Last<T>(s: seq<T>): T
    requires s != []
  {
    s[|s| - 1]
  }
}

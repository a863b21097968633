/** Shared vocabulary of the state: options, and the cells a transaction can read or write. */
module Cells {
  datatype Option<+T> = None | Some(value: T)

  newtype Felt = x: int | 0 <= x
  type Address = nat

  /** The four typed mappings of the state are one mapping keyed by the kind of entry. */
  datatype Cell =
    | Storage(address: Address, key: Felt)
    | Nonce(address: Address)
    | ClassHash(address: Address)
    | CompiledClassHash(class_: Felt)

  type Values = map<Cell, Felt>

  /** A state reader: it may fail to answer. */
  type Reader = Cell -> Option<Felt>

  function Lookup<K, V>(m: map<K, V>, k: K): Option<V> {
    if k in m then Some(m[k]) else None
  }
}

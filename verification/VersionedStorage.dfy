/** Multi-version storage: for every key, the values written by the transactions of a chunk. */
module VersionedStorage {
  import opened Cells

  type Index = nat

  /** The value of a storage: initial values fetched so far, and per key the writes by transaction index. */
  datatype Versions<K, V> = Versions(initial: map<K, V>, writes: map<K, map<Index, V>>)
  {
    function CellOf(k: K): map<Index, V> { if k in writes then writes[k] else map[] }

    /** The value transaction `i` sees, not counting its own writes. */
    function ReadAt(i: Index, k: K): Option<V> {
      var latest := LatestBelow(CellOf(k), i);
      if latest.Some? then latest else Lookup(initial, k)
    }

    function Write(i: Index, k: K, v: V): Versions<K, V> {
      this.(writes := writes[k := CellOf(k)[i := v]])
    }

    function SetInitial(k: K, v: V): Versions<K, V> { this.(initial := initial[k := v]) }
  }

  /** The entry of the greatest index below `i`. */
  function LatestBelow<V>(cell: map<Index, V>, i: Index): (r: Option<V>)
    ensures r.None? <==> forall j: Index | j < i :: j !in cell
  {
    if i == 0 then None
    else if i - 1 in cell then Some(cell[i - 1])
    else LatestBelow(cell, i - 1)
  }

  lemma {:induction false} LatestBelowIsGreatest<V>(cell: map<Index, V>, i: Index) returns (j: Index)
    requires LatestBelow(cell, i).Some?
    ensures j < i && j in cell && cell[j] == LatestBelow(cell, i).value
    ensures forall m: Index | j < m < i :: m !in cell
  {
    if i - 1 in cell { j := i - 1; } else { j := LatestBelowIsGreatest(cell, i - 1); }
  }

  /** The storage unit as the source has it. */
  class VersionedStorage<K(==), V> {
    var cachedInitialValues: map<K, V>
    var writes: map<K, map<Index, V>>

    ghost function Value(): Versions<K, V>
      reads this
    {
      Versions(cachedInitialValues, writes)
    }

    constructor ()
      ensures Value() == Versions(map[], map[])
    {
      cachedInitialValues := map[];
      writes := map[];
    }

    function Read(i: Index, k: K): (r: Option<V>)
      reads this
      ensures r == Value().ReadAt(i, k)
    {
      var value := if k in writes then LatestBelow(writes[k], i) else None;
      if value.Some? then value
      else if k in cachedInitialValues then Some(cachedInitialValues[k]) else None
    }

    method Write(i: Index, k: K, v: V)
      modifies this
      ensures Value() == old(Value()).Write(i, k, v)
      ensures cachedInitialValues == old(cachedInitialValues)
      ensures writes == old(writes)[k := (if k in old(writes) then old(writes)[k] else map[])[i := v]]
    {
      var cell := if k in writes then writes[k] else map[];
      writes := writes[k := cell[i := v]];
    }

    method SetInitialValue(k: K, v: V)
      modifies this
      ensures Value() == old(Value()).SetInitial(k, v)
      ensures cachedInitialValues == old(cachedInitialValues)[k := v] && writes == old(writes)
    {
      cachedInitialValues := cachedInitialValues[k := v];
    }

    /** For every key written at `from` or below, the value of the greatest such index. */
    method GetWritesFromIndex(from: Index) returns (result: map<K, V>)
      ensures forall k :: Lookup(result, k) == LatestBelow(Value().CellOf(k), from + 1)
    {
      result := map[];
      var keys := writes.Keys;
      while keys != {}
        invariant keys <= writes.Keys
        invariant forall k :: Lookup(result, k) == if k in keys then None else LatestBelow(Value().CellOf(k), from + 1)
        decreases |keys|
      {
        var k :| k in keys;
        var latest := LatestBelow(writes[k], from + 1);
        if latest.Some? {
          result := result[k := latest.value];
        }
        keys := keys - {k};
      }
    }
  }

  // ----------------------------------------------------------------------------------------------
  // Any history of operations

  datatype Op<K, V> = WriteOp(index: Index, key: K, value: V) | InitialOp(key: K, value: V)

  function Apply<K, V>(s: Versions<K, V>, op: Op<K, V>): Versions<K, V> {
    match op
    case WriteOp(i, k, v) => s.Write(i, k, v)
    case InitialOp(k, v) => s.SetInitial(k, v)
  }

  /** The storage after the operations, from an empty one. */
  function Replay<K, V>(ops: seq<Op<K, V>>): Versions<K, V> {
    if ops == [] then Versions(map[], map[]) else Apply(Replay(ops[..|ops| - 1]), ops[|ops| - 1])
  }

  /** What the history alone says transaction `i` last wrote, key by key. */
  function WritesOf<K, V>(ops: seq<Op<K, V>>, i: Index): map<K, V> {
    if ops == [] then map[]
    else
      var before, op := WritesOf(ops[..|ops| - 1], i), ops[|ops| - 1];
      if op.WriteOp? && op.index == i then before[op.key := op.value] else before
  }

  /** The initial values the history set. */
  function InitialsOf<K, V>(ops: seq<Op<K, V>>): map<K, V> {
    if ops == [] then map[]
    else
      var before, op := InitialsOf(ops[..|ops| - 1]), ops[|ops| - 1];
      if op.InitialOp? then before[op.key := op.value] else before
  }

  /** The write maps of transactions 0, ..., i - 1 laid over each other in order. */
  function Folded<K, V>(ops: seq<Op<K, V>>, i: Index): map<K, V> {
    if i == 0 then map[] else Folded(ops, i - 1) + WritesOf(ops, i - 1)
  }

  lemma {:induction false} CellsMatchHistory<K, V>(ops: seq<Op<K, V>>, i: Index, k: K)
    ensures Lookup(Replay(ops).CellOf(k), i) == Lookup(WritesOf(ops, i), k)
    ensures Replay(ops).initial == InitialsOf(ops)
  {
    if ops != [] { CellsMatchHistory(ops[..|ops| - 1], i, k); }
  }

  lemma {:induction false} LatestIsFolded<K, V>(ops: seq<Op<K, V>>, i: Index, k: K)
    ensures LatestBelow(Replay(ops).CellOf(k), i) == Lookup(Folded(ops, i), k)
  {
    if i > 0 {
      CellsMatchHistory(ops, i - 1, k);
      LatestIsFolded(ops, i - 1, k);
    }
  }

  /** Along any history, transaction `i` reads the write maps of all lower transactions laid over the
      initial values. */
  lemma ReadIsOverlay<K, V>(ops: seq<Op<K, V>>, i: Index, k: K)
    ensures Replay(ops).ReadAt(i, k) == Lookup(InitialsOf(ops) + Folded(ops, i), k)
  {
    LatestIsFolded(ops, i, k);
    CellsMatchHistory(ops, i, k);
  }

  /** A key readable at an index stays readable there, whatever happens later. */
  lemma {:induction false} ReadableForever<K, V>(ops: seq<Op<K, V>>, more: seq<Op<K, V>>, i: Index, k: K)
    requires Replay(ops).ReadAt(i, k).Some?
    ensures Replay(ops + more).ReadAt(i, k).Some?
  {
    if more == [] {
      assert ops + more == ops;
    } else {
      var m := |more| - 1;
      assert (ops + more)[..|ops + more| - 1] == ops + more[..m];
      ReadableForever(ops, more[..m], i, k);
      ApplyKeepsReadable(Replay(ops + more[..m]), more[m], i, k);
    }
  }

  lemma ApplyKeepsReadable<K, V>(s: Versions<K, V>, op: Op<K, V>, i: Index, k: K)
    requires s.ReadAt(i, k).Some?
    ensures Apply(s, op).ReadAt(i, k).Some?
  {
    var cell, cell' := s.CellOf(k), Apply(s, op).CellOf(k);
    assert forall j | j in cell :: j in cell';
  }
}

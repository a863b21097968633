/** The multi-version state shared by the workers of a chunk, and the proxy through which one transaction
    reads it. */
module VersionedState {
  import opened Cells
  import opened VersionedStorage
  import C = CachedState

  type Store = Versions<Cell, Felt>

  /** What transaction `i` sees of cell `c`: lower writes, else the reader's value. */
  function View(s: Store, reader: Reader, i: Index, c: Cell): Option<Felt> {
    var r := s.ReadAt(i, c);
    if r.Some? then r else reader(c)
  }

  /** Cached initial values are the reader's. */
  ghost predicate Faithful(s: Store, reader: Reader) {
    forall c | c in s.initial :: reader(c) == Some(s.initial[c])
  }

  /** The store after transaction `i` wrote all of `writes`; cells it wrote before stay. */
  function WriteAll(s: Store, i: Index, writes: Values): Store {
    Versions(s.initial,
             map c | c in s.writes.Keys + writes.Keys ::
               if c in writes then s.CellOf(c)[i := writes[c]] else s.CellOf(c))
  }

  /** The cell of `c` after transaction `i` wrote all of `writes`. */
  function CellAfter(s: Store, i: Index, writes: Values, c: Cell): map<Index, Felt> {
    if c in writes then s.CellOf(c)[i := writes[c]] else s.CellOf(c)
  }

  lemma EntriesAfter(s: Store, i: Index, writes: Values, c: Cell, j: Index)
    ensures Lookup(CellAfter(s, i, writes, c), j) ==
            if c in writes && j == i then Some(writes[c]) else Lookup(s.CellOf(c), j)
  {
  }

  lemma WriteAllCells(s: Store, i: Index, writes: Values, c: Cell)
    ensures WriteAll(s, i, writes).CellOf(c) == CellAfter(s, i, writes, c)
  {
  }

  predicate Readable(s: Store, i: Index, readSet: Values) {
    forall c | c in readSet :: s.ReadAt(i, c).Some?
  }

  /** Every recorded read is what the store holds below index `i` now. */
  predicate Agrees(s: Store, i: Index, readSet: Values) {
    forall c | c in readSet :: s.ReadAt(i, c) == Some(readSet[c])
  }

  class VersionedState {
    const initialState: Reader
    const storage: VersionedStorage<Cell, Felt>

    constructor (reader: Reader)
      ensures initialState == reader && fresh(storage) && storage.Value() == Versions(map[], map[])
    {
      initialState := reader;
      storage := new VersionedStorage<Cell, Felt>();
    }

    /** A read through the proxy pinned to transaction `i`. */
    method ProxyRead(i: Index, c: Cell) returns (r: Option<Felt>)
      requires Faithful(storage.Value(), initialState)
      modifies storage
      ensures Faithful(storage.Value(), initialState)
      ensures r == View(old(storage.Value()), initialState, i, c)
      ensures r.Some? ==> storage.Value().ReadAt(i, c) == r
      ensures storage.Value().writes == old(storage.Value().writes)
      ensures forall j, d :: View(storage.Value(), initialState, j, d) == View(old(storage.Value()), initialState, j, d)
    {
      r := storage.Read(i, c);
      if r.None? {
        r := initialState(c);
        if r.Some? {
          storage.SetInitialValue(c, r.value);
        }
      }
    }

    /** Compares a read set with the store; the first transaction of a chunk has nothing to compare with.
        A read value missing from the store would be a panic. */
    method ValidateReads(i: Index, readSet: Values) returns (valid: bool)
      requires i != 0 ==> Readable(storage.Value(), i, readSet)
      ensures valid <==> i == 0 || Agrees(storage.Value(), i, readSet)
      ensures valid <==> i == 0 || forall c | c in readSet :: storage.Read(i, c) == Some(readSet[c])
    {
      if i == 0 {
        return true;
      }
      var cells := readSet.Keys;
      while cells != {}
        invariant cells <= readSet.Keys
        invariant forall c | c in readSet && c !in cells :: storage.Value().ReadAt(i, c) == Some(readSet[c])
        decreases |cells|
      {
        var c :| c in cells;
        var value := storage.Read(i, c);
        if value.value != readSet[c] {
          return false;
        }
        cells := cells - {c};
      }
      valid := true;
    }

    method ApplyWrites(i: Index, writes: Values)
      modifies storage
      ensures storage.Value().initial == old(storage.Value()).initial
      ensures forall c :: storage.Value().CellOf(c) == CellAfter(old(storage.Value()), i, writes, c)
      ensures forall c, j ::
        Lookup(storage.Value().CellOf(c), j) ==
        if c in writes && j == i then Some(writes[c]) else Lookup(old(storage.Value()).CellOf(c), j)
    {
      ghost var before := storage.Value();
      var cells := writes.Keys;
      while cells != {}
        invariant cells <= writes.Keys
        invariant storage.Value().initial == before.initial
        invariant forall c :: storage.Value().CellOf(c) ==
                              if c in cells then before.CellOf(c) else CellAfter(before, i, writes, c)
        decreases |cells|
      {
        var c :| c in cells;
        storage.Write(i, c, writes[c]);
        cells := cells - {c};
      }
      forall c, j { EntriesAfter(before, i, writes, c, j); }
    }

    /** All the writes of transactions up to `from`; laid over the reader they are what transaction
        `from + 1` sees. */
    method GetWrites(from: Index) returns (writes: Values)
      requires Faithful(storage.Value(), initialState)
      ensures forall c :: Lookup(writes, c) == LatestBelow<Felt>(storage.Value().CellOf(c), from + 1)
      ensures forall c :: View(storage.Value(), initialState, from + 1, c) ==
                          if c in writes then Some(writes[c]) else initialState(c)
    {
      writes := storage.GetWritesFromIndex(from);
      forall c ensures View(storage.Value(), initialState, from + 1, c) ==
                       if c in writes then Some(writes[c]) else initialState(c)
      {
        assert Lookup(writes, c) == LatestBelow(storage.Value().CellOf(c), from + 1);
      }
    }

    /** Commits the writes of transactions up to `from` to the state the chunk started from.  If that state
        still shows what the reader does, it then shows what transaction `from + 1` would see. */
    method CommitTo(from: Index, parent: C.CachedState)
      requires parent.Valid() && Faithful(storage.Value(), initialState)
      modifies parent`caches
      ensures parent.Valid()
      ensures forall c ::
        var latest: Option<Felt> := LatestBelow<Felt>(storage.Value().CellOf(c), from + 1);
        parent.View(c) == if latest.Some? then latest else old(parent.View(c))
      ensures (forall c :: old(parent.View(c)) == initialState(c)) ==>
        forall c :: parent.View(c) == View(storage.Value(), initialState, from + 1, c)
    {
      var writes := GetWrites(from);
      parent.UpdateCache(writes);
    }
  }
}

/** State changes, their merging, and the key sets that measure a state diff. */
module StateChanges {
  import opened Cells

  /** `changes` turns one view into the other: its cells have the new values, all others are as before. */
  ghost predicate IsDiff(before: Reader, after: Reader, changes: Values) {
    && (forall c | c in changes :: after(c) == Some(changes[c]))
    && (forall c | c !in changes :: after(c) == before(c))
  }

  /** Moreover, every storage, nonce and class-hash cell among the changes did change. */
  ghost predicate IsExactDiff(before: Reader, after: Reader, changes: Values) {
    && IsDiff(before, after, changes)
    && forall c | c in changes && !c.CompiledClassHash? :: after(c) != before(c)
  }

  /** The changes laid over each other in order. */
  function MergeAll(changes: seq<Values>): Values {
    if changes == [] then map[] else MergeAll(changes[..|changes| - 1]) + changes[|changes| - 1]
  }

  /** `StateChanges::merge`. */
  method Merge(changes: seq<Values>) returns (merged: Values)
    ensures merged == MergeAll(changes)
  {
    merged := map[];
    for k := 0 to |changes|
      invariant merged == MergeAll(changes[..k])
    {
      merged := merged + changes[k];
      assert changes[..k + 1][..k] == changes[..k];
    }
    assert changes[..|changes|] == changes;
  }

  /** Merging the changes of successive stages describes the whole: laid over the first view it gives the
      last, so every cell that differs in the end is among the merged keys. */
  lemma {:induction false} MergeIsDiff(views: seq<Reader>, changes: seq<Values>)
    requires |views| == |changes| + 1
    requires forall k | 0 <= k < |changes| :: IsDiff(views[k], views[k + 1], changes[k])
    ensures IsDiff(views[0], views[|changes|], MergeAll(changes))
    ensures forall c | views[|changes|](c) != views[0](c) :: c in MergeAll(changes)
  {
    if changes != [] {
      var m := |changes| - 1;
      MergeIsDiff(views[..m + 1], changes[..m]);
      assert IsDiff(views[m], views[m + 1], changes[m]);
    }
  }

  /** When every stage's changes are exact, a cell is among the merged keys exactly when some stage changed
      it; so a write that a later stage cancels is still counted. */
  lemma {:induction false} MergedKeysAreTouched(views: seq<Reader>, changes: seq<Values>, c: Cell)
    requires |views| == |changes| + 1
    requires forall k | 0 <= k < |changes| :: c in changes[k] <==> views[k](c) != views[k + 1](c)
    ensures c in MergeAll(changes) <==> exists k :: 0 <= k < |changes| && views[k](c) != views[k + 1](c)
  {
    if changes != [] {
      var m := |changes| - 1;
      MergedKeysAreTouched(views[..m + 1], changes[..m], c);
      assert c in changes[m] <==> views[m](c) != views[m + 1](c);
    }
  }

  /** A write that is cancelled and still counted. */
  lemma CancelledWriteIsCounted() returns (v0: Reader, v1: Reader, v2: Reader, first: Values, second: Values, c: Cell)
    ensures IsExactDiff(v0, v1, first) && IsExactDiff(v1, v2, second)
    ensures v2(c) == v0(c) && c in MergeAll([first, second])
  {
    c := Storage(1, 1);
    v0, first, second := _ => Some(0), map[Storage(1, 1) := 1], map[Storage(1, 1) := 0];
    v1, v2 := d => if d == Storage(1, 1) then Some(1) else Some(0), v0;
    assert [first, second][..1] == [first];
  }

  ghost predicate SameView(a: Reader, b: Reader) { forall c :: a(c) == b(c) }

  lemma DiffOfSameViews(before: Reader, after: Reader, before': Reader, after': Reader, changes: Values)
    requires SameView(before, before') && SameView(after, after')
    ensures IsDiff(before, after, changes) <==> IsDiff(before', after', changes)
    ensures IsExactDiff(before, after, changes) <==> IsExactDiff(before', after', changes)
  {
  }

  /** Two exact stages. */
  lemma MergeTwo(v0: Reader, v1: Reader, v2: Reader, first: Values, second: Values)
    requires IsExactDiff(v0, v1, first) && IsExactDiff(v1, v2, second)
    ensures IsDiff(v0, v2, MergeAll([first, second]))
    ensures forall c: Cell | !c.CompiledClassHash? ::
      c in MergeAll([first, second]) <==> v1(c) != v0(c) || v2(c) != v1(c)
  {
    var changes := [first, second];
    MergeIsDiff([v0, v1, v2], changes);
    assert changes[..1] == [first] && [first][..0] == [];
    assert MergeAll([first]) == map[] + first;
  }

  // ----------------------------------------------------------------------------------------------
  // Keys

  /** The changed cells, and the contracts they belong to. */
  datatype Keys = Keys(cells: set<Cell>, modifiedContracts: set<Address>)
  {
    function Difference(other: Keys): Keys {
      Keys(cells - other.cells, modifiedContracts - other.modifiedContracts)
    }

    function Extend(other: Keys): Keys {
      Keys(cells + other.cells, modifiedContracts + other.modifiedContracts)
    }
  }

  const NO_KEYS := Keys({}, {})

  /** `into_keys`. */
  function KeysOf(changes: Values): Keys {
    Keys(changes.Keys, set c | c in changes && !c.CompiledClassHash? :: c.address)
  }

  const CLASS_UPDATE_SIZE := 1

  function StorageCells(cells: set<Cell>): set<Cell> { set c | c in cells && c.Storage? }

  function ClassHashCells(cells: set<Cell>): set<Cell> { set c | c in cells && c.ClassHash? }

  function CompiledCells(cells: set<Cell>): set<Cell> { set c | c in cells && c.CompiledClassHash? }

  /** `get_onchain_data_segment_length` of the counted keys. */
  function OnchainDataLength(keys: Keys): nat {
    |keys.modifiedContracts| * 2
    + |ClassHashCells(keys.cells)| * CLASS_UPDATE_SIZE
    + |StorageCells(keys.cells)| * 2
    + |CompiledCells(keys.cells)| * 2
  }

  /** The keys are the changed cells, and the contracts with a changed storage, nonce or class-hash cell. */
  lemma KeysOfMembers(changes: Values)
    ensures forall c :: c in KeysOf(changes).cells <==> c in changes
    ensures forall a :: a in KeysOf(changes).modifiedContracts <==>
      exists c :: c in changes && !c.CompiledClassHash? && c.address == a
  {
  }

  lemma KindsGrow(cells: set<Cell>, c: Cell)
    ensures StorageCells(cells + {c}) == StorageCells(cells) + (if c.Storage? then {c} else {})
    ensures ClassHashCells(cells + {c}) == ClassHashCells(cells) + (if c.ClassHash? then {c} else {})
    ensures CompiledCells(cells + {c}) == CompiledCells(cells) + (if c.CompiledClassHash? then {c} else {})
  {
  }

  /** One more cell adds two felts for storage or a compiled class hash, one for a class hash, none for a nonce. */
  lemma OneMoreCell(keys: Keys, c: Cell)
    requires c !in keys.cells
    ensures OnchainDataLength(Keys(keys.cells + {c}, keys.modifiedContracts)) ==
            OnchainDataLength(keys) + (match c case Storage(_, _) => 2 case Nonce(_) => 0 case ClassHash(_) => 1
                                               case CompiledClassHash(_) => 2)
  {
    KindsGrow(keys.cells, c);
  }

  /** One more modified contract adds two. */
  lemma OneMoreContract(keys: Keys, a: Address)
    requires a !in keys.modifiedContracts
    ensures OnchainDataLength(Keys(keys.cells, keys.modifiedContracts + {a})) == OnchainDataLength(keys) + 2
  {
  }

  /** A state difference of no cell, and of a single one. */
  lemma SingleChange(c: Cell, v: Felt)
    ensures OnchainDataLength(NO_KEYS) == 0
    ensures OnchainDataLength(KeysOf(map[c := v])) ==
            match c case Storage(_, _) => 4 case Nonce(_) => 2 case ClassHash(_) => 3 case CompiledClassHash(_) => 2
  {
    var keys := KeysOf(map[c := v]);
    assert NO_KEYS.cells + {c} == keys.cells;
    OneMoreCell(NO_KEYS, c);
    if c.CompiledClassHash? {
      assert keys.modifiedContracts == {};
    } else {
      assert {} + {c.address} == keys.modifiedContracts;
      OneMoreContract(Keys(keys.cells, {}), c.address);
    }
  }

  lemma DifferenceSize<T>(a: set<T>, b: set<T>)
    ensures |a + b| == |b| + |a - b|
  {
    assert a + b == b + (a - b);
  }

  /** Charging only what is new adds up to the length of the union. */
  lemma OnchainLengthTelescopes(block: Keys, tx: Keys)
    ensures OnchainDataLength(block.Extend(tx)) == OnchainDataLength(block) + OnchainDataLength(tx.Difference(block))
    ensures block.Extend(tx.Difference(block)) == block.Extend(tx)
  {
    var residue := tx.Difference(block);
    assert block.cells + residue.cells == block.cells + tx.cells;
    assert block.modifiedContracts + residue.modifiedContracts == block.modifiedContracts + tx.modifiedContracts;
    DifferenceSize(tx.modifiedContracts, block.modifiedContracts);
    assert tx.modifiedContracts + block.modifiedContracts == block.modifiedContracts + tx.modifiedContracts;
    var all := block.cells + tx.cells;
    DifferenceSize(ClassHashCells(tx.cells), ClassHashCells(block.cells));
    assert ClassHashCells(tx.cells) + ClassHashCells(block.cells) == ClassHashCells(all);
    assert ClassHashCells(tx.cells) - ClassHashCells(block.cells) == ClassHashCells(residue.cells);
    DifferenceSize(StorageCells(tx.cells), StorageCells(block.cells));
    assert StorageCells(tx.cells) + StorageCells(block.cells) == StorageCells(all);
    assert StorageCells(tx.cells) - StorageCells(block.cells) == StorageCells(residue.cells);
    DifferenceSize(CompiledCells(tx.cells), CompiledCells(block.cells));
    assert CompiledCells(tx.cells) + CompiledCells(block.cells) == CompiledCells(all);
    assert CompiledCells(tx.cells) - CompiledCells(block.cells) == CompiledCells(residue.cells);
  }
}

/** The cached state: a read/write cache over a reader, nested by transactional states.

    A transactional state borrows its parent mutably, so only the innermost state is usable at any time;
    the nested caches therefore form a stack, outermost first. */
module CachedState {
  import opened Cells
  import opened LayeredState

  /** Caches read and write requests; `initialReads` holds values read before any write. */
  datatype StateCache = StateCache(initialReads: Values, writes: Values)
  {
    function Find(c: Cell): Option<Felt> {
      if c in writes then Some(writes[c]) else Lookup(initialReads, c)
    }
  }

  function WritesOf(caches: seq<StateCache>): (stack: seq<Values>)
    ensures |stack| == |caches| && forall d | 0 <= d < |caches| :: stack[d] == caches[d].writes
  {
    seq(|caches|, d requires 0 <= d < |caches| => caches[d].writes)
  }

  /** Every cached initial value is what the layers below show. */
  ghost predicate ReadsOk(reader: Reader, caches: seq<StateCache>) {
    forall d, c | 0 <= d < |caches| && c in caches[d].initialReads ::
      Shown(reader, WritesOf(caches), d, c) == Some(caches[d].initialReads[c])
  }

  /** `subtract_mappings`. */
  function Subtract(source: Values, subtract: Values): Values {
    map c | c in source && Lookup(subtract, c) != Some(source[c]) :: source[c]
  }

  /** `strict_subtract_mappings`: a source key missing from the subtrahend is a panic. */
  function StrictSubtract(source: Values, subtract: Values): Values
    requires source.Keys <= subtract.Keys
  {
    map c | c in source && subtract[c] != source[c] :: source[c]
  }

  /** The stack with some cells removed from its topmost layer. */
  function WithoutWrites(stack: seq<Values>, cells: set<Cell>): seq<Values>
    requires |stack| >= 1
  {
    stack[|stack| - 1 := stack[|stack| - 1] - cells]
  }

  function Tracked(values: Values): Values { map c | c in values && !c.CompiledClassHash? :: values[c] }

  function Compiled(values: Values): Values { map c | c in values && c.CompiledClassHash? :: values[c] }

  class CachedState {
    const reader: Reader
    var caches: seq<StateCache>

    ghost predicate Valid()
      reads this
    {
      |caches| >= 1 && ReadsOk(reader, caches)
    }

    /** The plain stack of maps this state stands for. */
    ghost function Stack(): seq<Values>
      reads this
    {
      WritesOf(caches)
    }

    /** What the state shows. */
    ghost function View(c: Cell): Option<Felt>
      reads this
    {
      Top(reader, Stack(), c)
    }

    /** What the state underneath the innermost one shows. */
    ghost function ParentView(c: Cell): Option<Felt>
      requires |caches| >= 1
      reads this
    {
      Shown(reader, Stack(), |caches| - 1, c)
    }

    constructor (reader: Reader)
      ensures Valid() && this.reader == reader && Stack() == [map[]] && forall c :: !Knows(c)
      ensures forall c :: View(c) == reader(c)
    {
      this.reader := reader;
      caches := [StateCache(map[], map[])];
      new;
      assert Stack() == [map[]];
      forall c ensures View(c) == reader(c) { assert Shown(reader, Stack(), 0, c) == reader(c); }
    }

    /** A read by the state of depth `d`: on a miss it asks the state below and caches the answer. */
    method ReadAt(d: nat, c: Cell) returns (r: Option<Felt>)
      requires Valid() && d <= |caches|
      modifies this`caches
      ensures Valid() && Stack() == old(Stack())
      ensures r == Shown(reader, Stack(), d, c)
      ensures forall e | d <= e < |caches| :: caches[e] == old(caches)[e]
      decreases d
    {
      if d == 0 {
        return reader(c);
      }
      if caches[d - 1].Find(c).None? {
        var below := ReadAt(d - 1, c);
        if below.None? {
          return None;
        }
        CacheInitial(d - 1, c, below.value);
      }
      r := caches[d - 1].Find(c);
    }

    /** Caches a value the layers below `d` show. */
    method CacheInitial(d: nat, c: Cell, v: Felt)
      requires Valid() && d < |caches| && Shown(reader, Stack(), d, c) == Some(v)
      modifies this`caches
      ensures Valid() && Stack() == old(Stack())
      ensures caches == old(caches)[d := old(caches)[d].(initialReads := old(caches)[d].initialReads[c := v])]
    {
      caches := caches[d := caches[d].(initialReads := caches[d].initialReads[c := v])];
      assert WritesOf(caches) == old(WritesOf(caches));
    }

    method Get(c: Cell) returns (r: Option<Felt>)
      requires Valid()
      modifies this`caches
      ensures Valid() && Stack() == old(Stack()) && r == View(c)
    {
      r := ReadAt(|caches|, c);
    }

    method Set(c: Cell, v: Felt)
      requires Valid()
      modifies this`caches
      ensures Valid() && Stack() == Apply(old(Stack()), Op.Set(c, v))
      ensures forall d :: Knows(d) <==> old(Knows(d))
      ensures forall d :: View(d) == if d == c then Some(v) else old(View(d))
      ensures forall d :: ParentView(d) == old(ParentView(d))
    {
      var n := |caches|;
      caches := caches[n - 1 := caches[n - 1].(writes := caches[n - 1].writes[c := v])];
      assert Stack() == Apply(old(Stack()), Op.Set(c, v));
      forall d
        ensures View(d) == if d == c then Some(v) else old(View(d))
        ensures ParentView(d) == old(ParentView(d))
      {
        LowerShowsSame(reader, old(Stack()), n - 1, d, Op.Set(c, v));
      }
      LowerKeepsReads(reader, old(caches), caches, n);
    }

    /** `update_cache`: lays a whole map of writes over the innermost state. */
    method UpdateCache(writes: Values)
      requires Valid()
      modifies this`caches
      ensures Valid() && |caches| == |old(caches)|
      ensures forall c :: View(c) == if c in writes then Some(writes[c]) else old(View(c))
      ensures forall c :: ParentView(c) == old(ParentView(c))
    {
      var n := |caches|;
      caches := caches[n - 1 := caches[n - 1].(writes := caches[n - 1].writes + writes)];
      forall c
        ensures ParentView(c) == old(ParentView(c))
        ensures View(c) == if c in writes then Some(writes[c]) else old(View(c))
      {
        assert Stack()[..n - 1] == old(Stack())[..n - 1];
        ShownDependsOnPrefix(reader, Stack(), old(Stack()), n - 1, c);
        assert Stack()[n - 1] == old(Stack())[n - 1] + writes;
      }
      LowerKeepsReads(reader, old(caches), caches, n);
    }

    /** Removes cells from the writes of the innermost state. */
    method RemoveWrites(cells: set<Cell>)
      requires Valid()
      modifies this`caches
      ensures Valid() && Stack() == WithoutWrites(old(Stack()), cells)
    {
      var n := |caches|;
      caches := caches[n - 1 := caches[n - 1].(writes := caches[n - 1].writes - cells)];
      assert Stack() == WithoutWrites(old(Stack()), cells);
      LowerKeepsReads(reader, old(caches), caches, n);
    }

    /** `create_transactional`. */
    method CreateTransactional()
      requires Valid()
      modifies this`caches
      ensures Valid() && Stack() == Apply(old(Stack()), Begin)
      ensures forall c :: View(c) == old(View(c)) && ParentView(c) == old(View(c))
    {
      caches := caches + [StateCache(map[], map[])];
      assert Stack() == Apply(old(Stack()), Begin);
      forall c ensures View(c) == old(View(c)) && ParentView(c) == old(View(c)) {
        LowerShowsSame(reader, old(Stack()), |caches| - 1, c, Begin);
      }
      LowerKeepsReads(reader, old(caches), caches, |caches| - 1);
    }

    /** Hands the innermost state's writes to its parent. */
    method CommitTransactional()
      requires Valid() && |caches| >= 2
      modifies this`caches
      ensures Valid() && Stack() == Apply(old(Stack()), Commit)
      ensures |caches| == |old(caches)| - 1 && forall c :: View(c) == old(View(c))
    {
      var n := |caches|;
      var child, parent := caches[n - 1], caches[n - 2];
      caches := caches[..n - 2] + [parent.(writes := parent.writes + child.writes)];
      assert Stack() == Apply(old(Stack()), Commit);
      forall c ensures View(c) == old(View(c)) { CommitShowsChild(reader, old(Stack()), c); }
      LowerKeepsReads(reader, old(caches), caches, n - 1);
    }

    /** Drops the innermost state. */
    method AbortTransactional()
      requires Valid() && |caches| >= 2
      modifies this`caches
      ensures Valid() && Stack() == Apply(old(Stack()), Abort)
      ensures |caches| == |old(caches)| - 1 && forall c :: View(c) == old(ParentView(c))
    {
      caches := caches[..|caches| - 1];
      assert Stack() == Apply(old(Stack()), Abort);
      forall c ensures View(c) == old(ParentView(c)) { LowerShowsSame(reader, old(Stack()), |caches|, c, Abort); }
      LowerKeepsReads(reader, old(caches), caches, |caches|);
    }

    /** Any sequence of operations at any depth behaves as on the plain stack of maps, reads included. */
    method Perform(ops: seq<Op>) returns (results: seq<Option<Felt>>)
      requires Valid() && Balanced(ops, |caches|, 1)
      modifies this`caches
      ensures Valid()
      ensures (Stack(), results) == Run(reader, old(Stack()), ops)
      ensures forall c ::
        match LastSet(ops, c, 0)
        case Wrote(v) => View(c) == Some(v)
        case Before(n) => n <= |old(caches)| && View(c) == Shown(reader, old(Stack()), |old(caches)| - n, c)
      ensures |results| == |ops| && forall k | 0 <= k < |ops| && ops[k].Get? ::
        match LastSet(ops[..k], ops[k].cell, 0)
        case Wrote(v) => results[k] == Some(v)
        case Before(n) =>
          n <= |old(caches)| && results[k] == Shown(reader, old(Stack()), |old(caches)| - n, ops[k].cell)
    {
      ghost var stack := Stack();
      results := [];
      var k := 0;
      while k < |ops|
        invariant 0 <= k <= |ops| && Valid()
        invariant Balanced(ops[..k], |stack|, 1)
        invariant (Stack(), results) == Run(reader, stack, ops[..k])
      {
        BalancedPrefix(ops, |stack|, 1, k + 1);
        assert ops[..k + 1][..k] == ops[..k];
        assert DepthAfter(ops[..k + 1], |stack|) >= 1;
        var r: Option<Felt> := None;
        match ops[k] {
          case Get(c) => r := Get(c);
          case Set(c, v) => Set(c, v);
          case Begin => CreateTransactional();
          case Commit => CommitTransactional();
          case Abort => AbortTransactional();
        }
        results := results + [r];
        k := k + 1;
      }
      assert ops[..k] == ops;
      AllShowLastWrites(reader, stack, ops);
    }

    /** The value of the cell before any write by the innermost state is cached. */
    predicate Knows(c: Cell)
      requires |caches| >= 1
      reads this
    {
      c in caches[|caches| - 1].initialReads
    }

    /** Makes the initial value of a cell known; fails when the reader does. */
    method FetchInitial(c: Cell) returns (ok: bool)
      requires Valid()
      modifies this`caches
      ensures Valid() && Stack() == old(Stack())
      ensures ok <==> ParentView(c).Some?
      ensures forall d :: Knows(d) <==> old(Knows(d)) || (ok && d == c)
    {
      ok := true;
      if !Knows(c) {
        var initial := ReadAt(|caches| - 1, c);
        if initial.None? {
          return false;
        }
        CacheInitial(|caches| - 1, c, initial.value);
      } else {
        assert ParentView(c) == Some(caches[|caches| - 1].initialReads[c]);
      }
    }

    method FetchAll(cells: set<Cell>) returns (ok: bool)
      requires Valid()
      modifies this`caches
      ensures Valid() && Stack() == old(Stack())
      ensures !ok ==> exists c | c in cells :: ParentView(c).None?
      ensures ok ==> forall c :: Knows(c) <==> old(Knows(c)) || c in cells
    {
      var left := cells;
      while left != {}
        invariant Valid() && Stack() == old(Stack()) && left <= cells
        invariant forall c | c !in left :: Knows(c) <==> old(Knows(c)) || c in cells
        invariant forall c | old(Knows(c)) :: Knows(c)
        decreases |left|
      {
        var c :| c in left;
        ok := FetchInitial(c);
        if !ok {
          return;
        }
        left := left - {c};
      }
      ok := true;
    }

    /** Reads the initial value of every storage, nonce and class-hash cell that was written before it was
        read.  Fails when the reader does. */
    method UpdateInitialValuesOfWriteOnlyAccess() returns (ok: bool)
      requires Valid()
      modifies this`caches
      ensures Valid() && Stack() == old(Stack())
      ensures ok <==> forall c | c in Tracked(Stack()[|caches| - 1]) :: ParentView(c).Some?
      ensures ok ==> forall c :: Knows(c) <==> old(Knows(c)) || c in Tracked(Stack()[|caches| - 1])
    {
      ok := FetchAll(Tracked(caches[|caches| - 1].writes).Keys);
      if ok {
        forall c | Knows(c) ensures ParentView(c).Some? {}
      }
    }

    /** The exact difference between what the state shows and what its parent shows: for storage, nonces and
        class hashes the changed cells with their current values; for compiled class hashes every written
        cell unless it was first read through this state with the same value. */
    method GetActualStateChanges() returns (r: Option<Values>)
      requires Valid()
      modifies this`caches
      ensures Valid() && Stack() == old(Stack())
      ensures r.Some? <==> forall c | c in Tracked(Stack()[|caches| - 1]) :: ParentView(c).Some?
      ensures r.Some? ==> forall c :: c in r.value ==> View(c) == Some(r.value[c])
      ensures r.Some? ==> forall c: Cell :: !c.CompiledClassHash? ==> (c in r.value <==> View(c) != ParentView(c))
      ensures r.Some? ==> forall c: Cell :: c.CompiledClassHash? ==>
        (c in r.value <==> c in Stack()[|caches| - 1] && (old(Knows(c)) ==> View(c) != ParentView(c)))
    {
      var ok := UpdateInitialValuesOfWriteOnlyAccess();
      if !ok {
        return None;
      }
      var top := caches[|caches| - 1];
      forall c | c in Tracked(top.writes) ensures c in top.initialReads { assert Knows(c); }
      forall c | c in top.initialReads ensures ParentView(c) == Some(top.initialReads[c]) {}
      forall c: Cell | c.CompiledClassHash? ensures c in top.initialReads <==> old(Knows(c)) {
        assert Knows(c) <==> old(Knows(c));
      }
      var tracked := StrictSubtract(Tracked(top.writes), top.initialReads);
      var compiled := Subtract(Compiled(top.writes), top.initialReads);
      r := Some(tracked + compiled);
    }
  }

  /** A compiled class hash written with the value it has, and still reported. */
  method WritesSameCompiledClassHash() returns (state: CachedState, c: Cell, changes: Values)
    ensures fresh(state) && state.Valid()
    ensures c.CompiledClassHash? && c in changes && state.View(c) == state.ParentView(c)
  {
    c := CompiledClassHash(1);
    state := new CachedState(_ => Some(5));
    assert !state.Knows(c);
    state.Set(c, 5);
    var r := state.GetActualStateChanges();
    changes := r.value;
  }

  /** Changing the writes of layer `n - 1` or above leaves the cached reads of the layers below `n` right. */
  lemma LowerKeepsReads(reader: Reader, caches: seq<StateCache>, caches': seq<StateCache>, n: nat)
    requires ReadsOk(reader, caches) && n <= |caches| && |caches'| >= n
    requires forall d | 0 <= d < n :: caches'[d].initialReads == caches[d].initialReads
    requires forall d | 0 <= d < n - 1 :: caches'[d].writes == caches[d].writes
    requires forall d | n <= d < |caches'| :: caches'[d].initialReads == map[]
    ensures ReadsOk(reader, caches')
  {
    forall d, c | 0 <= d < |caches'| && c in caches'[d].initialReads
      ensures Shown(reader, WritesOf(caches'), d, c) == Some(caches'[d].initialReads[c])
    {
      assert WritesOf(caches')[..d] == WritesOf(caches)[..d];
      ShownDependsOnPrefix(reader, WritesOf(caches'), WritesOf(caches), d, c);
    }
  }
}

/** The plain meaning of nested transactional states: a stack of write maps over a reader. */
module LayeredState {
  import opened Cells

  /** The value the lowest `d` layers show. */
  function Shown(reader: Reader, stack: seq<Values>, d: nat, c: Cell): Option<Felt>
    requires d <= |stack|
  {
    if d == 0 then reader(c)
    else if c in stack[d - 1] then Some(stack[d - 1][c])
    else Shown(reader, stack, d - 1, c)
  }

  function Top(reader: Reader, stack: seq<Values>, c: Cell): Option<Felt> { Shown(reader, stack, |stack|, c) }

  /** What a stack shows. */
  function TopView(reader: Reader, stack: seq<Values>): Reader { c => Top(reader, stack, c) }

  /** What the stack underneath the innermost layer shows. */
  ghost function ParentView(reader: Reader, stack: seq<Values>): Reader
    requires |stack| >= 1
  {
    c => Shown(reader, stack, |stack| - 1, c)
  }

  datatype Op = Get(cell: Cell) | Set(cell: Cell, value: Felt) | Begin | Commit | Abort

  /** The depth after the operations; below zero means the block closed more than it opened. */
  function DepthAfter(ops: seq<Op>, depth: int): int {
    if ops == [] then depth
    else
      var before := DepthAfter(ops[..|ops| - 1], depth);
      match ops[|ops| - 1]
      case Begin => before + 1
      case Commit | Abort => before - 1
      case _ => before
  }

  /** The operations never close a layer they did not open: the depth stays at `floor` or above. */
  ghost predicate Balanced(ops: seq<Op>, depth: int, floor: int) {
    forall k | 0 <= k <= |ops| :: DepthAfter(ops[..k], depth) >= floor
  }

  /** The operations close exactly the layers they open. */
  ghost predicate SelfContained(ops: seq<Op>) { Balanced(ops, 0, 0) && DepthAfter(ops, 0) == 0 }

  lemma {:induction false} DepthIsRelative(ops: seq<Op>, depth: int)
    ensures DepthAfter(ops, depth) == DepthAfter(ops, 0) + depth
  {
    if ops != [] { DepthIsRelative(ops[..|ops| - 1], depth); }
  }

  lemma SelfContainedAnywhere(ops: seq<Op>, depth: int, floor: int)
    requires SelfContained(ops) && floor <= depth
    ensures Balanced(ops, depth, floor) && DepthAfter(ops, depth) == depth
  {
    DepthIsRelative(ops, depth);
    forall k | 0 <= k <= |ops| ensures DepthAfter(ops[..k], depth) >= floor {
      DepthIsRelative(ops[..k], depth);
      assert DepthAfter(ops[..k], 0) >= 0;
    }
  }

  function Apply(stack: seq<Values>, op: Op): seq<Values>
    requires |stack| >= 1 && (op.Commit? || op.Abort? ==> |stack| >= 2)
  {
    var n := |stack|;
    match op
    case Get(_) => stack
    case Set(c, v) => stack[n - 1 := stack[n - 1][c := v]]
    case Begin => stack + [map[]]
    case Commit => stack[..n - 2] + [stack[n - 2] + stack[n - 1]]
    case Abort => stack[..n - 1]
  }

  function ResultOf(reader: Reader, stack: seq<Values>, op: Op): Option<Felt> {
    if op.Get? then Top(reader, stack, op.cell) else None
  }

  /** The stack after the operations and what each operation returned. */
  function Run(reader: Reader, stack: seq<Values>, ops: seq<Op>): (r: (seq<Values>, seq<Option<Felt>>))
    requires |stack| >= 1 && Balanced(ops, |stack|, 1)
    ensures |r.0| == DepthAfter(ops, |stack|) && |r.1| == |ops|
  {
    if ops == [] then (stack, [])
    else
      var m := |ops| - 1;
      BalancedPrefix(ops, |stack|, 1, m);
      var (before, results) := Run(reader, stack, ops[..m]);
      assert ops[..|ops|] == ops;
      (Apply(before, ops[m]), results + [ResultOf(reader, before, ops[m])])
  }

  lemma BalancedPrefix(ops: seq<Op>, depth: int, floor: int, m: nat)
    requires Balanced(ops, depth, floor) && m <= |ops|
    ensures Balanced(ops[..m], depth, floor)
  {
    forall k | 0 <= k <= m ensures DepthAfter(ops[..m][..k], depth) >= floor {
      assert ops[..m][..k] == ops[..k];
    }
  }

  /** A layer shows the same whatever lies above it. */
  lemma {:induction false} ShownDependsOnPrefix(
      reader: Reader, stack: seq<Values>, stack': seq<Values>, d: nat, c: Cell)
    requires d <= |stack| && d <= |stack'| && stack[..d] == stack'[..d]
    ensures Shown(reader, stack, d, c) == Shown(reader, stack', d, c)
  {
    if d > 0 {
      assert stack[d - 1] == stack[..d][d - 1] == stack'[..d][d - 1] == stack'[d - 1];
      assert stack[..d - 1] == stack[..d][..d - 1] == stack'[..d][..d - 1] == stack'[..d - 1];
      ShownDependsOnPrefix(reader, stack, stack', d - 1, c);
    }
  }

  /** Committing makes the parent show what the child showed. */
  lemma CommitShowsChild(reader: Reader, stack: seq<Values>, c: Cell)
    requires |stack| >= 2
    ensures Top(reader, Apply(stack, Commit), c) == Top(reader, stack, c)
  {
    var n, stack' := |stack|, Apply(stack, Commit);
    assert stack'[..n - 2] == stack[..n - 2];
    ShownDependsOnPrefix(reader, stack, stack', n - 2, c);
    assert Shown(reader, stack, n - 1, c) ==
      if c in stack[n - 2] then Some(stack[n - 2][c]) else Shown(reader, stack, n - 2, c);
  }

  // ----------------------------------------------------------------------------------------------
  // Whole transactions

  lemma ApplyKeepsLower(stack: seq<Values>, op: Op, floor: nat)
    requires 1 <= floor <= |stack| && (op.Commit? || op.Abort? ==> |stack| > floor)
    ensures |Apply(stack, op)| >= floor && Apply(stack, op)[..floor - 1] == stack[..floor - 1]
  {
  }

  /** Everything below the layer a balanced block works in stays as it is. */
  lemma {:induction false} BlockKeepsLower(reader: Reader, stack: seq<Values>, ops: seq<Op>, floor: nat)
    requires 1 <= floor <= |stack| && Balanced(ops, |stack|, floor)
    ensures Balanced(ops, |stack|, 1)
    ensures Run(reader, stack, ops).0[..floor - 1] == stack[..floor - 1]
  {
    assert ops[..|ops|] == ops;
    if ops != [] {
      var m := |ops| - 1;
      BalancedPrefix(ops, |stack|, floor, m);
      BlockKeepsLower(reader, stack, ops[..m], floor);
      assert DepthAfter(ops[..m], |stack|) >= floor && DepthAfter(ops[..|ops|], |stack|) >= floor;
      ApplyKeepsLower(Run(reader, stack, ops[..m]).0, ops[m], floor);
    }
  }

  /** Aborting a transaction leaves no trace, whatever it did, nested transactions included. */
  lemma AbortRestores(reader: Reader, stack: seq<Values>, ops: seq<Op>)
    requires |stack| >= 1 && Balanced(ops, |stack| + 1, |stack| + 1) && DepthAfter(ops, |stack| + 1) == |stack| + 1
    ensures Balanced(ops, |stack| + 1, 1)
    ensures Apply(Run(reader, Apply(stack, Begin), ops).0, Abort) == stack
  {
    BlockKeepsLower(reader, Apply(stack, Begin), ops, |stack| + 1);
  }

  /** `flat` is `nested` with layers `n - 1` and `n` merged. */
  predicate Merged(nested: seq<Values>, flat: seq<Values>, n: nat) {
    && 1 <= n < |nested| && |flat| == |nested| - 1
    && (forall i | 0 <= i < n - 1 :: flat[i] == nested[i])
    && flat[n - 1] == nested[n - 1] + nested[n]
    && (forall i | n <= i < |flat| :: flat[i] == nested[i + 1])
  }

  lemma {:induction false} MergedShowsSame(
      reader: Reader, nested: seq<Values>, flat: seq<Values>, n: nat, d: nat, c: Cell)
    requires Merged(nested, flat, n) && n <= d <= |flat|
    ensures Shown(reader, nested, d + 1, c) == Shown(reader, flat, d, c)
    decreases d
  {
    if d == n {
      assert nested[..n - 1] == flat[..n - 1];
      ShownDependsOnPrefix(reader, nested, flat, n - 1, c);
    } else {
      assert flat[d - 1] == nested[d];
      MergedShowsSame(reader, nested, flat, n, d - 1, c);
    }
  }

  lemma MergedStep(nested: seq<Values>, flat: seq<Values>, n: nat, op: Op)
    requires Merged(nested, flat, n)
    requires op.Commit? || op.Abort? ==> |nested| >= n + 2
    ensures Merged(Apply(nested, op), Apply(flat, op), n)
  {
    match op {
      case Set(c, v) => MergedSet(nested, flat, n, c, v);
      case Commit => MergedCommit(nested, flat, n);
      case _ =>
    }
  }

  lemma MergedSet(nested: seq<Values>, flat: seq<Values>, n: nat, c: Cell, v: Felt)
    requires Merged(nested, flat, n)
    ensures Merged(Apply(nested, Set(c, v)), Apply(flat, Set(c, v)), n)
  {
    var k := |flat|;
    if k == n {
      assert (nested[n - 1] + nested[n])[c := v] == nested[n - 1] + nested[n][c := v];
    } else {
      assert flat[k - 1] == nested[k];
    }
  }

  lemma MergedCommit(nested: seq<Values>, flat: seq<Values>, n: nat)
    requires Merged(nested, flat, n) && |nested| >= n + 2
    ensures Merged(Apply(nested, Commit), Apply(flat, Commit), n)
  {
    var k := |flat|;
    assert flat[k - 1] == nested[k];
    if k == n + 1 {
      assert (nested[n - 1] + nested[n]) + nested[n + 1] == nested[n - 1] + (nested[n] + nested[n + 1]);
    } else {
      assert flat[k - 2] == nested[k - 1];
    }
  }

  lemma MergedAtTop(nested: seq<Values>, flat: seq<Values>, n: nat)
    requires Merged(nested, flat, n) && |flat| == n
    ensures Apply(nested, Commit) == flat
  {
    assert flat == flat[..n - 1] + [flat[n - 1]];
  }

  lemma BalancedOneBelow(ops: seq<Op>, n: nat)
    requires n >= 1 && Balanced(ops, n + 1, n + 1)
    ensures Balanced(ops, n + 1, 1) && Balanced(ops, n, 1)
    ensures DepthAfter(ops, n + 1) == DepthAfter(ops, n) + 1
  {
    forall k | 0 <= k <= |ops| ensures DepthAfter(ops[..k], n + 1) >= 1 && DepthAfter(ops[..k], n) >= 1 {
      DepthIsRelative(ops[..k], n);
      DepthIsRelative(ops[..k], n + 1);
      assert DepthAfter(ops[..k], n + 1) >= n + 1;
    }
    DepthIsRelative(ops, n);
    DepthIsRelative(ops, n + 1);
  }

  /** One more operation on either stack: the results agree and the stacks stay merged. */
  lemma MergedOp(reader: Reader, nested: seq<Values>, flat: seq<Values>, n: nat, op: Op)
    requires Merged(nested, flat, n) && (op.Commit? || op.Abort? ==> |nested| >= n + 2)
    ensures Merged(Apply(nested, op), Apply(flat, op), n)
    ensures ResultOf(reader, nested, op) == ResultOf(reader, flat, op)
  {
    MergedStep(nested, flat, n, op);
    if op.Get? { MergedShowsSame(reader, nested, flat, n, |flat|, op.cell); }
  }

  lemma {:induction false} NestedRunsLikeFlat(reader: Reader, stack: seq<Values>, ops: seq<Op>)
    requires |stack| >= 1 && Balanced(ops, |stack| + 1, |stack| + 1)
    ensures Balanced(ops, |stack| + 1, 1) && Balanced(ops, |stack|, 1)
    ensures Merged(Run(reader, Apply(stack, Begin), ops).0, Run(reader, stack, ops).0, |stack|)
    ensures Run(reader, Apply(stack, Begin), ops).1 == Run(reader, stack, ops).1
  {
    var n := |stack|;
    BalancedOneBelow(ops, n);
    if ops != [] {
      var m := |ops| - 1;
      assert ops[..|ops|] == ops;
      BalancedPrefix(ops, n + 1, n + 1, m);
      NestedRunsLikeFlat(reader, stack, ops[..m]);
      assert DepthAfter(ops[..|ops|], n + 1) >= n + 1;
      MergedOp(reader, Run(reader, Apply(stack, Begin), ops[..m]).0, Run(reader, stack, ops[..m]).0, n, ops[m]);
    }
  }

  /** A committed transaction is as if it had worked on its parent directly: every read inside it, at any
      nesting, returns the same, and the resulting stack is the same. */
  lemma CommitIsTransparent(reader: Reader, stack: seq<Values>, ops: seq<Op>)
    requires |stack| >= 1 && Balanced(ops, |stack| + 1, |stack| + 1) && DepthAfter(ops, |stack| + 1) == |stack| + 1
    ensures Balanced(ops, |stack| + 1, 1) && Balanced(ops, |stack|, 1)
    ensures Run(reader, Apply(stack, Begin), ops).1 == Run(reader, stack, ops).1
    ensures Apply(Run(reader, Apply(stack, Begin), ops).0, Commit) == Run(reader, stack, ops).0
  {
    BalancedOneBelow(ops, |stack|);
    NestedRunsLikeFlat(reader, stack, ops);
    MergedAtTop(Run(reader, Apply(stack, Begin), ops).0, Run(reader, stack, ops).0, |stack|);
  }

  /** The stack after operations that close what they open. */
  ghost function After(reader: Reader, stack: seq<Values>, ops: seq<Op>): (r: seq<Values>)
    requires |stack| >= 1 && SelfContained(ops)
    ensures |r| == |stack|
  {
    SelfContainedAnywhere(ops, |stack|, 1);
    Run(reader, stack, ops).0
  }

  lemma OneWrite(reader: Reader, stack: seq<Values>, c: Cell, v: Felt)
    requires |stack| >= 1
    ensures SelfContained([Set(c, v)]) && After(reader, stack, [Set(c, v)]) == Apply(stack, Set(c, v))
  {
    var ops := [Set(c, v)];
    assert ops[..0] == [] && ops[..1] == ops;
    assert SelfContained(ops);
    SelfContainedAnywhere(ops, |stack|, 1);
    assert Run(reader, stack, ops[..0]).0 == stack;
  }

  lemma TwoWrites(reader: Reader, stack: seq<Values>, c: Cell, v: Felt, d: Cell, w: Felt)
    requires |stack| >= 1
    ensures SelfContained([Set(c, v), Set(d, w)])
    ensures After(reader, stack, [Set(c, v), Set(d, w)]) == Apply(Apply(stack, Set(c, v)), Set(d, w))
  {
    var ops := [Set(c, v), Set(d, w)];
    OneWrite(reader, stack, c, v);
    assert ops[..0] == [] && ops[..1] == [Set(c, v)] && ops[..2] == ops;
    assert SelfContained(ops);
    SelfContainedAnywhere(ops, |stack|, 1);
  }

  /** Operations in a transactional state of their own: its parent still shows what it showed, aborting it
      restores the stack, and committing it is performing the operations on the stack directly. */
  lemma TransactionLayer(reader: Reader, stack: seq<Values>, ops: seq<Op>)
    requires |stack| >= 1 && SelfContained(ops)
    ensures var nested := After(reader, Apply(stack, Begin), ops);
      && Apply(nested, Abort) == stack
      && Apply(nested, Commit) == After(reader, stack, ops)
      && (forall c :: Shown(reader, nested, |stack|, c) == Top(reader, stack, c))
      && (forall c :: Top(reader, nested, c) == Top(reader, After(reader, stack, ops), c))
  {
    var n := |stack|;
    SelfContainedAnywhere(ops, n, 1);
    SelfContainedAnywhere(ops, n + 1, 1);
    SelfContainedAnywhere(ops, n + 1, n + 1);
    var nested := After(reader, Apply(stack, Begin), ops);
    AbortRestores(reader, stack, ops);
    CommitIsTransparent(reader, stack, ops);
    forall c ensures Shown(reader, nested, n, c) == Top(reader, stack, c)
             ensures Top(reader, nested, c) == Top(reader, After(reader, stack, ops), c)
    {
      assert nested[..n] == stack;
      ShownDependsOnPrefix(reader, nested, stack, n, c);
      CommitShowsChild(reader, nested, c);
    }
  }

  // ----------------------------------------------------------------------------------------------
  // Cells that are left alone

  predicate LeavesAlone(ops: seq<Op>, c: Cell) { forall op | op in ops :: op.Set? ==> op.cell != c }

  /** Cell `c` is in the layers of `stack` as it was, and in none above them. */
  predicate SameCell(stack: seq<Values>, stack': seq<Values>, c: Cell) {
    var n := |stack|;
    && 1 <= n <= |stack'|
    && (forall i | 0 <= i < n :: Lookup(stack'[i], c) == Lookup(stack[i], c))
    && (forall i | n <= i < |stack'| :: c !in stack'[i])
  }

  lemma SameCellStep(stack: seq<Values>, stack': seq<Values>, c: Cell, op: Op)
    requires SameCell(stack, stack', c) && (op.Set? ==> op.cell != c)
    requires op.Commit? || op.Abort? ==> |stack'| > |stack|
    ensures SameCell(stack, Apply(stack', op), c)
  {
  }

  lemma {:induction false} RunLeavesAlone(reader: Reader, stack: seq<Values>, ops: seq<Op>, c: Cell)
    requires |stack| >= 1 && Balanced(ops, |stack|, |stack|) && LeavesAlone(ops, c)
    ensures Balanced(ops, |stack|, 1) && SameCell(stack, Run(reader, stack, ops).0, c)
  {
    var n := |stack|;
    assert ops[..|ops|] == ops;
    if ops != [] {
      var m := |ops| - 1;
      BalancedPrefix(ops, n, n, m);
      RunLeavesAlone(reader, stack, ops[..m], c);
      assert DepthAfter(ops[..m], n) >= n && DepthAfter(ops[..|ops|], n) >= n;
      SameCellStep(stack, Run(reader, stack, ops[..m]).0, c, ops[m]);
    }
  }

  lemma {:induction false} SameCellShows(reader: Reader, stack: seq<Values>, stack': seq<Values>, d: nat, c: Cell)
    requires SameCell(stack, stack', c) && d <= |stack|
    ensures Shown(reader, stack', d, c) == Shown(reader, stack, d, c)
  {
    if d > 0 {
      assert Lookup(stack'[d - 1], c) == Lookup(stack[d - 1], c);
      SameCellShows(reader, stack, stack', d - 1, c);
    }
  }

  /** Operations that never write a cell, at whatever depth, leave what the state shows of it. */
  lemma UntouchedShowsSame(reader: Reader, stack: seq<Values>, ops: seq<Op>, c: Cell)
    requires |stack| >= 1 && SelfContained(ops) && LeavesAlone(ops, c)
    ensures Top(reader, After(reader, stack, ops), c) == Top(reader, stack, c)
  {
    SelfContainedAnywhere(ops, |stack|, |stack|);
    SelfContainedAnywhere(ops, |stack|, 1);
    RunLeavesAlone(reader, stack, ops, c);
    SameCellShows(reader, stack, After(reader, stack, ops), |stack|, c);
  }

  // ----------------------------------------------------------------------------------------------
  // Cells that can be read

  ghost predicate ReadableFrom(reader: Reader, stack: seq<Values>, n: nat, c: Cell) {
    1 <= n <= |stack| && forall d | n <= d <= |stack| :: Shown(reader, stack, d, c).Some?
  }

  /** Below the top an operation shows what was shown before. */
  lemma LowerShowsSame(reader: Reader, stack: seq<Values>, d: nat, c: Cell, op: Op)
    requires |stack| >= 1 && (op.Commit? || op.Abort? ==> |stack| >= 2)
    requires d < |Apply(stack, op)| || (op.Abort? && d == |Apply(stack, op)|)
    ensures Shown(reader, Apply(stack, op), d, c) == Shown(reader, stack, d, c)
  {
    assert Apply(stack, op)[..d] == stack[..d];
    ShownDependsOnPrefix(reader, Apply(stack, op), stack, d, c);
  }

  lemma TopStaysReadable(reader: Reader, stack: seq<Values>, c: Cell, op: Op)
    requires |stack| >= 1 && (op.Commit? ==> |stack| >= 2) && !op.Abort? && Top(reader, stack, c).Some?
    ensures Top(reader, Apply(stack, op), c).Some?
  {
    match op {
      case Set(_, _) => LowerShowsSame(reader, stack, |stack| - 1, c, op);
      case Begin => LowerShowsSame(reader, stack, |stack|, c, op);
      case Commit => CommitShowsChild(reader, stack, c);
      case _ =>
    }
  }

  lemma ReadableStep(reader: Reader, stack: seq<Values>, n: nat, c: Cell, op: Op)
    requires ReadableFrom(reader, stack, n, c) && (op.Commit? || op.Abort? ==> |stack| > n)
    ensures ReadableFrom(reader, Apply(stack, op), n, c)
  {
    forall d | n <= d <= |Apply(stack, op)| ensures Shown(reader, Apply(stack, op), d, c).Some? {
      if d < |Apply(stack, op)| || op.Abort? {
        LowerShowsSame(reader, stack, d, c, op);
      } else {
        TopStaysReadable(reader, stack, c, op);
      }
    }
  }

  lemma {:induction false} RunKeepsReadable(reader: Reader, stack: seq<Values>, ops: seq<Op>, c: Cell)
    requires |stack| >= 1 && Balanced(ops, |stack|, |stack|) && Top(reader, stack, c).Some?
    ensures Balanced(ops, |stack|, 1) && ReadableFrom(reader, Run(reader, stack, ops).0, |stack|, c)
  {
    var n := |stack|;
    assert ops[..|ops|] == ops;
    if ops != [] {
      var m := |ops| - 1;
      BalancedPrefix(ops, n, n, m);
      RunKeepsReadable(reader, stack, ops[..m], c);
      assert DepthAfter(ops[..m], n) >= n && DepthAfter(ops[..|ops|], n) >= n;
      ReadableStep(reader, Run(reader, stack, ops[..m]).0, n, c, ops[m]);
    }
  }

  /** A cell that can be read stays so. */
  lemma StaysReadable(reader: Reader, stack: seq<Values>, ops: seq<Op>, c: Cell)
    requires |stack| >= 1 && SelfContained(ops) && Top(reader, stack, c).Some?
    ensures Top(reader, After(reader, stack, ops), c).Some?
  {
    SelfContainedAnywhere(ops, |stack|, |stack|);
    SelfContainedAnywhere(ops, |stack|, 1);
    RunKeepsReadable(reader, stack, ops, c);
  }

  // ----------------------------------------------------------------------------------------------
  // The last write

  /** What decides the value of a cell: a write, or the state before all operations without its topmost layers. */
  datatype LastWrite = Wrote(value: Felt) | Before(dropped: nat)

  /** Looking below the `dropped` topmost layers after the operation is looking below this many before it; what a
      committed layer held is still there. */
  function DroppedBefore(op: Op, dropped: nat): nat {
    match op
    case Begin => if dropped == 0 then 0 else dropped - 1
    case Commit => if dropped == 0 then 0 else dropped + 1
    case Abort => dropped + 1
    case _ => dropped
  }

  predicate Writes(op: Op, c: Cell) { op.Set? && op.cell == c }

  /** The last write of `c` that still counts, looking back from below the `dropped` topmost layers: writes in
      aborted layers do not count, those in committed layers do. */
  function LastSet(ops: seq<Op>, c: Cell, dropped: nat): LastWrite {
    if ops == [] then Before(dropped)
    else
      var op := ops[|ops| - 1];
      if dropped == 0 && Writes(op, c) then Wrote(op.value)
      else LastSet(ops[..|ops| - 1], c, DroppedBefore(op, dropped))
  }

  /** The value is the one the last write decides. */
  ghost predicate IsDecided(shown: Option<Felt>, last: LastWrite, reader: Reader, stack: seq<Values>, c: Cell) {
    match last
    case Wrote(v) => shown == Some(v)
    case Before(n) => n <= |stack| && shown == Shown(reader, stack, |stack| - n, c)
  }

  /** What an operation shows below its `dropped` topmost layers, in terms of what was shown before it. */
  lemma ShowsAfterOp(reader: Reader, stack: seq<Values>, op: Op, c: Cell, dropped: nat)
    requires |stack| >= 1 && (op.Commit? || op.Abort? ==> |stack| >= 2) && dropped <= |Apply(stack, op)|
    ensures DroppedBefore(op, dropped) <= |stack|
    ensures Shown(reader, Apply(stack, op), |Apply(stack, op)| - dropped, c) ==
            if dropped == 0 && Writes(op, c) then Some(op.value)
            else Shown(reader, stack, |stack| - DroppedBefore(op, dropped), c)
  {
    var n, n' := |stack|, |Apply(stack, op)|;
    if dropped > 0 || op.Abort? {
      LowerShowsSame(reader, stack, n' - dropped, c, op);
    } else {
      match op {
        case Set(_, _) => LowerShowsSame(reader, stack, n - 1, c, op);
        case Begin => LowerShowsSame(reader, stack, n, c, op);
        case Commit => CommitShowsChild(reader, stack, c);
        case _ =>
      }
    }
  }

  lemma {:induction false} ShowsLastWriteBelow(reader: Reader, stack: seq<Values>, ops: seq<Op>, c: Cell, dropped: nat)
    requires |stack| >= 1 && Balanced(ops, |stack|, 1) && dropped <= |Run(reader, stack, ops).0|
    ensures var after := Run(reader, stack, ops).0;
      IsDecided(Shown(reader, after, |after| - dropped, c), LastSet(ops, c, dropped), reader, stack, c)
  {
    if ops != [] {
      var m := |ops| - 1;
      assert ops[..|ops|] == ops;
      BalancedPrefix(ops, |stack|, 1, m);
      var before := Run(reader, stack, ops[..m]).0;
      ShowsAfterOp(reader, before, ops[m], c, dropped);
      if !(dropped == 0 && Writes(ops[m], c)) {
        ShowsLastWriteBelow(reader, stack, ops[..m], c, DroppedBefore(ops[m], dropped));
      }
    }
  }

  /** Read your write: after any operations a cell shows the last write of it that still counts, and without one
      what was shown before them by the layers that are left. */
  lemma ShowsLastWrite(reader: Reader, stack: seq<Values>, ops: seq<Op>, c: Cell)
    requires |stack| >= 1 && Balanced(ops, |stack|, 1)
    ensures IsDecided(Top(reader, Run(reader, stack, ops).0, c), LastSet(ops, c, 0), reader, stack, c)
  {
    ShowsLastWriteBelow(reader, stack, ops, c, 0);
  }

  /** In particular a written value is shown until the cell is written again or a layer is aborted: neither other
      writes, nor reads, nor opening, nor committing layers lose it. */
  lemma {:induction false} WriteStays(reader: Reader, stack: seq<Values>, ops: seq<Op>, k: nat, c: Cell, v: Felt)
    requires |stack| >= 1 && Balanced(ops, |stack|, 1) && k < |ops| && ops[k] == Set(c, v)
    requires forall j | k < j < |ops| :: !ops[j].Abort? && !(ops[j].Set? && ops[j].cell == c)
    ensures Top(reader, Run(reader, stack, ops).0, c) == Some(v)
    decreases |ops|
  {
    var m := |ops| - 1;
    assert ops[..|ops|] == ops;
    BalancedPrefix(ops, |stack|, 1, m);
    ShowsAfterOp(reader, Run(reader, stack, ops[..m]).0, ops[m], c, 0);
    if k < m { WriteStays(reader, stack, ops[..m], k, c, v); }
  }

  /** So does every read among the operations. */
  lemma {:induction false} GetReturnsLastWrite(reader: Reader, stack: seq<Values>, ops: seq<Op>, k: nat)
    requires |stack| >= 1 && Balanced(ops, |stack|, 1) && k < |ops| && ops[k].Get?
    ensures IsDecided(Run(reader, stack, ops).1[k], LastSet(ops[..k], ops[k].cell, 0), reader, stack, ops[k].cell)
    decreases |ops|
  {
    var m := |ops| - 1;
    BalancedPrefix(ops, |stack|, 1, m);
    if k == m {
      ShowsLastWrite(reader, stack, ops[..m], ops[k].cell);
    } else {
      assert ops[..m][..k] == ops[..k];
      GetReturnsLastWrite(reader, stack, ops[..m], k);
    }
  }

  lemma AllShowLastWrites(reader: Reader, stack: seq<Values>, ops: seq<Op>)
    requires |stack| >= 1 && Balanced(ops, |stack|, 1)
    ensures forall c :: IsDecided(Top(reader, Run(reader, stack, ops).0, c), LastSet(ops, c, 0), reader, stack, c)
    ensures forall k | 0 <= k < |ops| && ops[k].Get? ::
      IsDecided(Run(reader, stack, ops).1[k], LastSet(ops[..k], ops[k].cell, 0), reader, stack, ops[k].cell)
  {
    forall c { ShowsLastWrite(reader, stack, ops, c); }
    forall k | 0 <= k < |ops| && ops[k].Get? { GetReturnsLastWrite(reader, stack, ops, k); }
  }
}

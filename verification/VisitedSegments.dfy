/** Which bytecode segments a run visited, given the program counters it visited and the nested segment lengths. */
module VisitedSegments {

  datatype NestedIntList = Leaf(length: nat) | Node(segments: seq<NestedIntList>)

  datatype Result = Ok(starts: seq<nat>) | InvalidSegmentStructure(pc: nat, segmentStart: nat)

  function Length(t: NestedIntList): nat {
    match t
    case Leaf(length) => length
    case Node(segments) => LengthAll(segments)
  }

  function LengthAll(ts: seq<NestedIntList>): nat {
    if ts == [] then 0 else LengthAll(ts[..|ts| - 1]) + Length(ts[|ts| - 1])
  }

  // ----------------------------------------------------------------------------------------------
  // What is promised, without reference to a traversal

  /** Where the `i`-th child of a node starts. */
  function ChildStart(ts: seq<NestedIntList>, i: nat, offset: nat): nat
    requires i <= |ts|
  {
    offset + LengthAll(ts[..i])
  }

  /** `s` is a segment strictly inside the tree `t` that starts at `offset`, and `s` starts at `start`. */
  ghost predicate InnerSegment(t: NestedIntList, offset: nat, s: NestedIntList, start: nat) {
    t.Node? && exists i | 0 <= i < |t.segments| ::
      var child, childStart := t.segments[i], ChildStart(t.segments, i, offset);
      (s == child && start == childStart) || InnerSegment(child, childStart, s, start)
  }

  ghost predicate LeafAt(t: NestedIntList, offset: nat, start: nat, length: nat) {
    (t == Leaf(length) && start == offset) || InnerSegment(t, offset, Leaf(length), start)
  }

  ghost predicate InRange(pc: nat, start: nat, length: nat) { start <= pc < start + length }

  ghost predicate Visited(pcs: set<nat>, start: nat, length: nat) {
    exists pc | pc in pcs :: InRange(pc, start, length)
  }

  /** Every inner segment that was visited had its first program counter visited. */
  ghost predicate WellStructured(t: NestedIntList, offset: nat, pcs: set<nat>) {
    forall s, start | InnerSegment(t, offset, s, start) && Visited(pcs, start, Length(s)) :: start in pcs
  }

  ghost predicate Ascending(starts: seq<nat>) { forall i, j | 0 <= i < j < |starts| :: starts[i] < starts[j] }

  /** The starts of the visited leaves, in order. */
  ghost predicate AreVisitedLeaves(t: NestedIntList, offset: nat, pcs: set<nat>, starts: seq<nat>) {
    && Ascending(starts)
    && forall start: nat :: start in starts <==> VisitedLeafAt(t, offset, pcs, start)
  }

  ghost predicate VisitedLeafAt(t: NestedIntList, offset: nat, pcs: set<nat>, start: nat) {
    exists length: nat :: LeafAt(t, offset, start, length) && Visited(pcs, start, length)
  }

  /** A visited inner segment whose first program counter was not visited, with the first one that was. */
  ghost predicate IsViolation(t: NestedIntList, offset: nat, pcs: set<nat>, pc: nat, start: nat) {
    && pc in pcs && start < pc && (forall q | q in pcs && q >= start :: pc <= q)
    && exists s :: InnerSegment(t, offset, s, start) && InRange(pc, start, Length(s))
  }

  // ----------------------------------------------------------------------------------------------
  // Segments of a tree

  lemma LengthOfPrefix(ts: seq<NestedIntList>, i: nat)
    requires i < |ts|
    ensures LengthAll(ts[..i + 1]) == LengthAll(ts[..i]) + Length(ts[i])
  {
    assert ts[..i + 1][..i] == ts[..i];
  }

  lemma {:induction false} ChildWithin(ts: seq<NestedIntList>, i: nat)
    requires i < |ts|
    ensures LengthAll(ts[..i]) + Length(ts[i]) <= LengthAll(ts)
    decreases |ts|
  {
    var m := |ts| - 1;
    if i < m {
      ChildWithin(ts[..m], i);
      assert ts[..m][..i] == ts[..i];
    }
  }

  /** An inner segment lies within its tree. */
  lemma {:induction false} InnerWithin(t: NestedIntList, offset: nat, s: NestedIntList, start: nat)
    requires InnerSegment(t, offset, s, start)
    ensures offset <= start && start + Length(s) <= offset + Length(t)
    decreases t
  {
    var ts := t.segments;
    var i :| 0 <= i < |ts| &&
             var childStart := ChildStart(ts, i, offset);
             ((s == ts[i] && start == childStart) || InnerSegment(ts[i], childStart, s, start));
    ChildWithin(ts, i);
    if !(s == ts[i] && start == ChildStart(ts, i, offset)) {
      InnerWithin(ts[i], ChildStart(ts, i, offset), s, start);
    }
  }

  /** A program counter within a tree lies in one of its leaves. */
  lemma {:induction false} LeafContaining(t: NestedIntList, offset: nat, pc: nat) returns (start: nat, length: nat)
    requires InRange(pc, offset, Length(t))
    ensures LeafAt(t, offset, start, length) && InRange(pc, start, length)
    decreases t
  {
    match t
    case Leaf(n) => start, length := offset, n;
    case Node(ts) =>
      assert ts != [] by { assert Length(t) == LengthAll(ts); }
      var i := 0;
      while pc >= ChildStart(ts, i + 1, offset)
        invariant i < |ts| && pc >= ChildStart(ts, i, offset)
        decreases |ts| - i
      {
        assert ts[..|ts|] == ts;
        i := i + 1;
      }
      LengthOfPrefix(ts, i);
      start, length := LeafContaining(ts[i], ChildStart(ts, i, offset), pc);
  }

  /** Adding a child adds it and what is inside it. */
  lemma InnerOfPrefix(ts: seq<NestedIntList>, i: nat, offset: nat, s: NestedIntList, start: nat)
    requires i < |ts|
    ensures InnerSegment(Node(ts[..i + 1]), offset, s, start) <==>
      || InnerSegment(Node(ts[..i]), offset, s, start)
      || (s == ts[i] && start == ChildStart(ts, i, offset))
      || InnerSegment(ts[i], ChildStart(ts, i, offset), s, start)
  {
    var longer, shorter := ts[..i + 1], ts[..i];
    forall k | 0 <= k <= i ensures ChildStart(longer, k, offset) == ChildStart(ts, k, offset) {
      assert longer[..k] == ts[..k];
    }
    forall k | 0 <= k < i ensures ChildStart(shorter, k, offset) == ChildStart(ts, k, offset) {
      assert shorter[..k] == ts[..k];
    }
    assert longer[i] == ts[i];
    forall k | 0 <= k < i ensures longer[k] == shorter[k] {}
  }

  lemma WellStructuredStep(ts: seq<NestedIntList>, i: nat, offset: nat, pcs: set<nat>)
    requires i < |ts|
    ensures var start := ChildStart(ts, i, offset);
      WellStructured(Node(ts[..i + 1]), offset, pcs) <==>
      && WellStructured(Node(ts[..i]), offset, pcs)
      && WellStructured(ts[i], start, pcs)
      && (Visited(pcs, start, Length(ts[i])) ==> start in pcs)
  {
    forall s, start ensures InnerSegment(Node(ts[..i + 1]), offset, s, start) <==>
      || InnerSegment(Node(ts[..i]), offset, s, start)
      || (s == ts[i] && start == ChildStart(ts, i, offset))
      || InnerSegment(ts[i], ChildStart(ts, i, offset), s, start)
    {
      InnerOfPrefix(ts, i, offset, s, start);
    }
  }

  // ----------------------------------------------------------------------------------------------
  // Visited leaves

  /** There are visited leaves exactly when the tree was visited. */
  lemma VisitedHasLeaves(t: NestedIntList, offset: nat, pcs: set<nat>, starts: seq<nat>)
    requires AreVisitedLeaves(t, offset, pcs, starts)
    ensures starts != [] <==> Visited(pcs, offset, Length(t))
  {
    if starts != [] {
      assert starts[0] in starts;
      var length: nat :| LeafAt(t, offset, starts[0], length) && Visited(pcs, starts[0], length);
      LeafWithin(t, offset, starts[0], length);
      var pc :| pc in pcs && InRange(pc, starts[0], length);
      assert InRange(pc, offset, Length(t));
    }
    if Visited(pcs, offset, Length(t)) {
      var pc :| pc in pcs && InRange(pc, offset, Length(t));
      var start, length := LeafContaining(t, offset, pc);
      assert Visited(pcs, start, length);
      assert start in starts;
    }
  }

  lemma LeafWithin(t: NestedIntList, offset: nat, start: nat, length: nat)
    requires LeafAt(t, offset, start, length)
    ensures offset <= start && start + length <= offset + Length(t)
  {
    if InnerSegment(t, offset, Leaf(length), start) { InnerWithin(t, offset, Leaf(length), start); }
  }

  /** The visited leaves of a node are those of its children, one child after the other. */
  lemma VisitedLeavesStep(ts: seq<NestedIntList>, i: nat, offset: nat, pcs: set<nat>, before: seq<nat>, inner: seq<nat>)
    requires i < |ts|
    requires AreVisitedLeaves(Node(ts[..i]), offset, pcs, before)
    requires AreVisitedLeaves(ts[i], ChildStart(ts, i, offset), pcs, inner)
    ensures AreVisitedLeaves(Node(ts[..i + 1]), offset, pcs, before + inner)
  {
    var childStart := ChildStart(ts, i, offset);
    forall start: nat
      ensures VisitedLeafAt(Node(ts[..i + 1]), offset, pcs, start) <==>
              VisitedLeafAt(Node(ts[..i]), offset, pcs, start) || VisitedLeafAt(ts[i], childStart, pcs, start)
    {
      forall length: nat
        ensures LeafAt(Node(ts[..i + 1]), offset, start, length) <==>
                LeafAt(Node(ts[..i]), offset, start, length) || LeafAt(ts[i], childStart, start, length)
      {
        InnerOfPrefix(ts, i, offset, Leaf(length), start);
      }
    }
    forall start | start in before ensures start < childStart {
      VisitedLeafWithin(Node(ts[..i]), offset, pcs, start);
    }
    forall start | start in inner ensures childStart <= start {
      VisitedLeafWithin(ts[i], childStart, pcs, start);
    }
    forall start: nat ensures start in before + inner <==> VisitedLeafAt(Node(ts[..i + 1]), offset, pcs, start) {
      assert start in before + inner <==> start in before || start in inner;
    }
    var all := before + inner;
    forall k, l | 0 <= k < l < |all| ensures all[k] < all[l] {
      if k < |before| { assert all[k] in before; }
      if l >= |before| { assert all[l] in inner; }
    }
  }

  lemma VisitedLeafWithin(t: NestedIntList, offset: nat, pcs: set<nat>, start: nat)
    requires VisitedLeafAt(t, offset, pcs, start)
    ensures offset <= start < offset + Length(t)
  {
    var length: nat :| LeafAt(t, offset, start, length) && Visited(pcs, start, length);
    LeafWithin(t, offset, start, length);
  }

  // ----------------------------------------------------------------------------------------------
  // The traversal

  /** The program counters still to be seen, the largest first. */
  ghost predicate Pending(stack: seq<nat>, pcs: set<nat>, offset: nat) {
    && (forall i, j | 0 <= i < j < |stack| :: stack[i] > stack[j])
    && (forall pc :: pc in stack <==> pc in pcs && pc >= offset)
  }

  /** The top of the stack is the next program counter; it tells whether the next segment was visited. */
  lemma NextVisited(stack: seq<nat>, pcs: set<nat>, offset: nat, length: nat)
    requires Pending(stack, pcs, offset)
    ensures Visited(pcs, offset, length) <==> stack != [] && stack[|stack| - 1] < offset + length
    ensures stack != [] ==> stack[|stack| - 1] in pcs && offset <= stack[|stack| - 1]
    ensures stack != [] ==> forall q | q in pcs && q >= offset :: stack[|stack| - 1] <= q
    ensures offset in pcs <==> stack != [] && stack[|stack| - 1] == offset
  {
    if stack != [] {
      var last := stack[|stack| - 1];
      assert last in stack;
      forall q | q in pcs && q >= offset ensures last <= q {
        assert q in stack;
      }
      if last < offset + length { assert InRange(last, offset, length); }
    } else {
      assert forall pc | pc in pcs :: pc !in stack && pc < offset;
    }
  }

  lemma ViolationInChild(ts: seq<NestedIntList>, i: nat, offset: nat, pcs: set<nat>, pc: nat, start: nat)
    requires i < |ts| && IsViolation(ts[i], ChildStart(ts, i, offset), pcs, pc, start)
    ensures IsViolation(Node(ts), offset, pcs, pc, start)
  {
    var s :| InnerSegment(ts[i], ChildStart(ts, i, offset), s, start) && InRange(pc, start, Length(s));
    assert InnerSegment(Node(ts), offset, s, start);
  }

  lemma ViolationAtChild(ts: seq<NestedIntList>, i: nat, offset: nat, pcs: set<nat>, stack: seq<nat>)
    requires i < |ts| && Pending(stack, pcs, ChildStart(ts, i, offset))
    requires var start := ChildStart(ts, i, offset); Visited(pcs, start, Length(ts[i])) && start !in pcs
    ensures stack != [] && IsViolation(Node(ts), offset, pcs, stack[|stack| - 1], ChildStart(ts, i, offset))
  {
    var start := ChildStart(ts, i, offset);
    NextVisited(stack, pcs, start, Length(ts[i]));
    assert InnerSegment(Node(ts), offset, ts[i], start);
    assert InRange(stack[|stack| - 1], start, Length(ts[i]));
  }

  lemma ViolationIsIllStructured(t: NestedIntList, offset: nat, pcs: set<nat>, pc: nat, start: nat)
    requires IsViolation(t, offset, pcs, pc, start)
    ensures !WellStructured(t, offset, pcs)
  {
    var s :| InnerSegment(t, offset, s, start) && InRange(pc, start, Length(s));
    assert Visited(pcs, start, Length(s));
    assert start !in pcs;
  }

  /** The free function `get_visited_segments`: consumes the stack of program counters and advances the offset. */
  method VisitTree(t: NestedIntList, stack: seq<nat>, offset: nat, ghost pcs: set<nat>)
    returns (r: Result, rest: seq<nat>, next: nat)
    requires Pending(stack, pcs, offset)
    ensures r.Ok? ==> WellStructured(t, offset, pcs) && AreVisitedLeaves(t, offset, pcs, r.starts)
    ensures r.Ok? ==> next == offset + Length(t) && Pending(rest, pcs, next)
    ensures r.InvalidSegmentStructure? ==> IsViolation(t, offset, pcs, r.pc, r.segmentStart)
    decreases t
  {
    match t
    case Leaf(length) =>
      r, rest, next := VisitLeaf(length, stack, offset, pcs);
    case Node(ts) =>
      rest, next := stack, offset;
      var res: seq<nat> := [];
      for i := 0 to |ts|
        invariant next == ChildStart(ts, i, offset) && Pending(rest, pcs, next)
        invariant WellStructured(Node(ts[..i]), offset, pcs)
        invariant AreVisitedLeaves(Node(ts[..i]), offset, pcs, res)
      {
        var segmentStart, before := next, rest;
        var inner;
        inner, rest, next := VisitTree(ts[i], rest, next, pcs);
        if inner.InvalidSegmentStructure? {
          ViolationInChild(ts, i, offset, pcs, inner.pc, inner.segmentStart);
          return inner, rest, next;
        }
        VisitedHasLeaves(ts[i], segmentStart, pcs, inner.starts);
        NextVisited(before, pcs, segmentStart, Length(ts[i]));
        if before != [] && before[|before| - 1] != segmentStart && inner.starts != [] {
          ViolationAtChild(ts, i, offset, pcs, before);
          return InvalidSegmentStructure(before[|before| - 1], segmentStart), rest, next;
        }
        WellStructuredStep(ts, i, offset, pcs);
        VisitedLeavesStep(ts, i, offset, pcs, res, inner.starts);
        LengthOfPrefix(ts, i);
        res := res + inner.starts;
      }
      assert ts[..|ts|] == ts;
      r := Ok(res);
  }

  method VisitLeaf(length: nat, stack: seq<nat>, offset: nat, ghost pcs: set<nat>)
    returns (r: Result, rest: seq<nat>, next: nat)
    requires Pending(stack, pcs, offset)
    ensures r.Ok? && WellStructured(Leaf(length), offset, pcs) && AreVisitedLeaves(Leaf(length), offset, pcs, r.starts)
    ensures next == offset + length && Pending(rest, pcs, next)
  {
    NextVisited(stack, pcs, offset, length);
    LeafIsItsOnlyLeaf(length, offset, pcs);
    var res: seq<nat> := [];
    if stack != [] && offset <= stack[|stack| - 1] < offset + length {
      res := [offset];
    }
    rest := stack;
    while rest != [] && offset <= rest[|rest| - 1] < offset + length
      invariant rest <= stack
      invariant forall k | |rest| <= k < |stack| :: stack[k] < offset + length
    {
      rest := rest[..|rest| - 1];
    }
    next := offset + length;
    PrefixIsPending(stack, |rest|, pcs, offset, next);
    r := Ok(res);
  }

  lemma LeafIsItsOnlyLeaf(length: nat, offset: nat, pcs: set<nat>)
    ensures forall start: nat ::
      VisitedLeafAt(Leaf(length), offset, pcs, start) <==> start == offset && Visited(pcs, offset, length)
  {
    assert LeafAt(Leaf(length), offset, offset, length);
  }

  lemma PrefixIsPending(stack: seq<nat>, n: nat, pcs: set<nat>, offset: nat, next: nat)
    requires Pending(stack, pcs, offset) && n <= |stack| && offset <= next
    requires n > 0 ==> stack[n - 1] >= next
    requires forall k | n <= k < |stack| :: stack[k] < next
    ensures Pending(stack[..n], pcs, next)
  {
    forall pc ensures pc in stack[..n] <==> pc in pcs && pc >= next {
      if pc in pcs && pc >= next {
        assert pc in stack;
        var k :| 0 <= k < |stack| && stack[k] == pc;
        assert stack[..n][k] == pc;
      }
      if pc in stack[..n] {
        assert pc in stack;
      }
    }
  }

  /** Two ascending lists of the same elements are the same list. */
  lemma {:induction false} AscendingIsUnique(a: seq<nat>, b: seq<nat>)
    requires Ascending(a) && Ascending(b) && forall x :: x in a <==> x in b
    ensures a == b
    decreases |a|
  {
    if b != [] { assert b[0] in a; }
    if a != [] {
      assert a[0] in b;
      assert b[0] in a;
      assert a[0] == b[0];
      var m, n := a[1..], b[1..];
      forall x ensures x in m <==> x in n {
        if x in m { assert x in a && x != a[0]; assert x in n; }
        if x in n { assert x in b && x != b[0]; assert x in m; }
      }
      AscendingIsUnique(m, n);
      assert a == [a[0]] + m && b == [b[0]] + n;
    }
  }

  /** Largest first. */
  method SortedDescending(pcs: set<nat>) returns (stack: seq<nat>)
    ensures Pending(stack, pcs, 0)
  {
    stack := [];
    var rest := pcs;
    while rest != {}
      invariant rest <= pcs
      invariant forall i, j | 0 <= i < j < |stack| :: stack[i] > stack[j]
      invariant forall pc :: pc in stack <==> pc in pcs && pc !in rest
      invariant forall k, y | 0 <= k < |stack| && y in rest :: stack[k] > y
      decreases |rest|
    {
      var max := Largest(rest);
      stack, rest := stack + [max], rest - {max};
    }
  }

  method Largest(s: set<nat>) returns (max: nat)
    requires s != {}
    ensures max in s && forall x | x in s :: x <= max
  {
    max :| max in s;
    var rest := s - {max};
    while rest != {}
      invariant rest <= s && max in s && max !in rest
      invariant forall x | x in s && x !in rest :: x <= max
      decreases |rest|
    {
      var x :| x in rest;
      rest := rest - {x};
      if x > max {
        max := x;
      }
    }
  }

  /** `ContractClassV1::get_visited_segments` on any set of program counters: it succeeds exactly when every
      visited inner segment had its start visited, and then returns the starts of the visited leaves in order. */
  method GetVisitedSegments(t: NestedIntList, pcs: set<nat>) returns (r: Result)
    ensures r.Ok? <==> WellStructured(t, 0, pcs)
    ensures r.Ok? ==> AreVisitedLeaves(t, 0, pcs, r.starts)
    ensures r.InvalidSegmentStructure? ==> IsViolation(t, 0, pcs, r.pc, r.segmentStart)
  {
    var stack := SortedDescending(pcs);
    var rest, next;
    r, rest, next := VisitTree(t, stack, 0, pcs);
    if r.InvalidSegmentStructure? {
      ViolationIsIllStructured(t, 0, pcs, r.pc, r.segmentStart);
    }
  }

  /** The promised list is determined: only one list is the visited leaves in order. */
  lemma VisitedLeavesAreUnique(t: NestedIntList, offset: nat, pcs: set<nat>, a: seq<nat>, b: seq<nat>)
    requires AreVisitedLeaves(t, offset, pcs, a) && AreVisitedLeaves(t, offset, pcs, b)
    ensures a == b
  {
    AscendingIsUnique(a, b);
  }
}

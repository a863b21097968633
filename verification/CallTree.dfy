/** The call tree of an execution, its explicit-stack iterator and its summary. */
module CallTree {
  import opened Cells

  datatype CallInfo = CallInfo(
    classHash: Option<Felt>,
    storageAddress: Address,
    accessedStorageKeys: set<Felt>,
    events: seq<Felt>,
    messages: seq<seq<Felt>>,
    innerCalls: seq<CallInfo>)

  // ----------------------------------------------------------------------------------------------
  // Pre-order

  /** A call, then the calls it made, in order. */
  function Preorder(call: CallInfo): seq<CallInfo> { [call] + PreorderAll(call.innerCalls) }

  function PreorderAll(calls: seq<CallInfo>): seq<CallInfo> {
    if calls == [] then [] else Preorder(calls[0]) + PreorderAll(calls[1..])
  }

  function Size(call: CallInfo): nat { 1 + SizeAll(call.innerCalls) }

  function SizeAll(calls: seq<CallInfo>): nat {
    if calls == [] then 0 else Size(calls[0]) + SizeAll(calls[1..])
  }

  /** Each call of the tree is listed once. */
  lemma {:induction false} PreorderSize(call: CallInfo)
    ensures |Preorder(call)| == Size(call)
    decreases call, 1
  {
    PreorderAllSize(call.innerCalls);
  }

  lemma {:induction false} PreorderAllSize(calls: seq<CallInfo>)
    ensures |PreorderAll(calls)| == SizeAll(calls)
    decreases calls, 0
  {
    if calls != [] {
      PreorderSize(calls[0]);
      PreorderAllSize(calls[1..]);
    }
  }

  /** What a stack of calls still yields: the topmost tree first. */
  ghost function Pending(stack: seq<CallInfo>): seq<CallInfo> {
    if stack == [] then [] else Preorder(stack[|stack| - 1]) + Pending(stack[..|stack| - 1])
  }

  function Reversed(calls: seq<CallInfo>): seq<CallInfo> {
    if calls == [] then [] else Reversed(calls[1..]) + [calls[0]]
  }

  lemma Associates<T>(a: seq<T>, b: seq<T>, c: seq<T>)
    ensures a + (b + c) == a + b + c
  {
  }

  lemma TopComesFirst(stack: seq<CallInfo>, call: CallInfo)
    ensures Pending(stack + [call]) == Preorder(call) + Pending(stack)
  {
    assert (stack + [call])[..|stack|] == stack;
  }

  /** Pushing calls right to left yields them left to right. */
  lemma {:induction false} PushedCallsComeInOrder(stack: seq<CallInfo>, calls: seq<CallInfo>)
    ensures Pending(stack + Reversed(calls)) == PreorderAll(calls) + Pending(stack)
  {
    if calls == [] {
      assert stack + Reversed(calls) == stack;
    } else {
      PushedCallsComeInOrder(stack, calls[1..]);
      TopComesFirst(stack + Reversed(calls[1..]), calls[0]);
      Associates(stack, Reversed(calls[1..]), [calls[0]]);
      Associates(Preorder(calls[0]), PreorderAll(calls[1..]), Pending(stack));
    }
  }

  class CallInfoIter {
    var callInfos: seq<CallInfo>

    /** The calls not yet yielded. */
    ghost function Remaining(): seq<CallInfo>
      reads this
    {
      Pending(callInfos)
    }

    constructor (call: CallInfo)
      ensures Remaining() == Preorder(call)
    {
      callInfos := [call];
      new;
      assert Pending([call]) == Preorder(call) by {
        assert [call][..0] == [];
        assert Preorder(call) + [] == Preorder(call);
      }
    }

    method Next() returns (r: Option<CallInfo>)
      modifies this
      ensures r.None? <==> old(Remaining()) == []
      ensures r.None? ==> Remaining() == []
      ensures r.Some? ==> old(Remaining()) == [r.value] + Remaining()
    {
      if callInfos == [] {
        return None;
      }
      var callInfo := callInfos[|callInfos| - 1];
      var below := callInfos[..|callInfos| - 1];
      callInfos := below + Reversed(callInfo.innerCalls);
      PushedCallsComeInOrder(below, callInfo.innerCalls);
      assert old(Remaining()) == [callInfo] + PreorderAll(callInfo.innerCalls) + Pending(below);
      r := Some(callInfo);
    }
  }

  // ----------------------------------------------------------------------------------------------
  // Summary

  datatype ExecutionSummary = ExecutionSummary(
    executedClassHashes: set<Felt>,
    visitedStorageEntries: set<(Address, Felt)>,
    payloadLengths: seq<nat>,
    nEvents: nat)

  const NO_EXECUTION := ExecutionSummary({}, {}, [], 0)

  function Add(a: ExecutionSummary, b: ExecutionSummary): ExecutionSummary {
    ExecutionSummary(
      a.executedClassHashes + b.executedClassHashes,
      a.visitedStorageEntries + b.visitedStorageEntries,
      a.payloadLengths + b.payloadLengths,
      a.nEvents + b.nEvents)
  }

  lemma AddIsAssociative(a: ExecutionSummary, b: ExecutionSummary, c: ExecutionSummary)
    ensures Add(Add(a, b), c) == Add(a, Add(b, c))
  {
    var x, y, z := a.payloadLengths, b.payloadLengths, c.payloadLengths;
    assert x + y + z == x + (y + z);
  }

  function Lengths(messages: seq<seq<Felt>>): seq<nat> {
    seq(|messages|, i requires 0 <= i < |messages| => |messages[i]|)
  }

  /** The contribution of a single call. */
  function Own(call: CallInfo): ExecutionSummary {
    ExecutionSummary(
      if call.classHash.Some? then {call.classHash.value} else {},
      set key | key in call.accessedStorageKeys :: (call.storageAddress, key),
      Lengths(call.messages),
      |call.events|)
  }

  /** The summary of a tree: its root's contribution, then those of the trees below it. */
  function Summary(call: CallInfo): ExecutionSummary { Add(Own(call), SummaryAll(call.innerCalls)) }

  function SummaryAll(calls: seq<CallInfo>): ExecutionSummary {
    if calls == [] then NO_EXECUTION else Add(Summary(calls[0]), SummaryAll(calls[1..]))
  }

  /** The contributions of a list of calls, added one after the other. */
  ghost function Folded(calls: seq<CallInfo>): ExecutionSummary {
    if calls == [] then NO_EXECUTION else Add(Folded(calls[..|calls| - 1]), Own(calls[|calls| - 1]))
  }

  lemma FoldedSnoc(calls: seq<CallInfo>, call: CallInfo)
    ensures Folded(calls + [call]) == Add(Folded(calls), Own(call))
  {
    assert (calls + [call])[..|calls|] == calls;
  }

  lemma {:induction false} FoldedAppends(a: seq<CallInfo>, b: seq<CallInfo>)
    ensures Folded(a + b) == Add(Folded(a), Folded(b))
  {
    if b == [] {
      assert a + b == a;
    } else {
      var m := |b| - 1;
      assert (a + b)[..|a| + m] == a + b[..m];
      FoldedAppends(a, b[..m]);
      AddIsAssociative(Folded(a), Folded(b[..m]), Own(b[m]));
    }
  }

  /** Adding up the calls in pre-order gives the recursive summary. */
  lemma {:induction false} FoldedPreorder(call: CallInfo)
    ensures Folded(Preorder(call)) == Summary(call)
    decreases call, 1
  {
    FoldedAppends([call], PreorderAll(call.innerCalls));
    FoldedPreorderAll(call.innerCalls);
    assert [call][..0] == [];
    assert Folded([call]) == Add(Folded([]), Own(call)) == Own(call);
  }

  lemma {:induction false} FoldedPreorderAll(calls: seq<CallInfo>)
    ensures Folded(PreorderAll(calls)) == SummaryAll(calls)
    decreases calls, 0
  {
    if calls != [] {
      FoldedAppends(Preorder(calls[0]), PreorderAll(calls[1..]));
      FoldedPreorder(calls[0]);
      FoldedPreorderAll(calls[1..]);
    }
  }

  /** Of the list `all`, `seen` has been yielded, then `next` if there is one, and `ahead` is still to come. */
  ghost predicate IsSplit<T>(all: seq<T>, seen: seq<T>, next: Option<T>, ahead: seq<T>) {
    if next.Some? then all == seen + [next.value] + ahead else all == seen
  }

  lemma FirstSplit<T>(all: seq<T>, next: Option<T>, ahead: seq<T>)
    requires if next.Some? then all == [next.value] + ahead else all == []
    ensures IsSplit(all, [], next, ahead)
  {
    if next.Some? { assert [] + [next.value] + ahead == all; }
  }

  lemma NextSplit<T>(all: seq<T>, seen: seq<T>, current: T, ahead: seq<T>, next: Option<T>, ahead': seq<T>)
    requires IsSplit(all, seen, Some(current), ahead)
    requires if next.Some? then ahead == [next.value] + ahead' else ahead == []
    ensures IsSplit(all, seen + [current], next, ahead') && current in all
  {
    assert all[|seen|] == current;
    if next.Some? { assert seen + [current] + ([next.value] + ahead') == seen + [current] + [next.value] + ahead'; }
  }

  /** `summarize`: fails exactly when some call of the tree has no class hash, else gives the recursive summary. */
  method Summarize(call: CallInfo) returns (r: Option<ExecutionSummary>)
    ensures r.None? <==> exists c | c in Preorder(call) :: c.classHash.None?
    ensures r.Some? ==> r.value == Summary(call)
  {
    var executedClassHashes: set<Felt> := {};
    var visitedStorageEntries: set<(Address, Felt)> := {};
    var nEvents: nat := 0;
    var payloadLengths: seq<nat> := [];
    var iter := new CallInfoIter(call);
    ghost var all, seen: seq<CallInfo> := Preorder(call), [];
    var next := iter.Next();
    ghost var ahead := iter.Remaining();
    FirstSplit(all, next, ahead);
    while next.Some?
      invariant IsSplit(all, seen, next, ahead) && ahead == iter.Remaining()
      invariant forall c | c in seen :: c.classHash.Some?
      invariant ExecutionSummary(executedClassHashes, visitedStorageEntries, payloadLengths, nEvents) == Folded(seen)
      decreases if next.Some? then 1 + |ahead| else 0
    {
      var callInfo := next.value;
      assert callInfo in all by { assert all[|seen|] == callInfo; }
      if callInfo.classHash.None? {
        return None;
      }
      FoldedSnoc(seen, callInfo);
      executedClassHashes := executedClassHashes + {callInfo.classHash.value};
      visitedStorageEntries := visitedStorageEntries +
        set key | key in callInfo.accessedStorageKeys :: (callInfo.storageAddress, key);
      nEvents := nEvents + |callInfo.events|;
      payloadLengths := payloadLengths + Lengths(callInfo.messages);
      next := iter.Next();
      NextSplit(all, seen, callInfo, ahead, next, iter.Remaining());
      seen, ahead := seen + [callInfo], iter.Remaining();
    }
    FoldedPreorder(call);
    r := Some(ExecutionSummary(executedClassHashes, visitedStorageEntries, payloadLengths, nEvents));
  }

  /** What a summary says: exactly the classes and entries of the calls in the tree. */
  lemma {:induction false} FoldedMembers(calls: seq<CallInfo>)
    ensures forall h :: h in Folded(calls).executedClassHashes <==> exists c | c in calls :: c.classHash == Some(h)
    ensures forall e :: e in Folded(calls).visitedStorageEntries <==>
      exists c | c in calls :: c.storageAddress == e.0 && e.1 in c.accessedStorageKeys
  {
    if calls != [] {
      var m := |calls| - 1;
      FoldedMembers(calls[..m]);
      assert calls == calls[..m] + [calls[m]];
      assert forall c :: c in calls <==> c in calls[..m] || c == calls[m];
    }
  }

  lemma SummaryMembers(call: CallInfo)
    ensures forall h :: h in Summary(call).executedClassHashes <==>
      exists c | c in Preorder(call) :: c.classHash == Some(h)
    ensures forall e :: e in Summary(call).visitedStorageEntries <==>
      exists c | c in Preorder(call) :: c.storageAddress == e.0 && e.1 in c.accessedStorageKeys
  {
    FoldedPreorder(call);
    FoldedMembers(Preorder(call));
  }

  /** The messages of the calls, in order. */
  function AllMessages(calls: seq<CallInfo>): seq<seq<Felt>> {
    if calls == [] then [] else AllMessages(calls[..|calls| - 1]) + calls[|calls| - 1].messages
  }

  function AllEvents(calls: seq<CallInfo>): seq<Felt> {
    if calls == [] then [] else AllEvents(calls[..|calls| - 1]) + calls[|calls| - 1].events
  }

  lemma {:induction false} FoldedCounts(calls: seq<CallInfo>)
    ensures |Folded(calls).payloadLengths| == |AllMessages(calls)|
    ensures forall i | 0 <= i < |AllMessages(calls)| :: Folded(calls).payloadLengths[i] == |AllMessages(calls)[i]|
    ensures Folded(calls).nEvents == |AllEvents(calls)|
  {
    if calls != [] { FoldedCounts(calls[..|calls| - 1]); }
  }

  /** What it counts: one payload length per message of the tree, in pre-order, and every event once. */
  lemma SummaryCounts(call: CallInfo)
    ensures var messages := AllMessages(Preorder(call));
      && |Summary(call).payloadLengths| == |messages|
      && forall i | 0 <= i < |messages| :: Summary(call).payloadLengths[i] == |messages[i]|
    ensures Summary(call).nEvents == |AllEvents(Preorder(call))|
  {
    FoldedPreorder(call);
    FoldedCounts(Preorder(call));
  }

  /** `get_l2_to_l1_payload_lengths` lists what the summary lists. */
  method GetPayloadLengths(call: CallInfo) returns (lengths: seq<nat>)
    ensures lengths == Summary(call).payloadLengths
  {
    lengths := [];
    var iter := new CallInfoIter(call);
    ghost var all, seen: seq<CallInfo> := Preorder(call), [];
    var next := iter.Next();
    ghost var ahead := iter.Remaining();
    FirstSplit(all, next, ahead);
    while next.Some?
      invariant IsSplit(all, seen, next, ahead) && ahead == iter.Remaining()
      invariant lengths == Folded(seen).payloadLengths
      decreases if next.Some? then 1 + |ahead| else 0
    {
      var callInfo := next.value;
      FoldedSnoc(seen, callInfo);
      lengths := lengths + Lengths(callInfo.messages);
      next := iter.Next();
      NextSplit(all, seen, callInfo, ahead, next, iter.Remaining());
      seen, ahead := seen + [callInfo], iter.Remaining();
    }
    FoldedPreorder(call);
  }

  /** Summing the summaries of several trees, as `Sum` does, is summarizing their calls in order. */
  ghost function Summed(summaries: seq<ExecutionSummary>): ExecutionSummary {
    if summaries == [] then NO_EXECUTION else Add(Summed(summaries[..|summaries| - 1]), summaries[|summaries| - 1])
  }

  lemma {:induction false} SummedIsSummaryAll(calls: seq<CallInfo>)
    ensures Summed(seq(|calls|, i requires 0 <= i < |calls| => Summary(calls[i]))) == Folded(PreorderAll(calls))
  {
    var summaries := seq(|calls|, i requires 0 <= i < |calls| => Summary(calls[i]));
    if calls != [] {
      var m := |calls| - 1;
      SummedIsSummaryAll(calls[..m]);
      assert summaries[..m] == seq(m, i requires 0 <= i < m => Summary(calls[..m][i]));
      PreorderAllSnoc(calls, m);
      FoldedAppends(PreorderAll(calls[..m]), Preorder(calls[m]));
      FoldedPreorder(calls[m]);
    }
  }

  lemma {:induction false} PreorderAllSnoc(calls: seq<CallInfo>, m: nat)
    requires m == |calls| - 1
    ensures PreorderAll(calls) == PreorderAll(calls[..m]) + Preorder(calls[m])
    decreases m
  {
    if m == 0 {
      assert PreorderAll(calls[1..]) == [];
    } else {
      assert calls[..m][1..] == calls[1..][..m - 1];
      PreorderAllSnoc(calls[1..], m - 1);
    }
  }
}

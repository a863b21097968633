/** What it means for a chunk of transactions to have run one after the other, and exactly when a validated
    multi-version store says so. */
module Serializability {
  import opened Cells
  import opened VersionedStorage
  import opened VersionedState

  // ----------------------------------------------------------------------------------------------
  // Transactions

  /** A read and its answer: the state reader may fail. */
  datatype Read = Read(cell: Cell, answer: Option<Felt>)

  /** The reads of one execution that its own cache did not answer, in order. */
  type Trace = seq<Read>

  datatype Action = Ask(cell: Cell) | Halt(succeeded: bool, writes: Values)

  /** A deterministic transaction: from the reads so far to its next read or to its end. */
  type Program = Trace -> Action

  /** The `initial_reads` an execution records: only successful reads are cached. */
  function ReadSet(t: Trace): Values {
    if t == [] then map[]
    else
      var before, last := ReadSet(t[..|t| - 1]), t[|t| - 1];
      if last.answer.Some? then before[last.cell := last.answer.value] else before
  }

  /** What one execution leaves behind: its reads, and its writes (none if it failed). */
  datatype Output = Output(trace: Trace, writes: Values)

  /** The program asks for exactly these cells in this order, for none again after a successful read. */
  predicate IsPath(p: Program, t: Trace) {
    t != [] ==>
      var before, cell := t[..|t| - 1], t[|t| - 1].cell;
      IsPath(p, before) && p(before) == Ask(cell) && cell !in ReadSet(before)
  }

  function Effective(a: Action): Values
    requires a.Halt?
  {
    if a.succeeded then a.writes else map[]
  }

  predicate Produces(p: Program, o: Output) {
    IsPath(p, o.trace) && p(o.trace).Halt? && o.writes == Effective(p(o.trace))
  }

  // ----------------------------------------------------------------------------------------------
  // Sequential execution, without any store

  /** What a cell shows after the writes of the first `j` transactions. */
  function SeqValue(initial: Reader, outs: seq<Output>, j: nat, c: Cell): Option<Felt>
    requires j <= |outs|
  {
    if j == 0 then initial(c)
    else if c in outs[j - 1].writes then Some(outs[j - 1].writes[c])
    else SeqValue(initial, outs, j - 1, c)
  }

  /** Every answer, failures included, is what the state shows. */
  ghost predicate AnswersFrom(t: Trace, state: Reader) {
    forall k | 0 <= k < |t| :: t[k].answer == state(t[k].cell)
  }

  /** Every recorded read is what the state shows. */
  ghost predicate ReadsFrom(readSet: Values, state: Reader) {
    forall c | c in readSet :: Some(readSet[c]) == state(c)
  }

  /** `outs` is what running the programs one after the other gives. */
  ghost predicate IsSequential(progs: seq<Program>, initial: Reader, outs: seq<Output>) {
    && |outs| == |progs|
    && (forall j | 0 <= j < |outs| :: Produces(progs[j], outs[j]))
    && (forall j | 0 <= j < |outs| :: AnswersFrom(outs[j].trace, c => SeqValue(initial, outs, j, c)))
  }

  lemma {:induction false} PrefixIsPath(t: Trace, m: nat, p: Program)
    requires m <= |t| && IsPath(p, t)
    ensures IsPath(p, t[..m])
    ensures forall c | c in ReadSet(t[..m]) :: c in ReadSet(t) && ReadSet(t)[c] == ReadSet(t[..m])[c]
    decreases |t|
  {
    if m == |t| {
      assert t[..m] == t;
    } else {
      assert t[..|t| - 1][..m] == t[..m];
      PrefixIsPath(t[..|t| - 1], m, p);
    }
  }

  /** A successful read is recorded with its value. */
  lemma SuccessIsRecorded(t: Trace, k: nat, p: Program)
    requires k < |t| && IsPath(p, t) && t[k].answer.Some?
    ensures t[k].cell in ReadSet(t) && ReadSet(t)[t[k].cell] == t[k].answer.value
  {
    PrefixIsPath(t, k + 1, p);
    assert t[..k + 1][..k] == t[..k];
  }

  /** What is recorded was read. */
  lemma {:induction false} RecordedWasRead(t: Trace, c: Cell) returns (k: nat)
    requires c in ReadSet(t)
    ensures k < |t| && t[k] == Read(c, Some(ReadSet(t)[c]))
  {
    var m := |t| - 1;
    if t[m].answer.Some? && t[m].cell == c {
      k := m;
    } else {
      k := RecordedWasRead(t[..m], c);
    }
  }

  /** Answers agree with a state exactly when the recorded reads do and every failure is one there. */
  lemma AnswersByKind(t: Trace, p: Program, state: Reader)
    requires IsPath(p, t)
    ensures AnswersFrom(t, state) <==>
      ReadsFrom(ReadSet(t), state) && forall k | 0 <= k < |t| && t[k].answer.None? :: state(t[k].cell).None?
  {
    if AnswersFrom(t, state) {
      forall c | c in ReadSet(t) ensures Some(ReadSet(t)[c]) == state(c) {
        var k := RecordedWasRead(t, c);
      }
    }
    if ReadsFrom(ReadSet(t), state) {
      forall k | 0 <= k < |t| && t[k].answer.Some? ensures t[k].answer == state(t[k].cell) {
        SuccessIsRecorded(t, k, p);
      }
    }
  }

  /** On the same state a program has only one path of each length. */
  lemma {:induction false} PathsAgree(p: Program, t: Trace, t': Trace, state: Reader, m: nat)
    requires IsPath(p, t) && IsPath(p, t') && m <= |t| && m <= |t'|
    requires AnswersFrom(t, state) && AnswersFrom(t', state)
    ensures t[..m] == t'[..m]
  {
    if m > 0 {
      PathsAgree(p, t, t', state, m - 1);
      PrefixIsPath(t, m, p);
      PrefixIsPath(t', m, p);
      assert t[..m][..m - 1] == t[..m - 1] && t'[..m][..m - 1] == t'[..m - 1];
      assert t[m - 1] == t'[m - 1];
      assert t[..m] == t[..m - 1] + [t[m - 1]] && t'[..m] == t'[..m - 1] + [t'[m - 1]];
    }
  }

  lemma OutputsAgree(p: Program, o: Output, o': Output, state: Reader)
    requires Produces(p, o) && Produces(p, o')
    requires AnswersFrom(o.trace, state) && AnswersFrom(o'.trace, state)
    ensures o == o'
  {
    var m := if |o.trace| <= |o'.trace| then |o.trace| else |o'.trace|;
    PathsAgree(p, o.trace, o'.trace, state, m);
    assert o.trace[..|o.trace|] == o.trace && o'.trace[..|o'.trace|] == o'.trace;
    if |o.trace| < |o'.trace| {
      NextIsAsked(p, o'.trace, m);
    } else if |o'.trace| < |o.trace| {
      NextIsAsked(p, o.trace, m);
    }
  }

  lemma NextIsAsked(p: Program, t: Trace, m: nat)
    requires IsPath(p, t) && m < |t|
    ensures p(t[..m]).Ask?
  {
    PrefixIsPath(t, m + 1, p);
    assert t[..m + 1][..m] == t[..m];
  }

  lemma {:induction false} SeqValueDependsOnPrefix(
      initial: Reader, outs: seq<Output>, outs': seq<Output>, j: nat, c: Cell)
    requires j <= |outs| && j <= |outs'| && outs[..j] == outs'[..j]
    ensures SeqValue(initial, outs, j, c) == SeqValue(initial, outs', j, c)
  {
    if j > 0 {
      assert outs[j - 1] == outs[..j][j - 1] == outs'[..j][j - 1] == outs'[j - 1];
      assert outs[..j - 1] == outs[..j][..j - 1] == outs'[..j][..j - 1] == outs'[..j - 1];
      SeqValueDependsOnPrefix(initial, outs, outs', j - 1, c);
    }
  }

  lemma AnswersDependOnPrefix(initial: Reader, outs: seq<Output>, outs': seq<Output>, j: nat, t: Trace)
    requires j <= |outs| && j <= |outs'| && outs[..j] == outs'[..j]
    requires AnswersFrom(t, c => SeqValue(initial, outs, j, c))
    ensures AnswersFrom(t, c => SeqValue(initial, outs', j, c))
  {
    forall k | 0 <= k < |t| ensures t[k].answer == SeqValue(initial, outs', j, t[k].cell) {
      SeqValueDependsOnPrefix(initial, outs, outs', j, t[k].cell);
    }
  }

  lemma SamePrefixGrows<T>(a: seq<T>, b: seq<T>, j: nat)
    requires j < |a| && j < |b| && a[..j] == b[..j] && a[j] == b[j]
    ensures a[..j + 1] == b[..j + 1]
  {
    assert a[..j + 1] == a[..j] + [a[j]] && b[..j + 1] == b[..j] + [b[j]];
  }

  lemma NextIsUnique(progs: seq<Program>, initial: Reader, outs: seq<Output>, outs': seq<Output>, j: nat)
    requires IsSequential(progs, initial, outs) && IsSequential(progs, initial, outs') && j < |progs|
    requires outs[..j] == outs'[..j]
    ensures outs[j] == outs'[j]
  {
    AnswersDependOnPrefix(initial, outs', outs, j, outs'[j].trace);
    OutputsAgree(progs[j], outs[j], outs'[j], c => SeqValue(initial, outs, j, c));
  }

  /** The sequential result is unique: it is determined by the programs and the initial state. */
  lemma {:induction false} SequentialIsUnique(
      progs: seq<Program>, initial: Reader, outs: seq<Output>, outs': seq<Output>, j: nat)
    requires IsSequential(progs, initial, outs) && IsSequential(progs, initial, outs') && j <= |progs|
    ensures outs[..j] == outs'[..j]
  {
    if j > 0 {
      SequentialIsUnique(progs, initial, outs, outs', j - 1);
      NextIsUnique(progs, initial, outs, outs', j - 1);
      SamePrefixGrows(outs, outs', j - 1);
    }
  }

  // ----------------------------------------------------------------------------------------------
  // The store against the sequential execution

  /** What the store holds of cell `c` below index `j`, laid over the initial state. */
  function Below(s: Store, initial: Reader, j: Index, c: Cell): Option<Felt> {
    var r: Option<Felt> := LatestBelow<Felt>(s.CellOf(c), j);
    if r.Some? then r else initial(c)
  }

  lemma BelowIsRead(s: Store, initial: Reader, j: Index, c: Cell)
    requires Faithful(s, initial)
    ensures View(s, initial, j, c) == Below(s, initial, j, c)
  {
  }

  /** The output's writes are in the store at its index. */
  predicate CellsHold(s: Store, j: Index, writes: Values) {
    forall c | c in writes :: j in s.CellOf(c) && s.CellOf(c)[j] == writes[c]
  }

  /** Everything a finished, validated chunk guarantees: each output comes from its program, its writes are
      in the store, and its recorded reads pass validation at its index. */
  ghost predicate Validated(s: Store, initial: Reader, progs: seq<Program>, outs: seq<Output>) {
    && |outs| == |progs|
    && forall j | 0 <= j < |outs| ::
         && Produces(progs[j], outs[j])
         && CellsHold(s, j, outs[j].writes)
         && ReadsFrom(ReadSet(outs[j].trace), c => Below(s, initial, j, c))
  }

  /** Cells at index `j` that its latest execution did not write, left over from an earlier one, repeat what
      is visible below them. */
  ghost predicate NoHarmfulLeftover(s: Store, initial: Reader, out: Output, j: Index) {
    forall c: Cell | j in s.CellOf(c) && c !in out.writes :: Some(s.CellOf(c)[j]) == Below(s, initial, j, c)
  }

  /** A read that failed, which is not recorded, would still fail. */
  ghost predicate NoMissedRead(s: Store, initial: Reader, out: Output, j: Index) {
    forall k | 0 <= k < |out.trace| && out.trace[k].answer.None? :: Below(s, initial, j, out.trace[k].cell).None?
  }

  /** The two things validation does not see. */
  ghost predicate Clean(s: Store, initial: Reader, outs: seq<Output>) {
    forall j | 0 <= j < |outs| :: NoHarmfulLeftover(s, initial, outs[j], j) && NoMissedRead(s, initial, outs[j], j)
  }

  ghost predicate Matches(s: Store, initial: Reader, outs: seq<Output>, j: nat)
    requires j <= |outs|
  {
    forall c :: Below(s, initial, j, c) == SeqValue(initial, outs, j, c)
  }

  lemma {:induction false} HarmlessMeansMatch(s: Store, initial: Reader, progs: seq<Program>, outs: seq<Output>, j: nat)
    requires Validated(s, initial, progs, outs) && j <= |outs|
    requires forall i | 0 <= i < |outs| :: NoHarmfulLeftover(s, initial, outs[i], i)
    ensures Matches(s, initial, outs, j)
  {
    if j > 0 {
      HarmlessMeansMatch(s, initial, progs, outs, j - 1);
      assert NoHarmfulLeftover(s, initial, outs[j - 1], j - 1) && CellsHold(s, j - 1, outs[j - 1].writes);
      forall c ensures Below(s, initial, j, c) == SeqValue(initial, outs, j, c) {
        assert Below(s, initial, j - 1, c) == SeqValue(initial, outs, j - 1, c);
      }
    }
  }

  lemma MatchMeansHarmless(s: Store, initial: Reader, outs: seq<Output>, j: nat)
    requires j < |outs| && Matches(s, initial, outs, j) && Matches(s, initial, outs, j + 1)
    ensures NoHarmfulLeftover(s, initial, outs[j], j)
  {
    forall c: Cell | j in s.CellOf(c) && c !in outs[j].writes ensures Some(s.CellOf(c)[j]) == Below(s, initial, j, c) {
      assert Below(s, initial, j + 1, c) == SeqValue(initial, outs, j + 1, c);
      assert Below(s, initial, j, c) == SeqValue(initial, outs, j, c);
    }
  }

  /** With the store matching below `j`, its validated reads are sequential exactly when no read was missed. */
  lemma NoMissedReadMeansSequential(s: Store, initial: Reader, progs: seq<Program>, outs: seq<Output>, j: nat)
    requires Validated(s, initial, progs, outs) && j < |outs| && Matches(s, initial, outs, j)
    ensures AnswersFrom(outs[j].trace, c => SeqValue(initial, outs, j, c)) <==> NoMissedRead(s, initial, outs[j], j)
  {
    var below, sequential := c => Below(s, initial, j, c), c => SeqValue(initial, outs, j, c);
    AnswersByKind(outs[j].trace, progs[j], below);
    assert ReadsFrom(ReadSet(outs[j].trace), c => Below(s, initial, j, c));
    assert forall c :: below(c) == sequential(c);
  }

  /** Serializability, exactly: a validated store and its outputs are the sequential execution at every index if
      and only if no leftover cell of an earlier execution shows a value other than the one below it, and no
      failed read would now succeed. */
  lemma SerializableIff(s: Store, initial: Reader, progs: seq<Program>, outs: seq<Output>)
    requires Validated(s, initial, progs, outs)
    ensures Clean(s, initial, outs)
      <==> IsSequential(progs, initial, outs) && forall j | 0 <= j <= |outs| :: Matches(s, initial, outs, j)
  {
    if Clean(s, initial, outs) {
      forall j | 0 <= j <= |outs| ensures Matches(s, initial, outs, j) {
        HarmlessMeansMatch(s, initial, progs, outs, j);
      }
    }
    if forall j | 0 <= j <= |outs| :: Matches(s, initial, outs, j) {
      forall j | 0 <= j < |outs|
        ensures Produces(progs[j], outs[j]) && NoHarmfulLeftover(s, initial, outs[j], j)
        ensures AnswersFrom(outs[j].trace, c => SeqValue(initial, outs, j, c)) <==> NoMissedRead(s, initial, outs[j], j)
      {
        assert Matches(s, initial, outs, j) && Matches(s, initial, outs, j + 1);
        MatchMeansHarmless(s, initial, outs, j);
        NoMissedReadMeansSequential(s, initial, progs, outs, j);
      }
    }
  }
}

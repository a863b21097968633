/** Gas costs given by a table in which an entry is a number or a linear combination of other entries. */
module GasCosts {
  import opened Cells

  const TWO_64: nat := 0x1_0000_0000_0000_0000

  /** A JSON value: a number may fail to be an unsigned 64-bit integer. */
  datatype Value =
    | Number(asU64: Option<nat>)
    | Object(entries: seq<(string, Value)>)
    | String
    | Other

  datatype Error =
    | OutOfRange(key: string)
    | KeyNotFound(key: string, inner: string)
    | OutOfRangeFactor(key: string)
    | UnhandledValueType
    | Panic

  datatype Result<T> = Ok(value: T) | Err(error: Error)

  function AsU64(v: Value): Option<nat> { if v.Number? then v.asU64 else None }

  type Table = map<string, Value>

  /** There is no circular dependency between definitions: every entry ranks above those it is made of. */
  ghost predicate Acyclic(table: Table, rank: string -> nat) {
    forall key, i | key in table && table[key].Object? && 0 <= i < |table[key].entries| ::
      rank(table[key].entries[i].0) < rank(key)
  }

  function Wrap(n: nat): nat { n % TWO_64 }

  // ----------------------------------------------------------------------------------------------
  // The value of an entry

  /** What an entry stands for, or why it stands for nothing. */
  ghost function Eval(table: Table, rank: string -> nat, key: string): Result<nat>
    requires Acyclic(table, rank) && key in table
    decreases rank(key), 0
  {
    match table[key]
    case Number(n) => if n.Some? then Ok(n.value) else Err(OutOfRange(key))
    case Object(entries) => EvalSum(table, rank, key, |entries|)
    case String => Err(Panic)
    case Other => Err(UnhandledValueType)
  }

  /** The first `n` terms of a combination. */
  ghost function EvalSum(table: Table, rank: string -> nat, key: string, n: nat): Result<nat>
    requires Acyclic(table, rank) && key in table && table[key].Object? && n <= |table[key].entries|
    decreases rank(key), 0, n
  {
    if n == 0 then Ok(0)
    else
      var before := EvalSum(table, rank, key, n - 1);
      var (inner, factor) := table[key].entries[n - 1];
      if before.Err? then before
      else if inner !in table then Err(KeyNotFound(key, inner))
      else
        var value := Eval(table, rank, inner);
        if value.Err? then value
        else if AsU64(factor).None? then Err(OutOfRangeFactor(key))
        else Ok(Wrap(before.value + value.value * AsU64(factor).value))
  }

  /** A key is needed for another if it is that key or is needed for a term of its combination. */
  ghost predicate NeededFor(table: Table, rank: string -> nat, key: string, needed: string)
    requires Acyclic(table, rank)
    decreases rank(key)
  {
    needed == key ||
    (key in table && table[key].Object? && exists i | 0 <= i < |table[key].entries| ::
       NeededFor(table, rank, table[key].entries[i].0, needed))
  }

  // ----------------------------------------------------------------------------------------------
  // Filling the table of gas costs

  type Costs = map<string, nat>

  /** Every cost is the value of its entry. */
  ghost predicate Right(table: Table, rank: string -> nat, costs: Costs)
    requires Acyclic(table, rank)
  {
    forall key | key in costs :: key in table && Eval(table, rank, key) == Ok(costs[key])
  }

  /** The costs hold the first `n` terms of a combination. */
  ghost predicate HasTerms(entries: seq<(string, Value)>, n: nat, costs: Costs)
    requires n <= |entries|
  {
    forall i | 0 <= i < n :: entries[i].0 in costs
  }

  /** The costs hold everything needed for what they hold. */
  ghost predicate Closed(table: Table, costs: Costs) {
    forall key | key in costs && key in table && table[key].Object? ::
      HasTerms(table[key].entries, |table[key].entries|, costs)
  }

  /** The keys hold everything their combinations are made of. */
  ghost predicate ClosedKeys(table: Table, keys: iset<string>) {
    forall key | key in keys && key in table && table[key].Object? ::
      forall i | 0 <= i < |table[key].entries| :: table[key].entries[i].0 in keys
  }

  /** No cost was changed, and only costs of `keys` were added. */
  ghost predicate Extends(costs: Costs, costs': Costs, keys: iset<string>) {
    && (forall k | k in costs :: k in costs' && costs'[k] == costs[k])
    && (forall k | k in costs' && k !in costs :: k in keys)
  }

  /** `recursive_add_to_gas_costs`: succeeds exactly when the entry has a value, whatever was added before. */
  method RecursiveAdd(table: Table, key: string, costs: Costs, ghost rank: string -> nat, ghost keys: iset<string>)
    returns (r: Result<()>, costs': Costs)
    requires Acyclic(table, rank) && key in table && Right(table, rank, costs) && Closed(table, costs)
    requires key in keys && ClosedKeys(table, keys)
    ensures Right(table, rank, costs') && Closed(table, costs') && Extends(costs, costs', keys)
    ensures Eval(table, rank, key).Ok? ==> r.Ok? && key in costs'
    ensures Eval(table, rank, key).Err? ==> r == Err(Eval(table, rank, key).error)
    ensures table[key] == Number(None) ==> r == Err(OutOfRange(key))
    ensures table[key].String? ==> r == Err(Panic)
    ensures table[key].Other? ==> r == Err(UnhandledValueType)
    decreases rank(key), 1
  {
    costs' := costs;
    if key in costs {
      return Ok(()), costs';
    }
    match table[key]
    case Number(n) =>
      if n.None? {
        return Err(OutOfRange(key)), costs';
      }
      costs' := costs'[key := n.value];
      r := Ok(());
    case Object(entries) =>
      var value;
      r, value, costs' := AddTerms(table, key, costs, rank, keys);
      if r.Ok? {
        costs' := costs'[key := value];
      }
    case String => r := Err(Panic);
    case Other => r := Err(UnhandledValueType);
  }

  /** The loop over the terms of a combination. */
  method AddTerms(table: Table, key: string, costs: Costs, ghost rank: string -> nat, ghost keys: iset<string>)
    returns (r: Result<()>, value: nat, costs': Costs)
    requires Acyclic(table, rank) && key in table && table[key].Object?
    requires Right(table, rank, costs) && Closed(table, costs)
    requires key in keys && ClosedKeys(table, keys)
    ensures Right(table, rank, costs') && Closed(table, costs') && Extends(costs, costs', keys)
    ensures Eval(table, rank, key).Ok? ==>
      && r.Ok? && value == Eval(table, rank, key).value
      && HasTerms(table[key].entries, |table[key].entries|, costs')
    ensures Eval(table, rank, key).Err? ==> r == Err(Eval(table, rank, key).error)
    decreases rank(key), 0
  {
    var entries := table[key].entries;
    value, costs' := 0, costs;
    for i := 0 to |entries|
      invariant Right(table, rank, costs') && Closed(table, costs') && Extends(costs, costs', keys)
      invariant EvalSum(table, rank, key, i) == Ok(value)
      invariant HasTerms(entries, i, costs')
    {
      var inner, factor := entries[i].0, entries[i].1;
      Term(table, rank, key, i, value);
      if inner !in table {
        return Err(KeyNotFound(key, inner)), value, costs';
      }
      r, costs' := RecursiveAdd(table, inner, costs', rank, keys);
      if r.Err? {
        return;
      }
      var f := AsU64(factor);
      if f.None? {
        return Err(OutOfRangeFactor(key)), value, costs';
      }
      MoreTerms(entries, i, costs');
      value := Wrap(value + costs'[inner] * f.value);
    }
    r := Ok(());
  }

  /** The first error of a combination is its result. */
  lemma {:induction false} ErrorStays(table: Table, rank: string -> nat, key: string, n: nat)
    requires Acyclic(table, rank) && key in table && table[key].Object? && n <= |table[key].entries|
    ensures EvalSum(table, rank, key, n).Err? ==> Eval(table, rank, key) == EvalSum(table, rank, key, n)
    decreases |table[key].entries| - n
  {
    if n < |table[key].entries| { ErrorStays(table, rank, key, n + 1); }
  }

  lemma MoreTerms(entries: seq<(string, Value)>, n: nat, costs: Costs)
    requires n < |entries| && HasTerms(entries, n, costs) && entries[n].0 in costs
    ensures HasTerms(entries, n + 1, costs)
  {
  }

  /** What the next term makes of a combination. */
  lemma Term(table: Table, rank: string -> nat, key: string, i: nat, value: nat)
    requires Acyclic(table, rank) && key in table && table[key].Object? && i < |table[key].entries|
    requires EvalSum(table, rank, key, i) == Ok(value)
    ensures var (inner, factor) := table[key].entries[i];
      if inner !in table then Eval(table, rank, key) == Err(KeyNotFound(key, inner))
      else if Eval(table, rank, inner).Err? then Eval(table, rank, key) == Eval(table, rank, inner)
      else if AsU64(factor).None? then Eval(table, rank, key) == Err(OutOfRangeFactor(key))
      else EvalSum(table, rank, key, i + 1) == Ok(Wrap(value + Eval(table, rank, inner).value * AsU64(factor).value))
  {
    ErrorStays(table, rank, key, i + 1);
  }

  // ----------------------------------------------------------------------------------------------
  // The whole table

  /** The keys needed for some key that is not ignored. */
  ghost function Needed(table: Table, rank: string -> nat, ignored: set<string>): iset<string>
    requires Acyclic(table, rank)
  {
    iset k: string | IsNeeded(table, rank, ignored, k)
  }

  ghost predicate IsNeeded(table: Table, rank: string -> nat, ignored: set<string>, key: string)
    requires Acyclic(table, rank)
  {
    exists root | root in table && root !in ignored :: NeededFor(table, rank, root, key)
  }

  lemma {:induction false} TermIsNeeded(table: Table, rank: string -> nat, root: string, key: string, i: nat)
    requires Acyclic(table, rank) && NeededFor(table, rank, root, key)
    requires key in table && table[key].Object? && i < |table[key].entries|
    ensures NeededFor(table, rank, root, table[key].entries[i].0)
    decreases rank(root)
  {
    var term := table[key].entries[i].0;
    if root == key {
      assert NeededFor(table, rank, term, term);
    } else {
      var j :| 0 <= j < |table[root].entries| && NeededFor(table, rank, table[root].entries[j].0, key);
      TermIsNeeded(table, rank, table[root].entries[j].0, key, i);
    }
  }

  lemma NeededIsClosed(table: Table, rank: string -> nat, ignored: set<string>)
    requires Acyclic(table, rank)
    ensures ClosedKeys(table, Needed(table, rank, ignored))
  {
    var needed := Needed(table, rank, ignored);
    forall key, i | key in needed && key in table && table[key].Object? && 0 <= i < |table[key].entries|
      ensures table[key].entries[i].0 in needed
    {
      var root :| root in table && root !in ignored && NeededFor(table, rank, root, key);
      TermIsNeeded(table, rank, root, key, i);
    }
  }

  lemma {:induction false} HeldWithWhatItNeeds(
      table: Table, rank: string -> nat, costs: Costs, root: string, key: string)
    requires Acyclic(table, rank) && Closed(table, costs) && root in costs && NeededFor(table, rank, root, key)
    ensures key in costs
    decreases rank(root)
  {
    if root != key {
      var j :| 0 <= j < |table[root].entries| && NeededFor(table, rank, table[root].entries[j].0, key);
      HeldWithWhatItNeeds(table, rank, costs, table[root].entries[j].0, key);
    }
  }

  /** The gas costs of a table: the values of the keys that are needed, and of no others. */
  ghost predicate AreGasCosts(table: Table, rank: string -> nat, ignored: set<string>, costs: Costs)
    requires Acyclic(table, rank)
  {
    Right(table, rank, costs) && Closed(table, costs) && forall k :: k in costs <==> k in Needed(table, rank, ignored)
  }

  ghost predicate HasValue(table: Table, rank: string -> nat, ignored: set<string>, key: string)
    requires Acyclic(table, rank) && key in table
  {
    key in ignored || Eval(table, rank, key).Ok?
  }

  /** `parse_gas_costs`, in whatever order the table lists its keys: it succeeds exactly when every key that is
      not ignored has a value, and otherwise fails as the first such key in that order does. */
  method ParseGasCosts(table: Table, order: seq<string>, ignored: set<string>, ghost rank: string -> nat)
    returns (r: Result<Costs>)
    requires Acyclic(table, rank) && forall k :: k in order <==> k in table
    ensures r.Ok? <==> forall k | k in table :: HasValue(table, rank, ignored, k)
    ensures r.Ok? ==> AreGasCosts(table, rank, ignored, r.value)
    ensures r.Err? ==> exists i ::
      && 0 <= i < |order|
      && (forall j | 0 <= j < i :: HasValue(table, rank, ignored, order[j]))
      && !HasValue(table, rank, ignored, order[i])
      && r.error == Eval(table, rank, order[i]).error
  {
    var costs: Costs := map[];
    ghost var needed := Needed(table, rank, ignored);
    NeededIsClosed(table, rank, ignored);
    for i := 0 to |order|
      invariant Right(table, rank, costs) && Closed(table, costs) && Extends(map[], costs, needed)
      invariant forall j | 0 <= j < i :: HasValue(table, rank, ignored, order[j])
      invariant forall j | 0 <= j < i && order[j] !in ignored :: order[j] in costs
    {
      var key := order[i];
      if key in ignored {
        continue;
      }
      assert NeededFor(table, rank, key, key);
      var added;
      added, costs := RecursiveAdd(table, key, costs, rank, needed);
      if added.Err? {
        return Err(added.error);
      }
    }
    HoldsTheNeeded(table, rank, ignored, order, costs);
    r := Ok(costs);
  }

  lemma HoldsTheNeeded(table: Table, rank: string -> nat, ignored: set<string>, order: seq<string>, costs: Costs)
    requires Acyclic(table, rank) && (forall k :: k in order <==> k in table) && Closed(table, costs)
    requires Extends(map[], costs, Needed(table, rank, ignored))
    requires forall j | 0 <= j < |order| && order[j] !in ignored :: order[j] in costs
    ensures forall k :: k in costs <==> k in Needed(table, rank, ignored)
  {
    forall k | k in Needed(table, rank, ignored) ensures k in costs {
      var root :| root in table && root !in ignored && NeededFor(table, rank, root, k);
      assert root in order;
      HeldWithWhatItNeeds(table, rank, costs, root, k);
    }
  }

  lemma SameCost(table: Table, rank: string -> nat, ignored: set<string>, a: Costs, b: Costs, key: string)
    requires Acyclic(table, rank) && AreGasCosts(table, rank, ignored, a) && AreGasCosts(table, rank, ignored, b)
    requires key in a
    ensures key in b && a[key] == b[key]
  {
    assert key in Needed(table, rank, ignored);
    assert Eval(table, rank, key) == Ok(a[key]) && Eval(table, rank, key) == Ok(b[key]);
  }

  /** So the costs do not depend on the order of the table. */
  lemma GasCostsAreUnique(table: Table, rank: string -> nat, ignored: set<string>, a: Costs, b: Costs)
    requires Acyclic(table, rank) && AreGasCosts(table, rank, ignored, a) && AreGasCosts(table, rank, ignored, b)
    ensures a == b
  {
    forall k | k in a ensures k in b && a[k] == b[k] { SameCost(table, rank, ignored, a, b, k); }
    forall k | k in b ensures k in a { SameCost(table, rank, ignored, b, a, k); }
  }

  // ----------------------------------------------------------------------------------------------
  // The costs as the solution of a system of equations

  /** The first `n` terms, added up without wrapping. */
  function Total(entries: seq<(string, Value)>, n: nat, costs: Costs): nat
    requires n <= |entries|
    requires forall i | 0 <= i < n :: entries[i].0 in costs && AsU64(entries[i].1).Some?
  {
    if n == 0 then 0
    else Total(entries, n - 1, costs) + costs[entries[n - 1].0] * AsU64(entries[n - 1].1).value
  }

  ghost predicate SolvesAt(table: Table, costs: Costs, key: string)
    requires key in costs
  {
    && key in table
    && match table[key] {
         case Number(n) => n == Some(costs[key])
         case Object(entries) =>
           && (forall i | 0 <= i < |entries| :: entries[i].0 in costs && AsU64(entries[i].1).Some?)
           && costs[key] == Total(entries, |entries|, costs) % TWO_64
         case _ => false
       }
  }

  /** Every cost meets its equation, modulo 2^64. */
  ghost predicate Solves(table: Table, costs: Costs) { forall key | key in costs :: SolvesAt(table, costs, key) }

  lemma WrapAdds(a: nat, b: nat)
    ensures Wrap(Wrap(a) + b) == Wrap(a + b)
  {
    var q := a / TWO_64;
    assert a == q * TWO_64 + Wrap(a);
    WrapShift(Wrap(a) + b, q);
  }

  lemma {:induction false} WrapShift(n: nat, q: nat)
    ensures Wrap(n + q * TWO_64) == Wrap(n)
  {
    if q > 0 { WrapShift(n, q - 1); }
  }

  /** The terms of a combination that has a value are held, and have factors. */
  lemma TermIsHeld(table: Table, rank: string -> nat, costs: Costs, key: string, i: nat)
    requires Acyclic(table, rank) && Right(table, rank, costs) && Closed(table, costs) && key in costs
    requires table[key].Object? && i < |table[key].entries|
    ensures table[key].entries[i].0 in costs && AsU64(table[key].entries[i].1).Some?
  {
    var entries := table[key].entries;
    assert HasTerms(entries, |entries|, costs);
    ErrorStays(table, rank, key, i);
    ErrorStays(table, rank, key, i + 1);
    assert EvalSum(table, rank, key, i + 1).Ok?;
  }

  lemma {:induction false} SumIsTotal(table: Table, rank: string -> nat, costs: Costs, key: string, n: nat)
    requires Acyclic(table, rank) && Right(table, rank, costs) && Closed(table, costs) && key in costs
    requires table[key].Object? && n <= |table[key].entries|
    requires forall i | 0 <= i < n :: table[key].entries[i].0 in costs && AsU64(table[key].entries[i].1).Some?
    ensures EvalSum(table, rank, key, n) == Ok(Wrap(Total(table[key].entries, n, costs)))
  {
    if n > 0 {
      SumIsTotal(table, rank, costs, key, n - 1);
      var entries := table[key].entries;
      var inner, factor, before := entries[n - 1].0, AsU64(entries[n - 1].1).value, Total(entries, n - 1, costs);
      assert Eval(table, rank, inner) == Ok(costs[inner]);
      WrapAdds(before, costs[inner] * factor);
      Term(table, rank, key, n - 1, Wrap(before));
    }
  }

  /** The parsed costs meet their equations ... */
  lemma GasCostsSolve(table: Table, rank: string -> nat, costs: Costs)
    requires Acyclic(table, rank) && Right(table, rank, costs) && Closed(table, costs)
    ensures Solves(table, costs)
  {
    forall key | key in costs ensures SolvesAt(table, costs, key) {
      if table[key].Object? {
        var entries := table[key].entries;
        forall i | 0 <= i < |entries| ensures entries[i].0 in costs && AsU64(entries[i].1).Some? {
          TermIsHeld(table, rank, costs, key, i);
        }
        SumIsTotal(table, rank, costs, key, |entries|);
      }
    }
  }

  /** ... and nothing else does: two solutions agree on every key they share. */
  lemma {:induction false} SolutionIsUnique(table: Table, rank: string -> nat, a: Costs, b: Costs, key: string)
    requires Acyclic(table, rank) && Solves(table, a) && Solves(table, b) && key in a && key in b
    ensures a[key] == b[key]
    decreases rank(key), 1
  {
    assert SolvesAt(table, a, key) && SolvesAt(table, b, key);
    if table[key].Object? { TotalIsUnique(table, rank, a, b, key, |table[key].entries|); }
  }

  lemma {:induction false} TotalIsUnique(table: Table, rank: string -> nat, a: Costs, b: Costs, key: string, n: nat)
    requires Acyclic(table, rank) && Solves(table, a) && Solves(table, b) && key in a && key in b
    requires key in table && table[key].Object? && n <= |table[key].entries|
    requires SolvesAt(table, a, key) && SolvesAt(table, b, key)
    ensures Total(table[key].entries, n, a) == Total(table[key].entries, n, b)
    decreases rank(key), 0, n
  {
    if n > 0 {
      TotalIsUnique(table, rank, a, b, key, n - 1);
      SolutionIsUnique(table, rank, a, b, table[key].entries[n - 1].0);
    }
  }

  /** So a key of any solution has a value, namely its cost there: evaluating fails only where no solution exists. */
  lemma {:induction false} SolutionIsValue(table: Table, rank: string -> nat, costs: Costs, key: string)
    requires Acyclic(table, rank) && Solves(table, costs) && key in costs
    ensures key in table && Eval(table, rank, key) == Ok(costs[key])
    decreases rank(key), 1
  {
    assert SolvesAt(table, costs, key);
    if table[key].Object? { SolutionAddsUp(table, rank, costs, key, |table[key].entries|); }
  }

  lemma {:induction false} SolutionAddsUp(table: Table, rank: string -> nat, costs: Costs, key: string, n: nat)
    requires Acyclic(table, rank) && Solves(table, costs) && key in costs && SolvesAt(table, costs, key)
    requires table[key].Object? && n <= |table[key].entries|
    ensures EvalSum(table, rank, key, n) == Ok(Wrap(Total(table[key].entries, n, costs)))
    decreases rank(key), 0, n
  {
    if n > 0 {
      var entries := table[key].entries;
      SolutionAddsUp(table, rank, costs, key, n - 1);
      SolutionIsValue(table, rank, costs, entries[n - 1].0);
      WrapAdds(Total(entries, n - 1, costs), costs[entries[n - 1].0] * AsU64(entries[n - 1].1).value);
    }
  }
}

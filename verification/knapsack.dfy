/** The 0/1 knapsack problem and its brute-force solver (backend_theoretical/KnapsackMethod.py;
    the checkpoint copy KnapsackEncoding-checkpoint.py holds the same definitions under the
    names KnapsackEncoding, itemvalue, itemweight and feasibility_check). */
module Knapsack {
  import opened Arith

  /** The problem record. `TotalWeight` and `N` are the two attributes the constructor derives. */
  datatype KnapsackProblem = KnapsackProblem(values: seq<real>, weights: seq<int>, maxWeight: int)
  {
    function TotalWeight(): int
    {
      Sum(weights)
    }

    function N(): nat
    {
      |weights|
    }

    /** What the solver's dot products need: at least one item, and one value per weight. */
    predicate WellFormed()
    {
      |weights| >= 1 && |values| == |weights|
    }
  }

  function Sum(s: seq<int>): int
  {
    if s == [] then 0 else s[0] + Sum(s[1..])
  }

  /** numpy's `choice.dot(values)` for an integer choice vector and real values. */
  function Dot(c: seq<int>, v: seq<real>): real
    requires |c| == |v|
  {
    if c == [] then 0.0 else (c[0] as real) * v[0] + Dot(c[1..], v[1..])
  }

  /** numpy's `choice.dot(weights)` for integer vectors. */
  function DotInt(c: seq<int>, w: seq<int>): int
    requires |c| == |w|
  {
    if c == [] then 0 else c[0] * w[0] + DotInt(c[1..], w[1..])
  }

  function Value(choice: seq<int>, p: KnapsackProblem): real
    requires |choice| == |p.values|
  {
    Dot(choice, p.values)
  }

  function Weight(choice: seq<int>, p: KnapsackProblem): int
    requires |choice| == |p.weights|
  {
    DotInt(choice, p.weights)
  }

  predicate IsChoiceFeasible(choice: seq<int>, p: KnapsackProblem)
    requires |choice| == |p.weights|
  {
    Weight(choice, p) <= p.maxWeight
  }

  /** A selection of n items: a 0/1 vector of length n. */
  predicate IsChoice(c: seq<int>, n: nat)
  {
    |c| == n && forall k :: 0 <= k < |c| ==> c[k] == 0 || c[k] == 1
  }

  function Zeros(n: nat): (r: seq<int>)
    ensures |r| == n && forall k :: 0 <= k < n ==> r[k] == 0
  {
    seq(n, _ => 0)
  }

  function Ones(n: nat): (r: seq<int>)
    ensures |r| == n && forall k :: 0 <= k < n ==> r[k] == 1
  {
    seq(n, _ => 1)
  }

  /** `c` with item j toggled: the neighbouring choice the quantum walk moves to. */
  function Toggle(c: seq<int>, j: nat): (r: seq<int>)
    requires j < |c|
    ensures |r| == |c|
  {
    c[j := 1 - c[j]]
  }

  // ---------------------------------------------------------------------------
  // Dot products

  lemma {:induction false} DotIntZeros(w: seq<int>)
    ensures DotInt(Zeros(|w|), w) == 0
  {
    if w != [] {
      assert Zeros(|w|)[1..] == Zeros(|w| - 1);
      DotIntZeros(w[1..]);
    }
  }

  lemma {:induction false} DotZeros(v: seq<real>)
    ensures Dot(Zeros(|v|), v) == 0.0
  {
    if v != [] {
      assert Zeros(|v|)[1..] == Zeros(|v| - 1);
      DotZeros(v[1..]);
    }
  }

  /** Peeling the last item off a dot product (the builders loop over items in order). */
  lemma {:induction false} DotIntLast(c: seq<int>, w: seq<int>)
    requires |c| == |w| >= 1
    ensures DotInt(c, w) == DotInt(c[..|c| - 1], w[..|w| - 1]) + c[|c| - 1] * w[|w| - 1]
  {
    if |c| > 1 {
      DotIntLast(c[1..], w[1..]);
      assert c[..|c| - 1][1..] == c[1..][..|c| - 2];
      assert w[..|w| - 1][1..] == w[1..][..|w| - 2];
    }
  }

  lemma {:induction false} DotLast(c: seq<int>, v: seq<real>)
    requires |c| == |v| >= 1
    ensures Dot(c, v) == Dot(c[..|c| - 1], v[..|v| - 1]) + (c[|c| - 1] as real) * v[|v| - 1]
  {
    if |c| > 1 {
      DotLast(c[1..], v[1..]);
      assert c[..|c| - 1][1..] == c[1..][..|c| - 2];
      assert v[..|v| - 1][1..] == v[1..][..|v| - 2];
    }
  }

  /** The empty selection weighs nothing and is worth nothing, so it is feasible exactly
      when the budget is non-negative. */
  lemma ZeroChoiceFeasibleIff(p: KnapsackProblem)
    requires |p.values| == |p.weights|
    ensures Weight(Zeros(p.N()), p) == 0 && Value(Zeros(p.N()), p) == 0.0
    ensures IsChoiceFeasible(Zeros(p.N()), p) <==> p.maxWeight >= 0
  {
    DotIntZeros(p.weights);
    DotZeros(p.values);
  }

  /** Selecting every item weighs exactly the total weight. */
  lemma {:induction false} FullChoiceWeighsTotal(p: KnapsackProblem)
    ensures Weight(Ones(p.N()), p) == p.TotalWeight()
    decreases |p.weights|
  {
    if p.weights != [] {
      var rest := KnapsackProblem(p.values, p.weights[1..], p.maxWeight);
      assert Ones(p.N())[1..] == Ones(rest.N());
      FullChoiceWeighsTotal(rest);
    }
  }

  /** With non-negative weights, every selection weighs between 0 and the total weight. */
  lemma {:induction false} WeightAtMostTotal(c: seq<int>, p: KnapsackProblem)
    requires IsChoice(c, p.N())
    requires forall k :: 0 <= k < |p.weights| ==> p.weights[k] >= 0
    ensures 0 <= Weight(c, p) <= p.TotalWeight()
  {
    if c != [] {
      var rest := KnapsackProblem(p.values, p.weights[1..], p.maxWeight);
      WeightAtMostTotal(c[1..], rest);
    }
  }

  /** With non-negative values, every selection is worth at least 0. */
  lemma {:induction false} ValueNonNegative(c: seq<int>, p: KnapsackProblem)
    requires IsChoice(c, |p.values|)
    requires forall k :: 0 <= k < |p.values| ==> p.values[k] >= 0.0
    ensures Value(c, p) >= 0.0
  {
    if c != [] {
      var rest := KnapsackProblem(p.values[1..], p.weights, p.maxWeight);
      ValueNonNegative(c[1..], rest);
    }
  }

  /** Toggling item j changes the weight by exactly that item's weight. */
  lemma {:induction false} WeightToggle(c: seq<int>, j: nat, p: KnapsackProblem)
    requires IsChoice(c, p.N()) && j < p.N()
    ensures Weight(Toggle(c, j), p) == Weight(c, p) + (if c[j] == 0 then p.weights[j] else -p.weights[j])
  {
    var rest := KnapsackProblem(p.values, p.weights[1..], p.maxWeight);
    if j == 0 {
      assert Toggle(c, j)[1..] == c[1..];
    } else {
      assert Toggle(c, j)[1..] == Toggle(c[1..], j - 1);
      WeightToggle(c[1..], j - 1, rest);
    }
  }

  // ---------------------------------------------------------------------------
  // Enumeration: choices_from_number and its inverse

  /** `choices_from_number`: the digits of `bin(number)` least significant first, padded
      with zeros up to n (Python's `[0] * k` is empty for k <= 0). */
  function ChoicesFromNumber(n: nat, number: nat): seq<int>
  {
    Bits(number) + Zeros(if n >= |Bits(number)| then n - |Bits(number)| else 0)
  }

  /** The enumeration number of a selection: item k contributes 2^k. */
  function NumberOf(c: seq<int>): int
  {
    if c == [] then 0 else c[0] + 2 * NumberOf(c[1..])
  }

  /** For 0 <= i < 2^n (n >= 1), `choices_from_number(i)` has length n and its entry k
      is bit k of i. */
  lemma ChoicesFromNumberBits(n: nat, i: nat)
    requires n >= 1 && i < Pow2(n)
    ensures IsChoice(ChoicesFromNumber(n, i), n)
    ensures forall k :: 0 <= k < n ==> ChoicesFromNumber(n, i)[k] == (i / Pow2(k)) % 2
  {
    var b := Bits(i);
    BitsAt(i, 0);
    BitLengthBelow(i, n);
    assert |b| <= n;
    var r := ChoicesFromNumber(n, i);
    forall k | 0 <= k < n ensures r[k] == (i / Pow2(k)) % 2 {
      BitsAt(i, k);
      if k >= |b| {
        if i > 0 {
          BitLengthBounds(i);
        }
        HighBitsClear(i, k, |b|);
      }
    }
  }

  lemma {:induction false} NumberOfZeros(z: nat)
    ensures NumberOf(Zeros(z)) == 0
  {
    if z > 0 {
      assert Zeros(z)[1..] == Zeros(z - 1);
      NumberOfZeros(z - 1);
    }
  }

  lemma {:induction false} NumberOfBitsPadded(i: nat, z: nat)
    ensures NumberOf(Bits(i) + Zeros(z)) == i
  {
    if i < 2 {
      assert (Bits(i) + Zeros(z))[1..] == Zeros(z);
      NumberOfZeros(z);
    } else {
      assert (Bits(i) + Zeros(z))[1..] == Bits(i / 2) + Zeros(z);
      NumberOfBitsPadded(i / 2, z);
    }
  }

  lemma {:induction false} NumberOfBits(c: seq<int>, n: nat)
    requires IsChoice(c, n)
    ensures 0 <= NumberOf(c) < Pow2(n)
    ensures forall k :: 0 <= k < n ==> c[k] == (NumberOf(c) / Pow2(k)) % 2
  {
    if n > 0 {
      var rest := NumberOf(c[1..]);
      NumberOfBits(c[1..], n - 1);
      forall k | 0 <= k < n ensures c[k] == (NumberOf(c) / Pow2(k)) % 2 {
        if k > 0 {
          DivDiv(NumberOf(c), k - 1);
          assert NumberOf(c) / 2 == rest;
        }
      }
    }
  }

  /** `choices_from_number` is a bijection from [0, 2^n) onto the 0/1 vectors of length n,
      with `NumberOf` as its inverse. */
  lemma ChoiceNumberBijection(n: nat, i: nat, c: seq<int>)
    requires n >= 1
    ensures i < Pow2(n) ==> NumberOf(ChoicesFromNumber(n, i)) == i
    ensures IsChoice(c, n) ==> 0 <= NumberOf(c) < Pow2(n) && ChoicesFromNumber(n, NumberOf(c)) == c
  {
    NumberOfBitsPadded(i, if n >= |Bits(i)| then n - |Bits(i)| else 0);
    if IsChoice(c, n) {
      NumberOfBits(c, n);
      var j := NumberOf(c);
      ChoicesFromNumberBits(n, j);
    }
  }

  // ---------------------------------------------------------------------------
  // The brute-force solver

  /** Choice number i of the enumeration. */
  function Enumerated(p: KnapsackProblem, i: nat): seq<int>
  {
    ChoicesFromNumber(p.N(), i)
  }

  lemma EnumeratedIsChoice(p: KnapsackProblem, i: nat)
    requires p.WellFormed() && i < Pow2(p.N())
    ensures IsChoice(Enumerated(p, i), p.N())
  {
    ChoicesFromNumberBits(p.N(), i);
  }

  /** Whether enumerated choice i is feasible and worth exactly v. */
  predicate FeasibleWorth(p: KnapsackProblem, i: nat, v: real)
    requires p.WellFormed() && i < Pow2(p.N())
  {
    EnumeratedIsChoice(p, i);
    var c := Enumerated(p, i);
    IsChoiceFeasible(c, p) && Value(c, p) == v
  }

  /** The larger of 0 and the best value of a feasible choice among the first k enumerated. */
  function BestUpTo(p: KnapsackProblem, k: nat): real
    requires p.WellFormed() && k <= Pow2(p.N())
  {
    if k == 0 then 0.0
    else
      var b := BestUpTo(p, k - 1);
      EnumeratedIsChoice(p, k - 1);
      var c := Enumerated(p, k - 1);
      if IsChoiceFeasible(c, p) && Value(c, p) > b then Value(c, p) else b
  }

  /** The feasible choices worth exactly v among the first k enumerated, in enumeration order. */
  function FeasibleWithValue(p: KnapsackProblem, k: nat, v: real): seq<seq<int>>
    requires p.WellFormed() && k <= Pow2(p.N())
  {
    if k == 0 then []
    else FeasibleWithValue(p, k - 1, v) + (if FeasibleWorth(p, k - 1, v) then [Enumerated(p, k - 1)] else [])
  }

  /** The value `classical_solutions` settles on once all 2^N choices are seen. */
  function BestValue(p: KnapsackProblem): real
    requires p.WellFormed()
  {
    BestUpTo(p, Pow2(p.N()))
  }

  /** The list `classical_solutions` returns. */
  function OptimalChoices(p: KnapsackProblem): seq<seq<int>>
    requires p.WellFormed()
  {
    FeasibleWithValue(p, Pow2(p.N()), BestValue(p))
  }

  /** `classical_solutions`: enumerate all 2^N choices, keeping every feasible one whose
      value reaches the best seen so far (which starts at 0). */
  method ClassicalSolutions(p: KnapsackProblem) returns (solutions: seq<seq<int>>)
    requires p.WellFormed()
    ensures solutions == OptimalChoices(p)
  {
    var best: real := 0.0;
    solutions := [];
    for i := 0 to Pow2(p.N())
      invariant best == BestUpTo(p, i)
      invariant solutions == FeasibleWithValue(p, i, best)
    {
      EnumeratedIsChoice(p, i);
      var choice := ChoicesFromNumber(p.N(), i);
      var value := Dot(choice, p.values);
      var weight := DotInt(choice, p.weights);
      var isLegal := weight <= p.maxWeight;
      if isLegal && value > best {
        AboveBestIsEmpty(p, i, value);
        best := value;
        solutions := [choice];
      } else if isLegal && value == best {
        solutions := solutions + [choice];
      }
    }
  }

  lemma {:induction false} BestUpToBounds(p: KnapsackProblem, k: nat)
    requires p.WellFormed() && k <= Pow2(p.N())
    ensures BestUpTo(p, k) >= 0.0
    ensures forall j :: 0 <= j < k ==> (EnumeratedIsChoice(p, j);
      IsChoiceFeasible(Enumerated(p, j), p) ==> Value(Enumerated(p, j), p) <= BestUpTo(p, k))
  {
    if k > 0 {
      BestUpToBounds(p, k - 1);
      forall j | 0 <= j < k
        ensures (EnumeratedIsChoice(p, j);
          IsChoiceFeasible(Enumerated(p, j), p) ==> Value(Enumerated(p, j), p) <= BestUpTo(p, k))
      {
        EnumeratedIsChoice(p, j);
      }
    }
  }

  lemma {:induction false} BestUpToAttained(p: KnapsackProblem, k: nat)
    requires p.WellFormed() && k <= Pow2(p.N())
    ensures BestUpTo(p, k) == 0.0 || exists j :: 0 <= j < k && FeasibleWorth(p, j, BestUpTo(p, k))
  {
    if k > 0 {
      BestUpToAttained(p, k - 1);
      EnumeratedIsChoice(p, k - 1);
      if BestUpTo(p, k) != BestUpTo(p, k - 1) {
        assert FeasibleWorth(p, k - 1, BestUpTo(p, k));
      } else if BestUpTo(p, k) != 0.0 {
        var j :| 0 <= j < k - 1 && FeasibleWorth(p, j, BestUpTo(p, k - 1));
        assert FeasibleWorth(p, j, BestUpTo(p, k));
      }
    }
  }

  lemma {:induction false} AboveBestIsEmpty(p: KnapsackProblem, k: nat, v: real)
    requires p.WellFormed() && k <= Pow2(p.N())
    requires v > BestUpTo(p, k)
    ensures FeasibleWithValue(p, k, v) == []
  {
    if k > 0 {
      EnumeratedIsChoice(p, k - 1);
      AboveBestIsEmpty(p, k - 1, v);
    }
  }

  lemma {:induction false} FeasibleWithValueMembers(p: KnapsackProblem, k: nat, v: real, x: seq<int>)
    requires p.WellFormed() && k <= Pow2(p.N())
    ensures x in FeasibleWithValue(p, k, v) <==>
      exists j :: 0 <= j < k && x == Enumerated(p, j) && FeasibleWorth(p, j, v)
  {
    if k > 0 {
      FeasibleWithValueMembers(p, k - 1, v, x);
    }
  }

  lemma {:induction false} FeasibleWithValueOrdered(p: KnapsackProblem, k: nat, v: real)
    requires p.WellFormed() && k <= Pow2(p.N())
    ensures forall a :: 0 <= a < |FeasibleWithValue(p, k, v)| ==>
      0 <= NumberOf(FeasibleWithValue(p, k, v)[a]) < k
    ensures forall a, b :: 0 <= a < b < |FeasibleWithValue(p, k, v)| ==>
      NumberOf(FeasibleWithValue(p, k, v)[a]) < NumberOf(FeasibleWithValue(p, k, v)[b])
  {
    if k > 0 {
      FeasibleWithValueOrdered(p, k - 1, v);
      ChoiceNumberBijection(p.N(), k - 1, []);
    }
  }

  /** Every returned solution is a feasible 0/1 choice, and all of them have the same
      value: the best value, which is never negative. */
  lemma OptimalChoicesFeasible(p: KnapsackProblem)
    requires p.WellFormed()
    ensures BestValue(p) >= 0.0
    ensures forall s :: s in OptimalChoices(p) ==>
      IsChoice(s, p.N()) && IsChoiceFeasible(s, p) && Value(s, p) == BestValue(p)
  {
    BestUpToBounds(p, Pow2(p.N()));
    forall s | s in OptimalChoices(p)
      ensures IsChoice(s, p.N()) && IsChoiceFeasible(s, p) && Value(s, p) == BestValue(p)
    {
      FeasibleWithValueMembers(p, Pow2(p.N()), BestValue(p), s);
      var j :| 0 <= j < Pow2(p.N()) && s == Enumerated(p, j) && FeasibleWorth(p, j, BestValue(p));
      EnumeratedIsChoice(p, j);
    }
  }

  /** No feasible choice is worth more than the best value, so none beats a returned solution. */
  lemma OptimalChoicesMaximal(p: KnapsackProblem, c: seq<int>)
    requires p.WellFormed()
    requires IsChoice(c, p.N()) && IsChoiceFeasible(c, p)
    ensures Value(c, p) <= BestValue(p)
    ensures forall s :: s in OptimalChoices(p) ==> |s| == |p.values| && Value(c, p) <= Value(s, p)
  {
    ChoiceNumberBijection(p.N(), 0, c);
    BestUpToBounds(p, Pow2(p.N()));
    var j := NumberOf(c);
    assert Enumerated(p, j) == c;
    OptimalChoicesFeasible(p);
  }

  /** Ties are kept: every feasible choice worth the best value is returned. */
  lemma OptimalChoicesKeepTies(p: KnapsackProblem, c: seq<int>)
    requires p.WellFormed()
    requires IsChoice(c, p.N()) && IsChoiceFeasible(c, p) && Value(c, p) == BestValue(p)
    ensures c in OptimalChoices(p)
  {
    ChoiceNumberBijection(p.N(), 0, c);
    var j := NumberOf(c);
    assert Enumerated(p, j) == c;
    EnumeratedIsChoice(p, j);
    assert FeasibleWorth(p, j, BestValue(p));
    FeasibleWithValueMembers(p, Pow2(p.N()), BestValue(p), c);
  }

  /** The solutions appear in increasing order of their enumeration number. */
  lemma OptimalChoicesInEnumerationOrder(p: KnapsackProblem)
    requires p.WellFormed()
    ensures forall a, b :: 0 <= a < b < |OptimalChoices(p)| ==>
      NumberOf(OptimalChoices(p)[a]) < NumberOf(OptimalChoices(p)[b])
  {
    FeasibleWithValueOrdered(p, Pow2(p.N()), BestValue(p));
  }

  /** The result is non-empty exactly when some feasible choice is worth at least 0, the value
      the search starts from. A non-negative budget makes the empty selection such a choice;
      when no choice at all is feasible the result is empty. */
  lemma OptimalChoicesNonEmptyIff(p: KnapsackProblem)
    requires p.WellFormed()
    ensures |OptimalChoices(p)| >= 1 <==> exists c :: IsChoice(c, p.N()) && IsChoiceFeasible(c, p) && Value(c, p) >= 0.0
    ensures p.maxWeight >= 0 ==> |OptimalChoices(p)| >= 1
    ensures (forall c :: IsChoice(c, p.N()) ==> !IsChoiceFeasible(c, p)) ==> OptimalChoices(p) == []
  {
    OptimalChoicesFeasible(p);
    if p.maxWeight >= 0 {
      ZeroChoiceFeasibleIff(p);
      assert IsChoice(Zeros(p.N()), p.N());
    }
    if exists c :: IsChoice(c, p.N()) && IsChoiceFeasible(c, p) && Value(c, p) >= 0.0 {
      var c :| IsChoice(c, p.N()) && IsChoiceFeasible(c, p) && Value(c, p) >= 0.0;
      OptimalChoicesMaximal(p, c);
      if BestValue(p) == 0.0 {
        OptimalChoicesKeepTies(p, c);
      } else {
        BestUpToAttained(p, Pow2(p.N()));
        var j :| 0 <= j < Pow2(p.N()) && FeasibleWorth(p, j, BestValue(p));
        EnumeratedIsChoice(p, j);
        OptimalChoicesKeepTies(p, Enumerated(p, j));
      }
    }
    if OptimalChoices(p) != [] {
      assert OptimalChoices(p)[0] in OptimalChoices(p);
    }
  }

  /** The whole contract in one: a choice is returned exactly when it is a feasible 0/1
      choice worth the best value, and nothing feasible is worth more. */
  lemma OptimalChoicesExact(p: KnapsackProblem, c: seq<int>)
    requires p.WellFormed()
    ensures c in OptimalChoices(p) <==>
      IsChoice(c, p.N()) && IsChoiceFeasible(c, p) && Value(c, p) == BestValue(p)
    ensures IsChoice(c, p.N()) && IsChoiceFeasible(c, p) ==> Value(c, p) <= BestValue(p)
  {
    OptimalChoicesFeasible(p);
    if IsChoice(c, p.N()) && IsChoiceFeasible(c, p) {
      OptimalChoicesMaximal(p, c);
      if Value(c, p) == BestValue(p) {
        OptimalChoicesKeepTies(p, c);
      }
    }
  }
}

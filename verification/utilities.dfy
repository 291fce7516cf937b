/** Classical post-processing around the ansatz (backend_theoretical/Utilities.py; the
    checkpoint copy utils-checkpoint.py holds the same functions): decoding Qiskit bitstrings,
    expectations over a probability dictionary, the angle-vector layout shared by the optimiser
    bounds and the parameter dictionary, and the approximation ratio. */
module Utilities {
  import opened Arith
  import opened Gates
  import opened Knapsack
  import opened Qaoa

  // ---------------------------------------------------------------------------
  // Probability dictionaries and averages

  /** One item of a probability dictionary: a bitstring (qubit 0 rightmost) and its
      probability. A dictionary is the sequence of its items in insertion order. */
  datatype Entry = Entry(bitstring: string, prob: real)

  /** Sum over the items of func(bitstring) * probability. */
  function AverageValue(probs: seq<Entry>, func: string --> real): real
    requires forall i :: 0 <= i < |probs| ==> func.requires(probs[i].bitstring)
  {
    if probs == [] then 0.0
    else func(probs[0].bitstring) * probs[0].prob + AverageValue(probs[1..], func)
  }

  function TotalProb(probs: seq<Entry>): real
  {
    if probs == [] then 0.0 else probs[0].prob + TotalProb(probs[1..])
  }

  /** A normalised distribution: non-negative probabilities summing to 1. */
  predicate Distribution(probs: seq<Entry>)
  {
    (forall i :: 0 <= i < |probs| ==> probs[i].prob >= 0.0) && TotalProb(probs) == 1.0
  }

  /** Scaling by a non-negative factor keeps the order. */
  lemma ScaleBetween(lo: real, f: real, hi: real, q: real)
    requires lo <= f <= hi && q >= 0.0
    ensures lo * q <= f * q <= hi * q
  {
    assert (f - lo) * q >= 0.0 && (hi - f) * q >= 0.0;
  }

  /** One more term of the sum keeps the bounds. */
  lemma AddBetween(lo: real, f: real, hi: real, q: real, avg: real, tot: real)
    requires lo <= f <= hi && q >= 0.0
    requires lo * tot <= avg <= hi * tot
    ensures lo * (q + tot) <= f * q + avg <= hi * (q + tot)
  {
    ScaleBetween(lo, f, hi, q);
    assert lo * (q + tot) == lo * q + lo * tot;
    assert hi * (q + tot) == hi * q + hi * tot;
  }

  /** The average of a function bounded by [lo, hi] over non-negative weights lies between
      lo and hi times the total weight. */
  lemma {:induction false} AverageBounded(probs: seq<Entry>, func: string --> real, lo: real, hi: real)
    requires forall i :: 0 <= i < |probs| ==> func.requires(probs[i].bitstring)
    requires forall i :: 0 <= i < |probs| ==> probs[i].prob >= 0.0
    requires forall i :: 0 <= i < |probs| ==> lo <= func(probs[i].bitstring) <= hi
    ensures lo * TotalProb(probs) <= AverageValue(probs, func) <= hi * TotalProb(probs)
  {
    if probs != [] {
      var rest := probs[1..];
      AverageBounded(rest, func, lo, hi);
      var f := func(probs[0].bitstring);
      var q := probs[0].prob;
      assert AverageValue(probs, func) == f * q + AverageValue(rest, func);
      assert TotalProb(probs) == q + TotalProb(rest);
      AddBetween(lo, f, hi, q, AverageValue(rest, func), TotalProb(rest));
    }
  }

  /** Over a normalised distribution the average lies within any bounds of the function. */
  lemma AverageWithin(probs: seq<Entry>, func: string --> real, lo: real, hi: real)
    requires forall i :: 0 <= i < |probs| ==> func.requires(probs[i].bitstring)
    requires Distribution(probs)
    requires forall i :: 0 <= i < |probs| ==> lo <= func(probs[i].bitstring) <= hi
    ensures lo <= AverageValue(probs, func) <= hi
  {
    AverageBounded(probs, func, lo, hi);
    NormalisedBetween(probs, func, lo, hi);
  }

  /** With total weight one, the scaled bounds are the bounds themselves. */
  lemma NormalisedBetween(probs: seq<Entry>, func: string --> real, lo: real, hi: real)
    requires forall i :: 0 <= i < |probs| ==> func.requires(probs[i].bitstring)
    requires TotalProb(probs) == 1.0
    requires lo * TotalProb(probs) <= AverageValue(probs, func) <= hi * TotalProb(probs)
    ensures lo <= AverageValue(probs, func) <= hi
  {
  }

  // ---------------------------------------------------------------------------
  // Bitstrings and choices

  /** The characters `int` accepts as a one-character string. */
  predicate IsDigit(c: char)
  {
    '0' <= c <= '9'
  }

  predicate Digits(bs: string)
  {
    forall i :: 0 <= i < |bs| ==> IsDigit(bs[i])
  }

  /** Only '0' and '1': what the simulator's dictionaries hold. */
  predicate Binary(bs: string)
  {
    forall i :: 0 <= i < |bs| ==> bs[i] == '0' || bs[i] == '1'
  }

  function DigitValue(c: char): int
    requires IsDigit(c)
  {
    (c as int) - ('0' as int)
  }

  function Reverse<T>(s: seq<T>): (r: seq<T>)
    ensures |r| == |s| && forall i :: 0 <= i < |s| ==> r[i] == s[|s| - 1 - i]
  {
    seq(|s|, i requires 0 <= i < |s| => s[|s| - 1 - i])
  }

  /** The digits of a bitstring as integers, reversed so that index i is qubit i, then cut to
      the first N: the choice register's bits. */
  function BitstringToChoice(bs: string, p: KnapsackProblem): (choice: seq<int>)
    requires Digits(bs)
  {
    var bits := Reverse(seq(|bs|, i requires 0 <= i < |bs| => DigitValue(bs[i])));
    if |bits| <= p.N() then bits else bits[..p.N()]
  }

  /** What decoding yields: min(N, |s|) entries, entry i being the digit i places from the right. */
  lemma BitstringToChoiceAt(bs: string, p: KnapsackProblem)
    requires Digits(bs)
    ensures |BitstringToChoice(bs, p)| == if |bs| <= p.N() then |bs| else p.N()
    ensures forall i :: 0 <= i < |BitstringToChoice(bs, p)| ==> BitstringToChoice(bs, p)[i] == DigitValue(bs[|bs| - 1 - i])
  {
  }

  /** The bitstring the simulator reports for a choice register holding x: bit 0 rightmost. */
  function ChoiceToBitstring(x: seq<int>): (bs: string)
    requires IsChoice(x, |x|)
    ensures |bs| == |x| && Binary(bs)
  {
    Reverse(seq(|x|, i requires 0 <= i < |x| => if x[i] == 1 then '1' else '0'))
  }

  /** Decoding the reported bitstring of a choice gives the choice back, whatever the qubits
      to its left (weight register and flags in a full-register dictionary) hold. */
  lemma ChoiceRoundTrip(x: seq<int>, high: string, p: KnapsackProblem)
    requires IsChoice(x, p.N()) && Digits(high)
    ensures Digits(high + ChoiceToBitstring(x))
    ensures BitstringToChoice(high + ChoiceToBitstring(x), p) == x
  {
    var bs := high + ChoiceToBitstring(x);
    var low := ChoiceToBitstring(x);
    assert Digits(bs) by {
      forall i | 0 <= i < |bs|
        ensures IsDigit(bs[i])
      {
        if i >= |high| {
          assert bs[i] == low[i - |high|];
        }
      }
    }
    BitstringToChoiceAt(bs, p);
    var choice := BitstringToChoice(bs, p);
    forall i | 0 <= i < |x|
      ensures choice[i] == x[i]
    {
      assert bs[|bs| - 1 - i] == low[|x| - 1 - i];
    }
  }

  /** Re-encoding the decoded choice of an N-character binary string gives the string back. */
  lemma BitstringRoundTrip(bs: string, p: KnapsackProblem)
    requires Binary(bs) && |bs| == p.N()
    ensures Digits(bs) && IsChoice(BitstringToChoice(bs, p), p.N())
    ensures ChoiceToBitstring(BitstringToChoice(bs, p)) == bs
  {
    BitstringToChoiceAt(bs, p);
  }

  // ---------------------------------------------------------------------------
  // Objectives

  /** What the objectives need of a bitstring: `int` accepts every character and the decoded
      choice is as long as the value list, so the dot products are defined. */
  predicate KeyFits(bs: string, p: KnapsackProblem)
  {
    Digits(bs) && |bs| >= p.N()
  }

  /** The value of the decoded choice, feasible or not. */
  function ObjectiveFunction(bs: string, p: KnapsackProblem): real
    requires p.WellFormed() && KeyFits(bs, p)
  {
    Dot(BitstringToChoice(bs, p), p.values)
  }

  /** The value of the decoded choice when it is feasible, 0 otherwise. */
  function ComparableObjective(bs: string, p: KnapsackProblem): real
    requires p.WellFormed() && KeyFits(bs, p)
  {
    var choice := BitstringToChoice(bs, p);
    if IsChoiceFeasible(choice, p) then Value(choice, p) else 0.0
  }

  /** On the bitstring reported for a choice x the objectives are x's value, and the
      comparable one is that value exactly when x is feasible. */
  lemma ObjectivesOfChoice(x: seq<int>, high: string, p: KnapsackProblem)
    requires p.WellFormed() && IsChoice(x, p.N()) && Digits(high)
    ensures KeyFits(high + ChoiceToBitstring(x), p)
    ensures ObjectiveFunction(high + ChoiceToBitstring(x), p) == Value(x, p)
    ensures ComparableObjective(high + ChoiceToBitstring(x), p) == if IsChoiceFeasible(x, p) then Value(x, p) else 0.0
  {
    ChoiceRoundTrip(x, high, p);
  }

  /** With non-negative values the comparable objective of a binary bitstring lies between 0
      and the objective, and never exceeds the best value the brute-force solver finds. */
  lemma ComparableBounds(bs: string, p: KnapsackProblem)
    requires p.WellFormed() && KeyFits(bs, p) && Binary(bs)
    requires forall i :: 0 <= i < |p.values| ==> p.values[i] >= 0.0
    ensures 0.0 <= ComparableObjective(bs, p) <= ObjectiveFunction(bs, p)
    ensures ComparableObjective(bs, p) <= BestValue(p)
  {
    var choice := BitstringToChoice(bs, p);
    BitstringToChoiceAt(bs, p);
    assert IsChoice(choice, p.N());
    ValueNonNegative(choice, p);
    OptimalChoicesFeasible(p);
    if IsChoiceFeasible(choice, p) {
      OptimalChoicesMaximal(p, choice);
    }
  }

  /** Every key of the dictionary fits the problem. */
  predicate KeysFit(probs: seq<Entry>, p: KnapsackProblem)
  {
    forall i :: 0 <= i < |probs| ==> KeyFits(probs[i].bitstring, p)
  }

  predicate KeysBinary(probs: seq<Entry>)
  {
    forall i :: 0 <= i < |probs| ==> Binary(probs[i].bitstring)
  }

  /** The expectation of the comparable objective over the dictionary. */
  function ComparableExpectation(p: KnapsackProblem, probs: seq<Entry>): real
    requires p.WellFormed() && KeysFit(probs, p)
  {
    AverageValue(probs, bs requires KeyFits(bs, p) => ComparableObjective(bs, p))
  }

  /** With non-negative values and a normalised distribution over binary keys, the
      comparable expectation lies in [0, best value]. */
  lemma ComparableExpectationBounds(p: KnapsackProblem, probs: seq<Entry>)
    requires p.WellFormed() && KeysFit(probs, p) && KeysBinary(probs) && Distribution(probs)
    requires forall i :: 0 <= i < |p.values| ==> p.values[i] >= 0.0
    ensures 0.0 <= ComparableExpectation(p, probs) <= BestValue(p)
  {
    var func := bs requires KeyFits(bs, p) => ComparableObjective(bs, p);
    forall i | 0 <= i < |probs|
      ensures 0.0 <= func(probs[i].bitstring) <= BestValue(p)
    {
      ComparableBounds(probs[i].bitstring, p);
    }
    AverageWithin(probs, func, 0.0, BestValue(p));
  }

  /** The comparable expectation divided by the value of the first brute-force solution;
      None where the source has no such solution (an index error) or divides by zero. */
  method ApproximationRatio(p: KnapsackProblem, probs: seq<Entry>) returns (ratio: Option<real>)
    requires p.WellFormed() && KeysFit(probs, p)
    ensures ratio.None? <==> OptimalChoices(p) == [] || BestValue(p) == 0.0
    ensures ratio.Some? ==> BestValue(p) != 0.0 && ratio.value == ComparableExpectation(p, probs) / BestValue(p)
    ensures (KeysBinary(probs) && Distribution(probs) && p.maxWeight >= 0 && BestValue(p) > 0.0 &&
             forall i :: 0 <= i < |p.values| ==> p.values[i] >= 0.0)
            ==> ratio.Some? && 0.0 <= ratio.value <= 1.0
  {
    var expectation := ComparableExpectation(p, probs);
    var bestKnownSolutions := ClassicalSolutions(p);
    OptimalChoicesFeasible(p);
    assert p.maxWeight >= 0 ==> |OptimalChoices(p)| >= 1 by {
      OptimalChoicesNonEmptyIff(p);
    }
    if |bestKnownSolutions| == 0 {
      return None;
    }
    var choice := bestKnownSolutions[0];
    assert choice in OptimalChoices(p);
    var bestValue := Value(choice, p);
    assert bestValue == BestValue(p);
    if bestValue == 0.0 {
      return None;
    }
    ratio := Some(expectation / bestValue);
    if KeysBinary(probs) && Distribution(probs) && forall i :: 0 <= i < |p.values| ==> p.values[i] >= 0.0 {
      ComparableExpectationBounds(p, probs);
      QuotientWithin(expectation, bestValue);
    }
  }

  lemma QuotientWithin(e: real, b: real)
    requires b != 0.0 && 0.0 <= e <= b
    ensures 0.0 <= e / b <= 1.0
  {
  }

  // ---------------------------------------------------------------------------
  // The angle vector [gamma0, beta0, gamma1, beta1, ...]

  /** angles[0::2] */
  function Evens(a: seq<real>): (r: seq<real>)
    ensures |r| == (|a| + 1) / 2 && forall i :: 0 <= i < |r| ==> r[i] == a[2 * i]
  {
    seq((|a| + 1) / 2, i requires 0 <= i < (|a| + 1) / 2 => a[2 * i])
  }

  /** angles[1::2] */
  function Odds(a: seq<real>): (r: seq<real>)
    ensures |r| == |a| / 2 && forall i :: 0 <= i < |r| ==> r[i] == a[2 * i + 1]
  {
    seq(|a| / 2, i requires 0 <= i < |a| / 2 => a[2 * i + 1])
  }

  /** The optimiser's bounds: [gamma_range, beta_range] repeated p times. */
  function OptimizerBounds(p: nat, gammaRange: (real, real), betaRange: (real, real)): seq<(real, real)>
  {
    if p == 0 then [] else [gammaRange, betaRange] + OptimizerBounds(p - 1, gammaRange, betaRange)
  }

  /** The bounds alternate gamma_range at even and beta_range at odd positions, 2p in all. */
  lemma {:induction false} OptimizerBoundsLayout(p: nat, gammaRange: (real, real), betaRange: (real, real))
    ensures |OptimizerBounds(p, gammaRange, betaRange)| == 2 * p
    ensures forall k :: 0 <= k < 2 * p ==>
              OptimizerBounds(p, gammaRange, betaRange)[k] == if k % 2 == 0 then gammaRange else betaRange
  {
    if p > 0 {
      OptimizerBoundsLayout(p - 1, gammaRange, betaRange);
      var rest := OptimizerBounds(p - 1, gammaRange, betaRange);
      forall k | 2 <= k < 2 * p
        ensures OptimizerBounds(p, gammaRange, betaRange)[k] == if k % 2 == 0 then gammaRange else betaRange
      {
        assert OptimizerBounds(p, gammaRange, betaRange)[k] == rest[k - 2];
        assert (k - 2) % 2 == k % 2;
      }
    }
  }

  /** Each key in turn mapped to the matching value, over the shorter of the two lists; a
      later key overwrites an earlier equal one. */
  function ZipAssign(d: map<Param, real>, keys: seq<Param>, vals: seq<real>): map<Param, real>
    decreases |keys|
  {
    if keys == [] || vals == [] then d else ZipAssign(d[keys[0] := vals[0]], keys[1..], vals[1..])
  }

  /** q is none of the keys that get a value. */
  predicate Unassigned(q: Param, keys: seq<Param>, vals: seq<real>)
  {
    forall k :: 0 <= k < |keys| && k < |vals| ==> keys[k] != q
  }

  predicate Distinct(keys: seq<Param>)
  {
    forall i, j :: 0 <= i < j < |keys| ==> keys[i] != keys[j]
  }

  /** With distinct keys, key k maps to value k for k below the shorter length, and every
      other key keeps its old entry (or stays absent). */
  lemma {:induction false} ZipAssignAt(d: map<Param, real>, keys: seq<Param>, vals: seq<real>)
    requires Distinct(keys)
    decreases |keys|
    ensures forall k :: 0 <= k < |keys| && k < |vals| ==> keys[k] in ZipAssign(d, keys, vals) && ZipAssign(d, keys, vals)[keys[k]] == vals[k]
    ensures forall q :: Unassigned(q, keys, vals) ==>
              (q in ZipAssign(d, keys, vals) <==> q in d) && (q in d ==> ZipAssign(d, keys, vals)[q] == d[q])
  {
    if keys != [] && vals != [] {
      ZipAssignAt(d[keys[0] := vals[0]], keys[1..], vals[1..]);
      forall k | 1 <= k < |keys| && k < |vals|
        ensures ZipAssign(d, keys, vals)[keys[k]] == vals[k]
      {
        assert keys[k] == keys[1..][k - 1];
      }
      forall q | Unassigned(q, keys, vals)
        ensures Unassigned(q, keys[1..], vals[1..])
      {
        forall k | 0 <= k < |keys[1..]| && k < |vals[1..]|
          ensures keys[1..][k] != q
        {
          assert keys[1..][k] == keys[k + 1];
        }
      }
    }
  }

  /** The dictionary `to_parameter_dict` builds: first the betas from angles[1::2], then the
      gammas from angles[0::2]. */
  function ParameterDict(angles: seq<real>, betas: seq<Param>, gammas: seq<Param>): map<Param, real>
  {
    ZipAssign(ZipAssign(map[], betas, Odds(angles)), gammas, Evens(angles))
  }

  method ToParameterDict(angles: seq<real>, circuit: QuantumWalkQAOA) returns (parameters: map<Param, real>)
    ensures parameters == ParameterDict(angles, circuit.betas, circuit.gammas)
  {
    var gammas := Evens(angles);
    var betas := Odds(angles);
    parameters := map[];
    var i := 0;
    while i < |circuit.betas| && i < |betas|
      invariant 0 <= i <= |circuit.betas| && i <= |betas|
      invariant ZipAssign(parameters, circuit.betas[i..], betas[i..]) == ZipAssign(map[], circuit.betas, betas)
    {
      assert circuit.betas[i..][1..] == circuit.betas[i + 1..] && betas[i..][1..] == betas[i + 1..];
      parameters := parameters[circuit.betas[i] := betas[i]];
      i := i + 1;
    }
    var j := 0;
    while j < |circuit.gammas| && j < |gammas|
      invariant 0 <= j <= |circuit.gammas| && j <= |gammas|
      invariant ZipAssign(parameters, circuit.gammas[j..], gammas[j..]) == ParameterDict(angles, circuit.betas, circuit.gammas)
    {
      assert circuit.gammas[j..][1..] == circuit.gammas[j + 1..] && gammas[j..][1..] == gammas[j + 1..];
      parameters := parameters[circuit.gammas[j] := gammas[j]];
      j := j + 1;
    }
  }

  function BetaParams(p: nat): (r: seq<Param>)
    ensures |r| == p && Distinct(r)
  {
    seq(p, i requires 0 <= i < p => BetaAt(i))
  }

  function GammaParams(p: nat): (r: seq<Param>)
    ensures |r| == p && Distinct(r)
  {
    seq(p, i requires 0 <= i < p => GammaAt(i))
  }

  /** For the ansatz's parameter lists and an angle vector of length 2p the dictionary binds
      gamma{i} to angles[2i] and beta{i} to angles[2i+1], and binds nothing else. */
  lemma ParameterDictLayout(angles: seq<real>, p: nat)
    requires |angles| == 2 * p
    ensures forall i :: 0 <= i < p ==>
              GammaAt(i) in ParameterDict(angles, BetaParams(p), GammaParams(p)) &&
              BetaAt(i) in ParameterDict(angles, BetaParams(p), GammaParams(p)) &&
              ParameterDict(angles, BetaParams(p), GammaParams(p))[GammaAt(i)] == angles[2 * i] &&
              ParameterDict(angles, BetaParams(p), GammaParams(p))[BetaAt(i)] == angles[2 * i + 1]
    ensures forall q :: q in ParameterDict(angles, BetaParams(p), GammaParams(p)) <==> (q.GammaAt? || q.BetaAt?) && q.layer < p
  {
    var betas := BetaParams(p);
    var gammas := GammaParams(p);
    var first := ZipAssign(map[], betas, Odds(angles));
    ZipAssignAt(map[], betas, Odds(angles));
    ZipAssignAt(first, gammas, Evens(angles));
    HalfLengths(p);
    forall i | 0 <= i < p
      ensures GammaAt(i) in ParameterDict(angles, betas, gammas) && BetaAt(i) in ParameterDict(angles, betas, gammas)
      ensures ParameterDict(angles, betas, gammas)[GammaAt(i)] == angles[2 * i]
      ensures ParameterDict(angles, betas, gammas)[BetaAt(i)] == angles[2 * i + 1]
    {
      assert gammas[i] == GammaAt(i) && betas[i] == BetaAt(i);
      assert Evens(angles)[i] == angles[2 * i] && Odds(angles)[i] == angles[2 * i + 1];
      assert Unassigned(BetaAt(i), gammas, Evens(angles));
    }
    forall q
      ensures q in ParameterDict(angles, betas, gammas) <==> (q.GammaAt? || q.BetaAt?) && q.layer < p
    {
      if q.GammaAt? && q.layer < p {
        assert q == gammas[q.layer];
      } else if q.BetaAt? && q.layer < p {
        assert q == betas[q.layer];
        assert Unassigned(q, gammas, Evens(angles));
      } else {
        assert Unassigned(q, gammas, Evens(angles)) && Unassigned(q, betas, Odds(angles));
      }
    }
  }

  /** The dictionary for an angle vector of length 2p binds exactly the free parameters of the
      p-layer ansatz. */
  lemma ParameterDictFitsAnsatz(angles: seq<real>, pr: KnapsackProblem, m: nat, p: nat)
    requires QaoaDefined(pr) && pr.WellFormed() && m >= 1 && |angles| == 2 * p
    ensures forall q :: q in ParameterDict(angles, BetaParams(p), GammaParams(p)) <==>
                        q in Params(Layers(PhaseCircuit(pr), MixCircuit(pr, m), p))
  {
    ParameterDictLayout(angles, p);
    AnsatzParams(pr, m, p);
  }

  /** Angles within the optimiser's bounds put every gamma{i} in gamma_range and every
      beta{i} in beta_range. */
  lemma ParameterDictWithinRanges(angles: seq<real>, p: nat, gammaRange: (real, real), betaRange: (real, real))
    requires |angles| == 2 * p
    requires |OptimizerBounds(p, gammaRange, betaRange)| == 2 * p
    requires forall k :: 0 <= k < 2 * p ==> OptimizerBounds(p, gammaRange, betaRange)[k].0 <= angles[k] <= OptimizerBounds(p, gammaRange, betaRange)[k].1
    ensures forall i :: 0 <= i < p ==>
              GammaAt(i) in ParameterDict(angles, BetaParams(p), GammaParams(p)) &&
              gammaRange.0 <= ParameterDict(angles, BetaParams(p), GammaParams(p))[GammaAt(i)] <= gammaRange.1
    ensures forall i :: 0 <= i < p ==>
              BetaAt(i) in ParameterDict(angles, BetaParams(p), GammaParams(p)) &&
              betaRange.0 <= ParameterDict(angles, BetaParams(p), GammaParams(p))[BetaAt(i)] <= betaRange.1
  {
    var d := ParameterDict(angles, BetaParams(p), GammaParams(p));
    var bounds := OptimizerBounds(p, gammaRange, betaRange);
    ParameterDictLayout(angles, p);
    OptimizerBoundsLayout(p, gammaRange, betaRange);
    forall i | 0 <= i < p
      ensures GammaAt(i) in d && gammaRange.0 <= d[GammaAt(i)] <= gammaRange.1
      ensures BetaAt(i) in d && betaRange.0 <= d[BetaAt(i)] <= betaRange.1
    {
      Parity(i);
      assert bounds[2 * i] == gammaRange && bounds[2 * i + 1] == betaRange;
      assert bounds[2 * i].0 <= angles[2 * i] <= bounds[2 * i].1;
      assert bounds[2 * i + 1].0 <= angles[2 * i + 1] <= bounds[2 * i + 1].1;
      assert d[GammaAt(i)] == angles[2 * i] && d[BetaAt(i)] == angles[2 * i + 1];
    }
  }

  /** Each angle lies within its bound. */
  predicate InBounds(angles: seq<real>, bounds: seq<(real, real)>)
  {
    |angles| == |bounds| && forall k :: 0 <= k < |bounds| ==> bounds[k].0 <= angles[k] <= bounds[k].1
  }

  /** Angles within the bounds `find_optimal_angles` passes for the ansatz q, built from
      `gamma_range()` and `beta_range()`, give every gamma{i} a value in [0, 2] and every beta{i}
      a value in [0, m] (units of pi), so every walk-rotation angle of layer i lies within
      [0, 2] (units of pi). */
  lemma OptimalAnglesInRanges(q: QuantumWalkQAOA, angles: seq<real>)
    requires InBounds(angles, OptimizerBounds(q.p, QuantumWalkQAOA.GammaRange(), q.BetaRange()))
    ensures forall i :: 0 <= i < q.p ==>
              GammaAt(i) in ParameterDict(angles, BetaParams(q.p), GammaParams(q.p)) &&
              0.0 <= ParameterDict(angles, BetaParams(q.p), GammaParams(q.p))[GammaAt(i)] <= 2.0
    ensures forall i :: 0 <= i < q.p ==>
              BetaAt(i) in ParameterDict(angles, BetaParams(q.p), GammaParams(q.p)) &&
              0.0 <= ParameterDict(angles, BetaParams(q.p), GammaParams(q.p))[BetaAt(i)] <= q.m as real
    ensures q.m >= 1 ==> forall i :: 0 <= i < q.p ==>
              BetaAt(i) in ParameterDict(angles, BetaParams(q.p), GammaParams(q.p)) &&
              0.0 <= (2.0 / (q.m as real)) * ParameterDict(angles, BetaParams(q.p), GammaParams(q.p))[BetaAt(i)] <= 2.0
  {
    var gammaRange, betaRange := QuantumWalkQAOA.GammaRange(), q.BetaRange();
    OptimizerBoundsLayout(q.p, gammaRange, betaRange);
    ParameterDictWithinRanges(angles, q.p, gammaRange, betaRange);
    var d := ParameterDict(angles, BetaParams(q.p), GammaParams(q.p));
    if q.m >= 1 {
      forall i | 0 <= i < q.p
        ensures 0.0 <= (2.0 / (q.m as real)) * d[BetaAt(i)] <= 2.0
      {
        RotationWithinTwoPi(q.m, d[BetaAt(i)]);
      }
    }
  }

  lemma HalfLengths(p: nat)
    ensures (2 * p + 1) / 2 == p && (2 * p) / 2 == p
  {
  }

  lemma Parity(i: nat)
    ensures (2 * i) % 2 == 0 && (2 * i + 1) % 2 == 1
  {
  }
}

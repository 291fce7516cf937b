/** What the feasibility oracle computes on a basis state: the weight register goes through
    v -> (v + selected weight + w0) mod 2^W, the flag is toggled exactly when that sum is below
    2^c (the high weight qubits are all 0), and the clean-up returns the weight register to v. */
module OracleProofs {
  import opened Arith
  import opened Gates
  import opened Knapsack
  import opened BasisSemantics
  import opened Circuits
  import opened FourierProofs

  predicate Disjoint(a: Register, b: Register)
  {
    a.start + a.size <= b.start || b.start + b.size <= a.start
  }

  /** The oracle's qubits: choice and weight registers side by side, a flag outside both, and
      every choice qubit and the flag holding a basis bit. */
  predicate OracleLayout(s: QState, choice: Register, weight: Register, flag: nat)
  {
    Fits(s, choice) && Fits(s, weight) && Disjoint(choice, weight) &&
    flag < |s.qubits| && !choice.Contains(flag) && !weight.Contains(flag) && s.qubits[flag].Basis? &&
    forall i :: 0 <= i < choice.size ==> s.qubits[choice.At(i)].Basis?
  }

  lemma LayoutControls(s: QState, choice: Register, weight: Register, flag: nat)
    requires OracleLayout(s, choice, weight, flag)
    ensures forall i :: 0 <= i < choice.size ==> ControlOutside(s, weight, Some(choice.At(i)))
  {
  }

  /** The 0/1 vector read off the first n choice qubits. */
  function ChoiceBits(s: QState, choice: Register, n: nat): (b: seq<int>)
    ensures |b| == n
    ensures forall i :: 0 <= i < n ==> b[i] == if IsOne(s, choice.At(i)) then 1 else 0
  {
    seq(n, i requires 0 <= i < n => if IsOne(s, choice.At(i)) then 1 else 0)
  }

  /** The total weight of the items whose choice qubit (among the first j) is 1. */
  function SelectedWeight(s: QState, choice: Register, weights: seq<int>, j: nat): int
    requires j <= |weights|
  {
    DotInt(ChoiceBits(s, choice, j), weights[..j])
  }

  lemma SelectedStep(s: QState, choice: Register, weights: seq<int>, j: nat)
    requires 1 <= j <= |weights|
    ensures SelectedWeight(s, choice, weights, j)
            == SelectedWeight(s, choice, weights, j - 1) + (if IsOne(s, choice.At(j - 1)) then weights[j - 1] else 0)
  {
    var b := ChoiceBits(s, choice, j);
    DotIntLast(b, weights[..j]);
    assert b[..j - 1] == ChoiceBits(s, choice, j - 1);
    assert weights[..j][..j - 1] == weights[..j - 1];
  }

  /** Changing a qubit outside the choice register leaves the selection alone. */
  lemma ChoiceBitsOutside(s: QState, choice: Register, n: nat, q: nat, x: Qubit)
    requires q < |s.qubits| && !choice.Contains(q) && n <= choice.size
    ensures ChoiceBits(SetQubit(s, q, x), choice, n) == ChoiceBits(s, choice, n)
  {
  }

  // ---------------------------------------------------------------------------
  // The controlled weight additions

  /** The first j controlled additions add the weight of the selected items among them to the
      Fourier value, and their inverse subtracts it again. */
  lemma {:induction false} ControlledAdditionsRun(s: QState, choice: Register, weight: Register, weights: seq<int>,
                                                  j: nat, v: int, w: int, d: nat, flip: bool)
    requires Fits(s, weight) && weight.size <= d
    requires j <= |weights| && forall i :: 0 <= i < |weights| ==> weights[i] >= 0
    requires forall i :: 0 <= i < j ==> ControlOutside(s, weight, Some(choice.At(i)))
    requires w == v + SelectedWeight(s, choice, weights, j)
    ensures Run(ControlledAdditions(choice, weight, weights, j), WithFourier(s, weight, v, d), d, flip)
            == Some(WithFourier(s, weight, w, d))
    ensures Run(Inverse(ControlledAdditions(choice, weight, weights, j)), WithFourier(s, weight, w, d), d, flip)
            == Some(WithFourier(s, weight, v, d))
  {
    if j == 0 {
      assert ChoiceBits(s, choice, 0) == [];
      assert Inverse(ControlledAdditions(choice, weight, weights, j)) == [];
    } else {
      var u := v + SelectedWeight(s, choice, weights, j - 1);
      var add := AdditionGates(weight, weights[j - 1] as nat, Some(choice.At(j - 1)));
      ControlledAdditionsRun(s, choice, weight, weights, j - 1, v, u, d, flip);
      SelectedStep(s, choice, weights, j);
      AdditionShift(s, weight, weights[j - 1] as nat, Some(choice.At(j - 1)), u, w, d, flip);
      RunJoin(ControlledAdditions(choice, weight, weights, j - 1), add, ControlledAdditions(choice, weight, weights, j),
        WithFourier(s, weight, v, d), WithFourier(s, weight, u, d), WithFourier(s, weight, w, d), d, flip);
      InverseRunJoin(ControlledAdditions(choice, weight, weights, j - 1), add, ControlledAdditions(choice, weight, weights, j),
        WithFourier(s, weight, w, d), WithFourier(s, weight, u, d), WithFourier(s, weight, v, d), d, flip);
    }
  }

  // ---------------------------------------------------------------------------
  // The sub-circuit

  /** The number of (choice qubit, weight) pairs the oracle adds. */
  function Pairs(choice: Register, p: KnapsackProblem): nat
  {
    ZipLength(choice, |p.weights|)
  }

  /** The value the sub-circuit leaves in the weight register, starting from v:
      (v + selected weight + w0) mod 2^W. */
  function OracleSum(s: QState, choice: Register, weight: Register, p: KnapsackProblem, v: int): (u: nat)
    requires OracleDefined(p)
    ensures u < Pow2(weight.size)
  {
    (v + SelectedWeight(s, choice, p.weights, Pairs(choice, p)) + OracleOffset(p.maxWeight)) % Pow2(weight.size)
  }

  /** The part of the sub-circuit that runs in the Fourier basis: the controlled additions and + w0. */
  function OracleMiddle(choice: Register, weight: Register, p: KnapsackProblem): seq<Gate>
    requires OracleDefined(p)
  {
    ControlledAdditions(choice, weight, p.weights, Pairs(choice, p)) + AdditionGates(weight, OracleOffset(p.maxWeight), None)
  }

  /** The controlled additions followed by + w0 move the Fourier value from v to
      x = v + selected weight + w0; their inverse moves it back. */
  lemma MiddleRun(s: QState, choice: Register, weight: Register, flag: nat, p: KnapsackProblem, v: int, x: int, d: nat, flip: bool)
    requires OracleDefined(p) && OracleLayout(s, choice, weight, flag) && weight.size <= d
    requires x == v + SelectedWeight(s, choice, p.weights, Pairs(choice, p)) + OracleOffset(p.maxWeight)
    ensures Run(OracleMiddle(choice, weight, p), WithFourier(s, weight, v, d), d, flip) == Some(WithFourier(s, weight, x, d))
    ensures Run(Inverse(OracleMiddle(choice, weight, p)), WithFourier(s, weight, x, d), d, flip) == Some(WithFourier(s, weight, v, d))
  {
    var adds := ControlledAdditions(choice, weight, p.weights, Pairs(choice, p));
    var offset := AdditionGates(weight, OracleOffset(p.maxWeight), None);
    var u := v + SelectedWeight(s, choice, p.weights, Pairs(choice, p));
    LayoutControls(s, choice, weight, flag);
    ControlledAdditionsRun(s, choice, weight, p.weights, Pairs(choice, p), v, u, d, flip);
    AdditionShift(s, weight, OracleOffset(p.maxWeight), None, u, x, d, flip);
    RunJoin(adds, offset, OracleMiddle(choice, weight, p),
      WithFourier(s, weight, v, d), WithFourier(s, weight, u, d), WithFourier(s, weight, x, d), d, flip);
    InverseRunJoin(adds, offset, OracleMiddle(choice, weight, p),
      WithFourier(s, weight, x, d), WithFourier(s, weight, u, d), WithFourier(s, weight, v, d), d, flip);
  }

  lemma OracleSubSplit(choice: Register, weight: Register, p: KnapsackProblem)
    requires OracleDefined(p)
    ensures OracleSub(choice, weight, p) == QftGates(weight) + OracleMiddle(choice, weight, p) + Inverse(QftGates(weight))
    ensures Inverse(OracleSub(choice, weight, p)) == QftGates(weight) + Inverse(OracleMiddle(choice, weight, p)) + Inverse(QftGates(weight))
  {
    var qft := QftGates(weight);
    var mid := OracleMiddle(choice, weight, p);
    assert OracleSub(choice, weight, p) == (qft + mid) + Inverse(qft);
    InverseAppend(qft + mid, Inverse(qft));
    InverseAppend(qft, mid);
    InverseInvolution(qft);
  }

  /** QFT, the controlled additions, + w0 and the inverse QFT take the basis value v to
      OracleSum; the choice qubits and everything else are unchanged. */
  lemma OracleSubRun(s: QState, choice: Register, weight: Register, flag: nat, p: KnapsackProblem, v: nat, d: nat, flip: bool)
    requires OracleDefined(p) && OracleLayout(s, choice, weight, flag) && weight.size <= d
    ensures Run(OracleSub(choice, weight, p), WithBasis(s, weight, v), d, flip)
            == Some(WithBasis(s, weight, OracleSum(s, choice, weight, p, v)))
  {
    var x := v + SelectedWeight(s, choice, p.weights, Pairs(choice, p)) + OracleOffset(p.maxWeight);
    var qft := QftGates(weight);
    var mid := OracleMiddle(choice, weight, p);
    var b0, f0, f1, b1 := WithBasis(s, weight, v), WithFourier(s, weight, v, d), WithFourier(s, weight, x, d),
                          WithBasis(s, weight, OracleSum(s, choice, weight, p, v));
    OracleSubSplit(choice, weight, p);
    QftOnBasis(s, weight, v, d, flip);
    MiddleRun(s, choice, weight, flag, p, v, x, d, flip);
    InverseQftTo(s, weight, x, OracleSum(s, choice, weight, p, v), d, flip);
    RunSeq3(qft, mid, Inverse(qft), OracleSub(choice, weight, p), b0, f0, f1, b1, d, flip);
  }

  /** The sub-circuit's inverse takes u back to (u - selected weight - w0) mod 2^W. */
  lemma InverseOracleSubRun(s: QState, choice: Register, weight: Register, flag: nat, p: KnapsackProblem, u: nat, d: nat, flip: bool)
    requires OracleDefined(p) && OracleLayout(s, choice, weight, flag) && weight.size <= d
    ensures Run(Inverse(OracleSub(choice, weight, p)), WithBasis(s, weight, u), d, flip)
            == Some(WithBasis(s, weight, (u - SelectedWeight(s, choice, p.weights, Pairs(choice, p)) - OracleOffset(p.maxWeight)) % Pow2(weight.size)))
  {
    var back := u - SelectedWeight(s, choice, p.weights, Pairs(choice, p)) - OracleOffset(p.maxWeight);
    InverseOracleSubTo(s, choice, weight, flag, p, u, back, back % Pow2(weight.size), d, flip);
  }

  /** The same, for values back = u - selected weight - w0 and b = back mod 2^W already known. */
  lemma InverseOracleSubTo(s: QState, choice: Register, weight: Register, flag: nat, p: KnapsackProblem,
                           u: nat, back: int, b: nat, d: nat, flip: bool)
    requires OracleDefined(p) && OracleLayout(s, choice, weight, flag) && weight.size <= d
    requires u == back + SelectedWeight(s, choice, p.weights, Pairs(choice, p)) + OracleOffset(p.maxWeight)
    requires b == back % Pow2(weight.size)
    ensures Run(Inverse(OracleSub(choice, weight, p)), WithBasis(s, weight, u), d, flip) == Some(WithBasis(s, weight, b))
  {
    var qft := QftGates(weight);
    var mid := OracleMiddle(choice, weight, p);
    var b0, f0, f1, b1 := WithBasis(s, weight, u), WithFourier(s, weight, u, d), WithFourier(s, weight, back, d),
                          WithBasis(s, weight, b);
    OracleSubSplit(choice, weight, p);
    QftOnBasis(s, weight, u, d, flip);
    MiddleRun(s, choice, weight, flag, p, back, u, d, flip);
    InverseQftTo(s, weight, back, b, d, flip);
    RunSeq3(qft, Inverse(mid), Inverse(qft), Inverse(OracleSub(choice, weight, p)), b0, f0, f1, b1, d, flip);
  }

  // ---------------------------------------------------------------------------
  // The comparison: x on the high weight qubits, a multi-controlled x onto the flag, x again

  /** Every basis qubit of r inverted. */
  function FlipAll(t: QState, r: Register): (u: QState)
    requires Fits(t, r)
    ensures |u.qubits| == |t.qubits| && u.phase == t.phase
  {
    QState(seq(|t.qubits|, q requires 0 <= q < |t.qubits| =>
      if r.Contains(q) && t.qubits[q].Basis? then Basis(!t.qubits[q].bit) else t.qubits[q]), t.phase)
  }

  predicate BasisOn(t: QState, r: Register)
  {
    Fits(t, r) && forall i :: 0 <= i < r.size ==> t.qubits[r.At(i)].Basis?
  }

  /** `x(register)` inverts every qubit of a register holding basis bits. */
  lemma {:induction false} XGatesRun(t: QState, r: Register, d: nat, flip: bool)
    requires BasisOn(t, r)
    ensures Run(XGates(r), t, d, flip) == Some(FlipAll(t, r))
    decreases r.size
  {
    if r.size == 0 {
      assert FlipAll(t, r) == t;
    } else {
      var r' := Register(r.start, r.size - 1);
      var q := r.At(r.size - 1);
      assert XGates(r) == XGates(r') + [X(q)];
      assert forall i :: 0 <= i < r'.size ==> r'.At(i) == r.At(i);
      XGatesRun(t, r', d, flip);
      var mid := FlipAll(t, r');
      RunOne(X(q), mid, d, flip);
      assert SetQubit(mid, q, Basis(!mid.qubits[q].bit)) == FlipAll(t, r);
      RunSeq(XGates(r'), [X(q)], t, mid, FlipAll(t, r), d, flip);
    }
  }

  lemma FlipAllTwice(t: QState, r: Register, q: nat, x: Qubit)
    requires Fits(t, r) && q < |t.qubits| && !r.Contains(q)
    ensures FlipAll(SetQubit(FlipAll(t, r), q, x), r) == SetQubit(t, q, x)
  {
  }

  /** After an x layer the register still holds basis bits, also once a qubit outside it is set. */
  lemma FlippedBasis(t: QState, r: Register, q: nat, x: Qubit)
    requires BasisOn(t, r) && q < |t.qubits| && !r.Contains(q)
    ensures forall i :: 0 <= i < |r.QubitList()| ==> IsBasis(FlipAll(t, r), r.QubitList()[i])
    ensures q !in r.QubitList()
    ensures BasisOn(SetQubit(FlipAll(t, r), q, x), r)
  {
    var u := FlipAll(t, r);
    forall i | 0 <= i < |r.QubitList()|
      ensures IsBasis(u, r.QubitList()[i])
    {
      assert r.QubitList()[i] == r.At(i);
      assert t.qubits[r.At(i)].Basis?;
    }
  }

  /** The multi-controlled x sets the target to its bit xor whether every control reads 1. */
  lemma McxRun(t: QState, cs: seq<nat>, q: nat, b: bool, d: nat, flip: bool)
    requires IsBasis(t, q) && q !in cs && forall i :: 0 <= i < |cs| ==> IsBasis(t, cs[i])
    requires b == (t.qubits[q].bit != AllSet(t, cs))
    ensures Run([MCX(cs, q)], t, d, flip) == Some(SetQubit(t, q, Basis(b)))
  {
    RunOne(MCX(cs, q), t, d, flip);
  }

  /** After the first x layer, the high qubits all read 1 exactly when bits c.. of u are 0. */
  lemma HighQubitsSet(s: QState, weight: Register, u: nat, c: nat)
    requires Fits(s, weight)
    ensures AllSet(FlipAll(WithBasis(s, weight, u), weight.From(c)), weight.From(c).QubitList())
            <==> forall i :: c <= i < weight.size ==> !Bit(u, i)
  {
    var high := weight.From(c);
    var t := FlipAll(WithBasis(s, weight, u), high);
    if c <= weight.size {
      forall i | 0 <= i < high.size
        ensures IsOne(t, high.QubitList()[i]) <==> !Bit(u, c + i)
      {
      }
      if forall i :: c <= i < weight.size ==> !Bit(u, i) {
        forall i | 0 <= i < |high.QubitList()| ensures IsOne(t, high.QubitList()[i]) {
          assert !Bit(u, c + i);
        }
      }
      if AllSet(t, high.QubitList()) {
        forall i | c <= i < weight.size ensures !Bit(u, i) {
          assert IsOne(t, high.QubitList()[i - c]);
        }
      }
    }
  }

  /** The comparison toggles the flag exactly when u < 2^c, and leaves the weight register as it
      found it. With c at or beyond the register width the slice `weight_reg[c:]` is empty, and
      this model reads `mcx` with no controls as a plain X on the flag (see `Apply`); what the
      program's `mcx` does with an empty control list is not part of this model. */
  lemma CompareRun(s: QState, weight: Register, c: nat, flag: nat, u: nat, d: nat, flip: bool)
    requires Fits(s, weight) && flag < |s.qubits| && !weight.Contains(flag) && s.qubits[flag].Basis?
    requires u < Pow2(weight.size)
    ensures Run(XGates(weight.From(c)) + [MCX(weight.From(c).QubitList(), flag)] + XGates(weight.From(c)),
                WithBasis(s, weight, u), d, flip)
            == Some(WithBasis(SetQubit(s, flag, Basis(s.qubits[flag].bit != (u < Pow2(c)))), weight, u))
  {
    var high := weight.From(c);
    var t := WithBasis(s, weight, u);
    var x := Basis(s.qubits[flag].bit != (u < Pow2(c)));
    XGatesRun(t, high, d, flip);
    var t1 := FlipAll(t, high);
    HighQubitsSet(s, weight, u, c);
    if c <= weight.size {
      HighBitsClearIff(u, c, weight.size);
    } else {
      Pow2MonotoneEq(weight.size, c);
    }
    assert AllSet(t1, high.QubitList()) == (u < Pow2(c));
    assert t1.qubits[flag] == s.qubits[flag];
    FlippedBasis(t, high, flag, x);
    McxRun(t1, high.QubitList(), flag, x.bit, d, flip);
    var t2 := SetQubit(t1, flag, x);
    XGatesRun(t2, high, d, flip);
    FlipAllTwice(t, high, flag, x);
    WithBasisOutside(s, weight, u, flag, x);
    RunSeq(XGates(high), [MCX(high.QubitList(), flag)], t, t1, t2, d, flip);
    RunSeq(XGates(high) + [MCX(high.QubitList(), flag)], XGates(high), t, t2, SetQubit(t, flag, x), d, flip);
  }

  // ---------------------------------------------------------------------------
  // The whole oracle

  /** Whether the oracle marks the state: the sum left by the sub-circuit is below 2^c. */
  predicate Marks(s: QState, choice: Register, weight: Register, p: KnapsackProblem, v: int)
    requires OracleDefined(p)
  {
    OracleSum(s, choice, weight, p, v) < Pow2(OracleWidth(p.maxWeight))
  }

  lemma ModSubBack(x: int, y: int, m: int)
    requires m > 0
    ensures ((x % m) - y) % m == (x - y) % m
  {
    ModAddMultiple(x - y, x / m, m);
    assert (x % m) - y == (x - y) - (x / m) * m;
    ModAddMultiple((x % m) - y, x / m, m);
  }

  /** Subtracting what the sub-circuit added gives v back. */
  lemma SumUndone(s: QState, choice: Register, weight: Register, p: KnapsackProblem, v: nat, back: int)
    requires OracleDefined(p) && v < Pow2(weight.size)
    requires back == OracleSum(s, choice, weight, p, v) - SelectedWeight(s, choice, p.weights, Pairs(choice, p)) - OracleOffset(p.maxWeight)
    ensures back % Pow2(weight.size) == v
  {
    var sel := SelectedWeight(s, choice, p.weights, Pairs(choice, p));
    var w0 := OracleOffset(p.maxWeight);
    var m := Pow2(weight.size);
    ModSubBack(v + sel + w0, sel + w0, m);
    ModOfInRange(v, m);
  }

  /** Setting the flag keeps the layout and the selected weight. */
  lemma FlagSet(s: QState, choice: Register, weight: Register, flag: nat, p: KnapsackProblem, b: bool)
    requires OracleLayout(s, choice, weight, flag)
    ensures OracleLayout(SetQubit(s, flag, Basis(b)), choice, weight, flag)
    ensures SelectedWeight(SetQubit(s, flag, Basis(b)), choice, p.weights, Pairs(choice, p))
            == SelectedWeight(s, choice, p.weights, Pairs(choice, p))
  {
    ChoiceBitsOutside(s, choice, Pairs(choice, p), flag, Basis(b));
  }

  /** With clean-up the oracle toggles the flag exactly when it marks the state and returns
      the weight register to its starting value; the choice register is untouched. */
  lemma OracleRun(s: QState, choice: Register, weight: Register, flag: nat, p: KnapsackProblem, v: nat, d: nat, flip: bool)
    requires OracleDefined(p) && OracleLayout(s, choice, weight, flag) && weight.size <= d
    requires v < Pow2(weight.size)
    ensures Run(OracleGates(choice, weight, flag, p, true), WithBasis(s, weight, v), d, flip)
            == Some(WithBasis(SetQubit(s, flag, Basis(s.qubits[flag].bit != Marks(s, choice, weight, p, v))), weight, v))
  {
    var sub := OracleSub(choice, weight, p);
    var gates := OracleGates(choice, weight, flag, p, false);
    var u := OracleSum(s, choice, weight, p, v);
    var s' := SetQubit(s, flag, Basis(s.qubits[flag].bit != Marks(s, choice, weight, p, v)));
    assert OracleGates(choice, weight, flag, p, true) == gates + Inverse(sub);
    OracleRunNoCleanUp(s, choice, weight, flag, p, v, d, flip);
    FlagSet(s, choice, weight, flag, p, s.qubits[flag].bit != Marks(s, choice, weight, p, v));
    var back := u - SelectedWeight(s, choice, p.weights, Pairs(choice, p)) - OracleOffset(p.maxWeight);
    SumUndone(s, choice, weight, p, v, back);
    InverseOracleSubTo(s', choice, weight, flag, p, u, back, v, d, flip);
    RunSeq(gates, Inverse(sub), WithBasis(s, weight, v), WithBasis(s', weight, u), WithBasis(s', weight, v), d, flip);
  }

  /** Without clean-up the weight register keeps the sum. */
  lemma OracleRunNoCleanUp(s: QState, choice: Register, weight: Register, flag: nat, p: KnapsackProblem, v: nat, d: nat, flip: bool)
    requires OracleDefined(p) && OracleLayout(s, choice, weight, flag) && weight.size <= d
    ensures Run(OracleGates(choice, weight, flag, p, false), WithBasis(s, weight, v), d, flip)
            == Some(WithBasis(SetQubit(s, flag, Basis(s.qubits[flag].bit != Marks(s, choice, weight, p, v))),
                              weight, OracleSum(s, choice, weight, p, v)))
  {
    var sub := OracleSub(choice, weight, p);
    var high := weight.From(OracleWidth(p.maxWeight));
    var compare := XGates(high) + [MCX(high.QubitList(), flag)] + XGates(high);
    var u := OracleSum(s, choice, weight, p, v);
    var s' := SetQubit(s, flag, Basis(s.qubits[flag].bit != Marks(s, choice, weight, p, v)));
    assert OracleGates(choice, weight, flag, p, false) == sub + compare;
    OracleSubRun(s, choice, weight, flag, p, v, d, flip);
    CompareRun(s, weight, OracleWidth(p.maxWeight), flag, u, d, flip);
    RunSeq(sub, compare, WithBasis(s, weight, v), WithBasis(s, weight, u), WithBasis(s', weight, u), d, flip);
  }

  /** The oracle's purpose: when the weight register starts at 0 and is wide enough that the
      total weight plus w0 does not wrap, it marks exactly the feasible selections. */
  lemma MarksIffFeasible(s: QState, choice: Register, weight: Register, p: KnapsackProblem, x: seq<int>)
    requires OracleDefined(p) && |p.weights| <= choice.size
    requires IsChoice(x, |p.weights|) && ChoiceBits(s, choice, |p.weights|) == x
    requires p.TotalWeight() + OracleOffset(p.maxWeight) < Pow2(weight.size)
    ensures Marks(s, choice, weight, p, 0) <==> IsChoiceFeasible(x, p)
  {
    var w0 := OracleOffset(p.maxWeight);
    assert p.weights[..|p.weights|] == p.weights;
    assert SelectedWeight(s, choice, p.weights, Pairs(choice, p)) == Weight(x, p);
    WeightAtMostTotal(x, p);
    ModOfInRange(Weight(x, p) + w0, Pow2(weight.size));
  }
}

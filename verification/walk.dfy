/** What the single-qubit quantum walk step does to a basis state: it computes "x is feasible"
    into v(x) and "x with item j toggled is feasible" into v(n_j(x)), ands them into v_j(x),
    rotates choice qubit j under that flag, and uncomputes all three flags. In the branch that
    follows the rotation (`flip`) item j is toggled exactly when both x and its neighbour are
    feasible; otherwise the state is unchanged. Either way the flags and the weight register end
    where they started. */
module WalkProofs {
  import opened Arith
  import opened Gates
  import opened Knapsack
  import opened BasisSemantics
  import opened Circuits
  import opened OracleProofs

  /** The walk's qubits: the three flags are distinct, each placed as an oracle flag. */
  predicate WalkLayout(s: QState, choice: Register, weight: Register, flags: Flags, j: nat)
  {
    OracleLayout(s, choice, weight, flags.x) && OracleLayout(s, choice, weight, flags.neighbor) &&
    OracleLayout(s, choice, weight, flags.both) &&
    flags.x != flags.neighbor && flags.x != flags.both && flags.neighbor != flags.both && j < choice.size
  }

  /** The four bits the walk step changes: choice qubit j and the three flags. */
  datatype WalkBits = WalkBits(cj: bool, fx: bool, fn: bool, fb: bool)

  /** s with choice qubit j and the flags set to w. */
  function Config(s: QState, choice: Register, weight: Register, flags: Flags, j: nat, w: WalkBits): (t: QState)
    requires WalkLayout(s, choice, weight, flags, j)
    ensures |t.qubits| == |s.qubits| && t.phase == s.phase
  {
    QState(seq(|s.qubits|, q requires 0 <= q < |s.qubits| =>
      if q == choice.At(j) then Basis(w.cj)
      else if q == flags.x then Basis(w.fx)
      else if q == flags.neighbor then Basis(w.fn)
      else if q == flags.both then Basis(w.fb)
      else s.qubits[q]), s.phase)
  }

  lemma ConfigLayout(s: QState, choice: Register, weight: Register, flags: Flags, j: nat, w: WalkBits)
    requires WalkLayout(s, choice, weight, flags, j)
    ensures WalkLayout(Config(s, choice, weight, flags, j, w), choice, weight, flags, j)
  {
  }

  /** Setting choice qubit j to a basis bit updates w.cj. */
  lemma ConfigSetChoice(s: QState, choice: Register, weight: Register, flags: Flags, j: nat, w: WalkBits, b: bool)
    requires WalkLayout(s, choice, weight, flags, j)
    ensures SetQubit(Config(s, choice, weight, flags, j, w), choice.At(j), Basis(b)) == Config(s, choice, weight, flags, j, w.(cj := b))
  {
  }

  /** Setting the flag of x updates w.fx. */
  lemma ConfigSetX(s: QState, choice: Register, weight: Register, flags: Flags, j: nat, w: WalkBits, b: bool)
    requires WalkLayout(s, choice, weight, flags, j)
    ensures SetQubit(Config(s, choice, weight, flags, j, w), flags.x, Basis(b)) == Config(s, choice, weight, flags, j, w.(fx := b))
  {
  }

  /** Setting the flag of the neighbour updates w.fn. */
  lemma ConfigSetNeighbor(s: QState, choice: Register, weight: Register, flags: Flags, j: nat, w: WalkBits, b: bool)
    requires WalkLayout(s, choice, weight, flags, j)
    ensures SetQubit(Config(s, choice, weight, flags, j, w), flags.neighbor, Basis(b)) == Config(s, choice, weight, flags, j, w.(fn := b))
  {
  }

  /** Setting the conjunction flag updates w.fb. */
  lemma ConfigSetBoth(s: QState, choice: Register, weight: Register, flags: Flags, j: nat, w: WalkBits, b: bool)
    requires WalkLayout(s, choice, weight, flags, j)
    ensures SetQubit(Config(s, choice, weight, flags, j, w), flags.both, Basis(b)) == Config(s, choice, weight, flags, j, w.(fb := b))
  {
  }

  /** The oracle only reads the choice register, so only w.cj matters to it. */
  lemma ConfigChoice(s: QState, choice: Register, weight: Register, flags: Flags, j: nat, w: WalkBits, n: nat)
    requires WalkLayout(s, choice, weight, flags, j) && n <= choice.size
    ensures ChoiceBits(Config(s, choice, weight, flags, j, w), choice, n)
            == ChoiceBits(Config(s, choice, weight, flags, j, WalkBits(w.cj, false, false, false)), choice, n)
  {
  }

  /** Whether the oracle marks the state whose choice qubit j is c (weight register at 0). */
  predicate MarkedWith(s: QState, choice: Register, weight: Register, flags: Flags, j: nat, p: KnapsackProblem, c: bool)
    requires WalkLayout(s, choice, weight, flags, j) && OracleDefined(p)
  {
    Marks(Config(s, choice, weight, flags, j, WalkBits(c, false, false, false)), choice, weight, p, 0)
  }

  lemma ConfigMarks(s: QState, choice: Register, weight: Register, flags: Flags, j: nat, p: KnapsackProblem, w: WalkBits)
    requires WalkLayout(s, choice, weight, flags, j) && OracleDefined(p)
    ensures Marks(Config(s, choice, weight, flags, j, w), choice, weight, p, 0) == MarkedWith(s, choice, weight, flags, j, p, w.cj)
  {
    ConfigChoice(s, choice, weight, flags, j, w, Pairs(choice, p));
  }

  // ---------------------------------------------------------------------------
  // One gate (or one oracle) at a time

  lemma OracleXOnConfig(s: QState, choice: Register, weight: Register, flags: Flags, j: nat, p: KnapsackProblem,
                        w: WalkBits, d: nat, flip: bool)
    requires WalkLayout(s, choice, weight, flags, j) && OracleDefined(p) && weight.size <= d
    ensures Run(OracleGates(choice, weight, flags.x, p, true), WithBasis(Config(s, choice, weight, flags, j, w), weight, 0), d, flip)
            == Some(WithBasis(Config(s, choice, weight, flags, j,
                                     w.(fx := w.fx != MarkedWith(s, choice, weight, flags, j, p, w.cj))), weight, 0))
  {
    var t := Config(s, choice, weight, flags, j, w);
    var b := w.fx != MarkedWith(s, choice, weight, flags, j, p, w.cj);
    ConfigLayout(s, choice, weight, flags, j, w);
    ConfigMarks(s, choice, weight, flags, j, p, w);
    assert t.qubits[flags.x] == Basis(w.fx);
    OracleRun(t, choice, weight, flags.x, p, 0, d, flip);
    ConfigSetX(s, choice, weight, flags, j, w, b);
  }

  lemma OracleNOnConfig(s: QState, choice: Register, weight: Register, flags: Flags, j: nat, p: KnapsackProblem,
                        w: WalkBits, d: nat, flip: bool)
    requires WalkLayout(s, choice, weight, flags, j) && OracleDefined(p) && weight.size <= d
    ensures Run(OracleGates(choice, weight, flags.neighbor, p, true), WithBasis(Config(s, choice, weight, flags, j, w), weight, 0), d, flip)
            == Some(WithBasis(Config(s, choice, weight, flags, j,
                                     w.(fn := w.fn != MarkedWith(s, choice, weight, flags, j, p, w.cj))), weight, 0))
  {
    var t := Config(s, choice, weight, flags, j, w);
    var b := w.fn != MarkedWith(s, choice, weight, flags, j, p, w.cj);
    ConfigLayout(s, choice, weight, flags, j, w);
    ConfigMarks(s, choice, weight, flags, j, p, w);
    assert t.qubits[flags.neighbor] == Basis(w.fn);
    OracleRun(t, choice, weight, flags.neighbor, p, 0, d, flip);
    ConfigSetNeighbor(s, choice, weight, flags, j, w, b);
  }

  lemma XOnConfig(s: QState, choice: Register, weight: Register, flags: Flags, j: nat, w: WalkBits, d: nat, flip: bool)
    requires WalkLayout(s, choice, weight, flags, j)
    ensures Run([X(choice.At(j))], WithBasis(Config(s, choice, weight, flags, j, w), weight, 0), d, flip)
            == Some(WithBasis(Config(s, choice, weight, flags, j, w.(cj := !w.cj)), weight, 0))
  {
    var t := Config(s, choice, weight, flags, j, w);
    var q := choice.At(j);
    RunOne(X(q), WithBasis(t, weight, 0), d, flip);
    WithBasisOutside(t, weight, 0, q, Basis(!w.cj));
    ConfigSetChoice(s, choice, weight, flags, j, w, !w.cj);
  }

  lemma CcxOnConfig(s: QState, choice: Register, weight: Register, flags: Flags, j: nat, w: WalkBits, d: nat, flip: bool)
    requires WalkLayout(s, choice, weight, flags, j)
    ensures Run([CCX(flags.x, flags.neighbor, flags.both)], WithBasis(Config(s, choice, weight, flags, j, w), weight, 0), d, flip)
            == Some(WithBasis(Config(s, choice, weight, flags, j, w.(fb := w.fb != (w.fx && w.fn))), weight, 0))
  {
    var t := Config(s, choice, weight, flags, j, w);
    var b := w.fb != (w.fx && w.fn);
    RunOne(CCX(flags.x, flags.neighbor, flags.both), WithBasis(t, weight, 0), d, flip);
    WithBasisOutside(t, weight, 0, flags.both, Basis(b));
    ConfigSetBoth(s, choice, weight, flags, j, w, b);
  }

  lemma CrxOnConfig(s: QState, choice: Register, weight: Register, flags: Flags, j: nat, w: WalkBits, a: Angle, d: nat, flip: bool)
    requires WalkLayout(s, choice, weight, flags, j)
    ensures Run([CRX(flags.both, choice.At(j), a)], WithBasis(Config(s, choice, weight, flags, j, w), weight, 0), d, flip)
            == Some(WithBasis(Config(s, choice, weight, flags, j, w.(cj := w.cj != (w.fb && flip))), weight, 0))
  {
    var t := Config(s, choice, weight, flags, j, w);
    var q := choice.At(j);
    var b := w.cj != (w.fb && flip);
    RunOne(CRX(flags.both, q, a), WithBasis(t, weight, 0), d, flip);
    WithBasisOutside(t, weight, 0, q, Basis(b));
    ConfigSetChoice(s, choice, weight, flags, j, w, b);
    if !(w.fb && flip) {
      assert t == Config(s, choice, weight, flags, j, w.(cj := b));
    }
  }

  // ---------------------------------------------------------------------------
  // The two halves

  /** ox, x_j, on, x_j, ccx: the flags receive F(x), F(n_j(x)) and their conjunction. */
  lemma ComputeFlags(s: QState, choice: Register, weight: Register, flags: Flags, j: nat, p: KnapsackProblem,
                     c: bool, d: nat, flip: bool)
    requires WalkLayout(s, choice, weight, flags, j) && OracleDefined(p) && weight.size <= d
    ensures var ox := OracleGates(choice, weight, flags.x, p, true);
            var on := OracleGates(choice, weight, flags.neighbor, p, true);
            var xj := [X(choice.At(j))];
            var mx := MarkedWith(s, choice, weight, flags, j, p, c);
            var mn := MarkedWith(s, choice, weight, flags, j, p, !c);
            Run(ox + xj + on + xj + [CCX(flags.x, flags.neighbor, flags.both)],
                WithBasis(Config(s, choice, weight, flags, j, WalkBits(c, false, false, false)), weight, 0), d, flip)
            == Some(WithBasis(Config(s, choice, weight, flags, j, WalkBits(c, mx, mn, mx && mn)), weight, 0))
  {
    var ox := OracleGates(choice, weight, flags.x, p, true);
    var on := OracleGates(choice, weight, flags.neighbor, p, true);
    var xj := [X(choice.At(j))];
    var ccx := [CCX(flags.x, flags.neighbor, flags.both)];
    var mx := MarkedWith(s, choice, weight, flags, j, p, c);
    var mn := MarkedWith(s, choice, weight, flags, j, p, !c);
    var w0, w1, w2 := WalkBits(c, false, false, false), WalkBits(c, mx, false, false), WalkBits(!c, mx, false, false);
    var w3, w4, w5 := WalkBits(!c, mx, mn, false), WalkBits(c, mx, mn, false), WalkBits(c, mx, mn, mx && mn);
    var t0 := WithBasis(Config(s, choice, weight, flags, j, w0), weight, 0);
    var t1 := WithBasis(Config(s, choice, weight, flags, j, w1), weight, 0);
    var t2 := WithBasis(Config(s, choice, weight, flags, j, w2), weight, 0);
    var t3 := WithBasis(Config(s, choice, weight, flags, j, w3), weight, 0);
    var t4 := WithBasis(Config(s, choice, weight, flags, j, w4), weight, 0);
    var t5 := WithBasis(Config(s, choice, weight, flags, j, w5), weight, 0);
    OracleXOnConfig(s, choice, weight, flags, j, p, w0, d, flip);
    XOnConfig(s, choice, weight, flags, j, w1, d, flip);
    OracleNOnConfig(s, choice, weight, flags, j, p, w2, d, flip);
    XOnConfig(s, choice, weight, flags, j, w3, d, flip);
    CcxOnConfig(s, choice, weight, flags, j, w4, d, flip);
    RunSeq(ox, xj, t0, t1, t2, d, flip);
    RunSeq(ox + xj, on, t0, t2, t3, d, flip);
    RunSeq(ox + xj + on, xj, t0, t3, t4, d, flip);
    RunSeq(ox + xj + on + xj, ccx, t0, t4, t5, d, flip);
  }

  /** ccx, x_j, on, x_j, ox: when the flags hold the marks of the current choice bit and of its
      neighbour, they are cleared again. */
  lemma UncomputeFlags(s: QState, choice: Register, weight: Register, flags: Flags, j: nat, p: KnapsackProblem,
                       c: bool, mx: bool, mn: bool, d: nat, flip: bool)
    requires WalkLayout(s, choice, weight, flags, j) && OracleDefined(p) && weight.size <= d
    requires mx == MarkedWith(s, choice, weight, flags, j, p, c)
    requires mn == MarkedWith(s, choice, weight, flags, j, p, !c)
    ensures var ox := OracleGates(choice, weight, flags.x, p, true);
            var on := OracleGates(choice, weight, flags.neighbor, p, true);
            var xj := [X(choice.At(j))];
            Run([CCX(flags.x, flags.neighbor, flags.both)] + xj + on + xj + ox,
                WithBasis(Config(s, choice, weight, flags, j, WalkBits(c, mx, mn, mx && mn)), weight, 0), d, flip)
            == Some(WithBasis(Config(s, choice, weight, flags, j, WalkBits(c, false, false, false)), weight, 0))
  {
    var ox := OracleGates(choice, weight, flags.x, p, true);
    var on := OracleGates(choice, weight, flags.neighbor, p, true);
    var xj := [X(choice.At(j))];
    var ccx := [CCX(flags.x, flags.neighbor, flags.both)];
    var w0, w1, w2 := WalkBits(c, mx, mn, mx && mn), WalkBits(c, mx, mn, false), WalkBits(!c, mx, mn, false);
    var w3, w4, w5 := WalkBits(!c, mx, false, false), WalkBits(c, mx, false, false), WalkBits(c, false, false, false);
    var t0 := WithBasis(Config(s, choice, weight, flags, j, w0), weight, 0);
    var t1 := WithBasis(Config(s, choice, weight, flags, j, w1), weight, 0);
    var t2 := WithBasis(Config(s, choice, weight, flags, j, w2), weight, 0);
    var t3 := WithBasis(Config(s, choice, weight, flags, j, w3), weight, 0);
    var t4 := WithBasis(Config(s, choice, weight, flags, j, w4), weight, 0);
    var t5 := WithBasis(Config(s, choice, weight, flags, j, w5), weight, 0);
    CcxOnConfig(s, choice, weight, flags, j, w0, d, flip);
    XOnConfig(s, choice, weight, flags, j, w1, d, flip);
    OracleNOnConfig(s, choice, weight, flags, j, p, w2, d, flip);
    XOnConfig(s, choice, weight, flags, j, w3, d, flip);
    OracleXOnConfig(s, choice, weight, flags, j, p, w4, d, flip);
    RunSeq(ccx, xj, t0, t1, t2, d, flip);
    RunSeq(ccx + xj, on, t0, t2, t3, d, flip);
    RunSeq(ccx + xj + on, xj, t0, t3, t4, d, flip);
    RunSeq(ccx + xj + on + xj, ox, t0, t4, t5, d, flip);
  }

  /** Whether the walk step moves: the branch follows the rotation and both the current choice
      and its neighbour are marked. */
  predicate MovesWith(s: QState, choice: Register, weight: Register, flags: Flags, j: nat, p: KnapsackProblem, c: bool, flip: bool)
    requires WalkLayout(s, choice, weight, flags, j) && OracleDefined(p)
  {
    flip && MarkedWith(s, choice, weight, flags, j, p, c) && MarkedWith(s, choice, weight, flags, j, p, !c)
  }

  /** The whole walk step on a state whose flags are clear: choice bit j toggles exactly when
      the step moves, and the flags end clear. */
  lemma WalkOnConfig(s: QState, choice: Register, weight: Register, flags: Flags, j: nat, p: KnapsackProblem,
                     c: bool, d: nat, flip: bool)
    requires WalkLayout(s, choice, weight, flags, j) && OracleDefined(p) && weight.size <= d
    ensures Run(WalkGates(choice, weight, flags, p, j),
                WithBasis(Config(s, choice, weight, flags, j, WalkBits(c, false, false, false)), weight, 0), d, flip)
            == Some(WithBasis(Config(s, choice, weight, flags, j,
                                     WalkBits(c != MovesWith(s, choice, weight, flags, j, p, c, flip), false, false, false)), weight, 0))
  {
    var ox := OracleGates(choice, weight, flags.x, p, true);
    var on := OracleGates(choice, weight, flags.neighbor, p, true);
    var xj := [X(choice.At(j))];
    var ccx := [CCX(flags.x, flags.neighbor, flags.both)];
    var crx := [CRX(flags.both, choice.At(j), Angle(2.0, Beta))];
    var first := ox + xj + on + xj + ccx;
    var second := ccx + xj + on + xj + ox;
    assert WalkGates(choice, weight, flags, p, j) == first + crx + second;
    var mx := MarkedWith(s, choice, weight, flags, j, p, c);
    var mn := MarkedWith(s, choice, weight, flags, j, p, !c);
    var c' := c != MovesWith(s, choice, weight, flags, j, p, c, flip);
    var t0 := WithBasis(Config(s, choice, weight, flags, j, WalkBits(c, false, false, false)), weight, 0);
    var t1 := WithBasis(Config(s, choice, weight, flags, j, WalkBits(c, mx, mn, mx && mn)), weight, 0);
    var t2 := WithBasis(Config(s, choice, weight, flags, j, WalkBits(c', mx, mn, mx && mn)), weight, 0);
    var t3 := WithBasis(Config(s, choice, weight, flags, j, WalkBits(c', false, false, false)), weight, 0);
    ComputeFlags(s, choice, weight, flags, j, p, c, d, flip);
    CrxOnConfig(s, choice, weight, flags, j, WalkBits(c, mx, mn, mx && mn), Angle(2.0, Beta), d, flip);
    // After a move both marks were true, so the marks of the new bit and its neighbour agree.
    assert mx == MarkedWith(s, choice, weight, flags, j, p, c');
    assert mn == MarkedWith(s, choice, weight, flags, j, p, !c');
    UncomputeFlags(s, choice, weight, flags, j, p, c', mx, mn, d, flip);
    RunSeq(first, crx, t0, t1, t2, d, flip);
    RunSeq(first + crx, second, t0, t2, t3, d, flip);
  }

  // ---------------------------------------------------------------------------
  // In the problem's terms

  /** The choice register read as a selection of all n items. */
  lemma ConfigSelection(s: QState, choice: Register, weight: Register, flags: Flags, j: nat, n: nat, x: seq<int>, c: bool)
    requires WalkLayout(s, choice, weight, flags, j) && n <= choice.size && j < n
    requires IsChoice(x, n) && ChoiceBits(s, choice, n) == x
    ensures ChoiceBits(Config(s, choice, weight, flags, j, WalkBits(c, false, false, false)), choice, n)
            == if c == (x[j] == 1) then x else Toggle(x, j)
  {
    var t := Config(s, choice, weight, flags, j, WalkBits(c, false, false, false));
    forall i | 0 <= i < n
      ensures ChoiceBits(t, choice, n)[i] == (if c == (x[j] == 1) then x else Toggle(x, j))[i]
    {
      if i != j {
        assert choice.At(i) != choice.At(j);
      }
    }
  }

  /** A state holding selection x with the flags clear. */
  predicate WalkReady(s: QState, choice: Register, weight: Register, flags: Flags, j: nat, p: KnapsackProblem, x: seq<int>)
  {
    WalkLayout(s, choice, weight, flags, j) && |p.weights| <= choice.size && j < |p.weights| &&
    IsChoice(x, |p.weights|) && ChoiceBits(s, choice, |p.weights|) == x &&
    s.qubits[flags.x] == Basis(false) && s.qubits[flags.neighbor] == Basis(false) && s.qubits[flags.both] == Basis(false)
  }

  /** The walk moves between x and n_j(x) only when both are feasible. */
  predicate Moves(x: seq<int>, j: nat, p: KnapsackProblem)
    requires j < |x| == |p.weights|
  {
    IsChoiceFeasible(x, p) && IsChoiceFeasible(Toggle(x, j), p)
  }

  /** The walk step of the source, on a basis state holding selection x with the flags clear and
      the weight register at 0, wide enough not to wrap: in the branch that follows the
      rotation item j is toggled exactly when x and its neighbour are both feasible; everything
      else (flags, weight register, other items) is as before. */
  lemma WalkStep(s: QState, choice: Register, weight: Register, flags: Flags, j: nat, p: KnapsackProblem,
                 x: seq<int>, d: nat, flip: bool)
    requires OracleDefined(p) && weight.size <= d && WalkReady(s, choice, weight, flags, j, p, x)
    requires p.TotalWeight() + OracleOffset(p.maxWeight) < Pow2(weight.size)
    ensures Run(WalkGates(choice, weight, flags, p, j), WithBasis(s, weight, 0), d, flip)
            == Some(WithBasis(if flip && Moves(x, j, p) then SetQubit(s, choice.At(j), Basis(x[j] != 1)) else s, weight, 0))
  {
    var n := |p.weights|;
    var c := x[j] == 1;
    assert s.qubits[choice.At(j)] == Basis(c) by {
      assert ChoiceBits(s, choice, n)[j] == x[j];
    }
    assert Config(s, choice, weight, flags, j, WalkBits(c, false, false, false)) == s;
    ConfigSelection(s, choice, weight, flags, j, n, x, c);
    ConfigSelection(s, choice, weight, flags, j, n, x, !c);
    var tx := Config(s, choice, weight, flags, j, WalkBits(c, false, false, false));
    var tn := Config(s, choice, weight, flags, j, WalkBits(!c, false, false, false));
    assert Toggle(x, j)[j] == 1 - x[j];
    MarksIffFeasible(tx, choice, weight, p, x);
    MarksIffFeasible(tn, choice, weight, p, Toggle(x, j));
    WalkOnConfig(s, choice, weight, flags, j, p, c, d, flip);
    ConfigSetChoice(s, choice, weight, flags, j, WalkBits(c, false, false, false), !c);
  }

  /** Moving is symmetric: n_j(x) moves back to x exactly when x moves to n_j(x). */
  lemma MovesSymmetric(x: seq<int>, j: nat, p: KnapsackProblem)
    requires j < |x| == |p.weights|
    ensures Moves(Toggle(x, j), j, p) <==> Moves(x, j, p)
  {
    assert Toggle(Toggle(x, j), j) == x;
  }
}

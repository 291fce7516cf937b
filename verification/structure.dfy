/** Facts about the shape of the generated gate lists: what the QFT and the adder emit, which
    symbolic parameters each circuit carries, how the mixer binds its walk steps, and the phase
    the phase separator puts on a basis state. */
module CircuitFacts {
  import opened Arith
  import opened Gates
  import opened Knapsack
  import opened BasisSemantics
  import opened Circuits
  import opened OracleProofs

  // ---------------------------------------------------------------------------
  // The QFT

  /** A QFT gate: H on a register qubit, or the controlled phase 2*pi/2^k between register
      qubits idx (control) and c_idx < idx (target) with k = idx - c_idx + 1. */
  predicate QftShaped(g: Gate, r: Register)
  {
    (g.H? && r.Contains(g.q)) ||
    (g.CP? && r.Contains(g.control) && r.Contains(g.target) && g.target < g.control &&
     g.turn == Turn(false, g.control - g.target + 1))
  }

  predicate AllQftShaped(gs: seq<Gate>, r: Register)
  {
    forall i :: 0 <= i < |gs| ==> QftShaped(gs[i], r)
  }

  function HCount(gs: seq<Gate>): nat
  {
    if gs == [] then 0 else (if gs[0].H? then 1 else 0) + HCount(gs[1..])
  }

  function CPCount(gs: seq<Gate>): nat
  {
    if gs == [] then 0 else (if gs[0].CP? then 1 else 0) + CPCount(gs[1..])
  }

  lemma {:induction false} CountAppend(a: seq<Gate>, b: seq<Gate>)
    ensures HCount(a + b) == HCount(a) + HCount(b)
    ensures CPCount(a + b) == CPCount(a) + CPCount(b)
  {
    if a == [] {
      assert a + b == b;
    } else {
      assert (a + b)[1..] == a[1..] + b;
      CountAppend(a[1..], b);
    }
  }

  lemma {:induction false} RotationsShape(r: Register, idx: nat, j: nat)
    requires j <= idx < r.size
    ensures AllQftShaped(QftRotations(r, idx, j), r)
    ensures HCount(QftRotations(r, idx, j)) == 0 && CPCount(QftRotations(r, idx, j)) == idx - j
    decreases idx - j
  {
    if j < idx {
      var g := CP(r.At(idx), r.At(j), Turn(false, idx - j + 1));
      RotationsShape(r, idx, j + 1);
      CountAppend(QftRotations(r, idx, j + 1), [g]);
      assert HCount([g]) == 0 && CPCount([g]) == 1 by {
        assert [g][1..] == [];
      }
    }
  }

  lemma {:induction false} QftFromShape(r: Register, i: nat)
    requires i <= r.size
    ensures AllQftShaped(QftFrom(r, i), r)
    decreases r.size - i
  {
    if i < r.size {
      QftFromShape(r, i + 1);
      RotationsShape(r, i, 0);
    }
  }

  lemma {:induction false} QftFromCounts(r: Register, i: nat)
    requires i <= r.size
    ensures HCount(QftFrom(r, i)) == r.size - i
    ensures 2 * CPCount(QftFrom(r, i)) == r.size * (r.size - 1) - i * (i - 1)
    decreases r.size - i
  {
    if i < r.size {
      QftFromCounts(r, i + 1);
      StepCounts(r, i);
      CountAppend(QftFrom(r, i + 1), QftStep(r, i));
      PairsStep(r.size, i, CPCount(QftFrom(r, i + 1)));
    }
  }

  /** One QFT step is one H followed by idx controlled phases. */
  lemma StepCounts(r: Register, idx: nat)
    requires idx < r.size
    ensures HCount(QftStep(r, idx)) == 1 && CPCount(QftStep(r, idx)) == idx
  {
    var h := [H(r.At(idx))];
    RotationsShape(r, idx, 0);
    CountAppend(h, QftRotations(r, idx, 0));
    assert h[1..] == [];
  }

  /** Adding the idx phases of step idx to those of the later steps. */
  lemma PairsStep(n: int, i: int, c: int)
    requires 2 * c == n * (n - 1) - (i + 1) * i
    ensures 2 * (c + i) == n * (n - 1) - i * (i - 1)
  {
    assert (i + 1) * i == i * (i - 1) + 2 * i;
  }

  /** `QFT(register)` on an n-qubit register emits n H gates and n(n-1)/2 controlled phases, all
      within the register, each phase from a qubit idx to a lower c_idx with exponent
      idx - c_idx + 1, so between 2 and n. */
  lemma QftShape(r: Register)
    ensures AllQftShaped(QftGates(r), r)
    ensures HCount(QftGates(r)) == r.size
    ensures 2 * CPCount(QftGates(r)) == r.size * (r.size - 1)
    ensures forall i :: 0 <= i < |QftGates(r)| && QftGates(r)[i].CP? ==> 2 <= QftGates(r)[i].turn.k <= r.size
  {
    QftFromShape(r, 0);
    QftFromCounts(r, 0);
  }

  // ---------------------------------------------------------------------------
  // The adder

  /** An adder gate: the phase 2*pi/2^k (k >= 1) on a register qubit, as `p` without a control
      and as `cp` with the control qubit otherwise. */
  predicate AdderShaped(g: Gate, r: Register, control: Option<nat>)
  {
    match control
    case None => g.P? && r.Contains(g.q) && !g.turn.neg && g.turn.k >= 1
    case Some(c) => g.CP? && g.target == c && r.Contains(g.control) && !g.turn.neg && g.turn.k >= 1
  }

  predicate AllAdderShaped(gs: seq<Gate>, r: Register, control: Option<nat>)
  {
    forall i :: 0 <= i < |gs| ==> AdderShaped(gs[i], r, control)
  }

  lemma {:induction false} PowerTwoShape(r: Register, control: Option<nat>, k: nat, i: nat)
    requires i <= r.size
    ensures AllAdderShaped(PowerTwoGates(r, control, k, i), r, control)
  {
    if i > 0 {
      PowerTwoShape(r, control, k, i - 1);
    }
  }

  lemma {:induction false} AdditionFromShape(r: Register, n: nat, control: Option<nat>, j: nat)
    requires j <= |Bits(n)|
    ensures AllAdderShaped(AdditionFrom(r, n, control, j), r, control)
  {
    if j > 0 {
      AdditionFromShape(r, n, control, j - 1);
      PowerTwoShape(r, control, j - 1, r.size);
    }
  }

  /** `Addition(register, n, control)` emits only phases on register qubits: `p` gates without a
      control, `cp` gates to the control qubit with one. */
  lemma AdditionShape(r: Register, n: nat, control: Option<nat>)
    ensures AllAdderShaped(AdditionGates(r, n, control), r, control)
  {
    AdditionFromShape(r, n, control, |Bits(n)|);
  }

  // ---------------------------------------------------------------------------
  // Symbolic parameters

  /** No gate of gs carries a symbolic angle. */
  predicate Fixed(gs: seq<Gate>)
  {
    forall i :: 0 <= i < |gs| ==> !gs[i].CRX? && !gs[i].PhaseParam?
  }

  lemma {:induction false} FixedParams(gs: seq<Gate>, q: nat)
    requires Fixed(gs)
    ensures Params(gs) == {} && CrxCoeffOn(gs, q) == 0.0
  {
    if gs != [] {
      FixedParams(gs[1..], q);
    }
  }

  lemma {:induction false} InverseFixed(gs: seq<Gate>)
    requires Fixed(gs)
    ensures Fixed(Inverse(gs))
  {
    if gs != [] {
      InverseFixed(gs[1..]);
    }
  }

  lemma {:induction false} ControlledAdditionsFixed(choice: Register, weight: Register, weights: seq<int>, j: nat)
    requires j <= |weights| && forall i :: 0 <= i < |weights| ==> weights[i] >= 0
    ensures Fixed(ControlledAdditions(choice, weight, weights, j))
  {
    if j > 0 {
      ControlledAdditionsFixed(choice, weight, weights, j - 1);
      AdditionShape(weight, weights[j - 1] as nat, Some(choice.At(j - 1)));
    }
  }

  /** The feasibility oracle is made of fixed-angle gates only. */
  lemma OracleFixed(choice: Register, weight: Register, flag: nat, p: KnapsackProblem, cleanUp: bool)
    requires OracleDefined(p)
    ensures Fixed(OracleGates(choice, weight, flag, p, cleanUp))
  {
    QftShape(weight);
    InverseFixed(QftGates(weight));
    ControlledAdditionsFixed(choice, weight, p.weights, ZipLength(choice, |p.weights|));
    AdditionShape(weight, OracleOffset(p.maxWeight), None);
    InverseFixed(OracleSub(choice, weight, p));
  }

  /** Binding `from` to `to` replaces it among the parameters. */
  lemma {:induction false} ParamsBind(gs: seq<Gate>, from: Param, to: Angle)
    ensures Params(Bind(gs, from, to)) == (Params(gs) - {from}) + (if from in Params(gs) then {to.param} else {})
  {
    if gs != [] {
      assert Bind(gs, from, to)[1..] == Bind(gs[1..], from, to);
      ParamsBind(gs[1..], from, to);
    }
  }

  /** A CRX rotation of the walk step: the only gates with a symbolic angle, and all use `beta`. */
  lemma WalkParams(choice: Register, weight: Register, flags: Flags, p: KnapsackProblem, j: nat, q: nat)
    requires OracleDefined(p)
    ensures Params(WalkGates(choice, weight, flags, p, j)) == {Beta}
    ensures CrxCoeffOn(WalkGates(choice, weight, flags, p, j), q) == if q == choice.At(j) then 2.0 else 0.0
    ensures forall i :: 0 <= i < |WalkGates(choice, weight, flags, p, j)| && WalkGates(choice, weight, flags, p, j)[i].CRX?
                        ==> WalkGates(choice, weight, flags, p, j)[i].angle == Angle(2.0, Beta)
  {
    OracleFixed(choice, weight, flags.x, p, true);
    OracleFixed(choice, weight, flags.neighbor, p, true);
    WalkAroundFacts(OracleGates(choice, weight, flags.x, p, true), OracleGates(choice, weight, flags.neighbor, p, true),
                    flags, choice.At(j), q);
  }

  /** The walk step around any two fixed-angle oracles has the one CRX rotation 2*beta on qj. */
  lemma WalkAroundFacts(ox: seq<Gate>, on: seq<Gate>, flags: Flags, qj: nat, q: nat)
    requires Fixed(ox) && Fixed(on)
    ensures Params(WalkAround(ox, on, flags, qj)) == {Beta}
    ensures CrxCoeffOn(WalkAround(ox, on, flags, qj), q) == if q == qj then 2.0 else 0.0
    ensures forall i :: 0 <= i < |WalkAround(ox, on, flags, qj)| && WalkAround(ox, on, flags, qj)[i].CRX?
                        ==> WalkAround(ox, on, flags, qj)[i].angle == Angle(2.0, Beta)
  {
    var before := ox + [X(qj)] + on + [X(qj)] + [CCX(flags.x, flags.neighbor, flags.both)];
    var after := [CCX(flags.x, flags.neighbor, flags.both)] + [X(qj)] + on + [X(qj)] + ox;
    assert Fixed(before) && Fixed(after);
    assert WalkAround(ox, on, flags, qj) == before + [CRX(flags.both, qj, Angle(2.0, Beta))] + after;
    SandwichFacts(before, CRX(flags.both, qj, Angle(2.0, Beta)), after, q);
  }

  // ---------------------------------------------------------------------------
  // The mixer

  /** Binding a parameter leaves a list of fixed-angle gates as it is. */
  lemma BindFixed(gs: seq<Gate>, from: Param, to: Angle)
    requires Fixed(gs)
    ensures Bind(gs, from, to) == gs
  {
    forall i | 0 <= i < |gs| ensures Bind(gs, from, to)[i] == gs[i] {
    }
  }

  /** A walk step bound to unit * beta is the same sandwich around the one rotation, now
      crx(2 * unit * beta). */
  lemma BoundWalkAround(ox: seq<Gate>, on: seq<Gate>, flags: Flags, qj: nat, unit: real)
    requires Fixed(ox) && Fixed(on)
    ensures Bind(WalkAround(ox, on, flags, qj), Beta, Angle(unit, Beta))
            == (ox + [X(qj)] + on + [X(qj)] + [CCX(flags.x, flags.neighbor, flags.both)]) +
               [CRX(flags.both, qj, Angle(2.0 * unit, Beta))] +
               ([CCX(flags.x, flags.neighbor, flags.both)] + [X(qj)] + on + [X(qj)] + ox)
  {
    var to := Angle(unit, Beta);
    var before := ox + [X(qj)] + on + [X(qj)] + [CCX(flags.x, flags.neighbor, flags.both)];
    var crx := [CRX(flags.both, qj, Angle(2.0, Beta))];
    var after := [CCX(flags.x, flags.neighbor, flags.both)] + [X(qj)] + on + [X(qj)] + ox;
    assert Fixed(before) && Fixed(after);
    assert WalkAround(ox, on, flags, qj) == before + crx + after;
    BindAppend(before + crx, after, Beta, to);
    BindAppend(before, crx, Beta, to);
    BindFixed(before, Beta, to);
    BindFixed(after, Beta, to);
    assert Bind(crx, Beta, to) == [CRX(flags.both, qj, Angle(2.0 * unit, Beta))];
  }

  /** Fixed-angle gates around one CRX: its parameter is the only one, its coefficient the only
      one on its target, its angle the only CRX angle. */
  lemma SandwichFacts(before: seq<Gate>, g: Gate, after: seq<Gate>, q: nat)
    requires Fixed(before) && Fixed(after) && g.CRX?
    ensures Params(before + [g] + after) == {g.angle.param}
    ensures CrxCoeffOn(before + [g] + after, q) == if q == g.target then g.angle.coeff else 0.0
    ensures forall i :: 0 <= i < |before + [g] + after| && (before + [g] + after)[i].CRX?
                        ==> (before + [g] + after)[i].angle == g.angle
  {
    FixedParams(before, q);
    FixedParams(after, q);
    ParamsAppend(before, [g]);
    ParamsAppend(before + [g], after);
    CrxCoeffOnAppend(before, [g], q);
    CrxCoeffOnAppend(before + [g], after, q);
    assert [g][1..] == [];
  }

  /** The rotation a round of the mixer puts on choice qubit k: 2*beta/m when k is among the
      items walked so far. */
  lemma {:induction false} WalkRoundFacts(ox: seq<Gate>, on: seq<Gate>, choice: Register, flags: Flags, m: nat, j: nat, k: nat)
    requires Fixed(ox) && Fixed(on) && m >= 1
    ensures Params(WalkRound(ox, on, choice, flags, m, j)) == if j == 0 then {} else {Beta}
    ensures CrxCoeffOn(WalkRound(ox, on, choice, flags, m, j), choice.At(k)) == if k < j then 2.0 / (m as real) else 0.0
    ensures forall i :: 0 <= i < |WalkRound(ox, on, choice, flags, m, j)| && WalkRound(ox, on, choice, flags, m, j)[i].CRX?
                        ==> WalkRound(ox, on, choice, flags, m, j)[i].angle == Angle(2.0 / (m as real), Beta)
  {
    if j > 0 {
      var prev := WalkRound(ox, on, choice, flags, m, j - 1);
      var bound := Bind(WalkAround(ox, on, flags, choice.At(j - 1)), Beta, Angle(1.0 / (m as real), Beta));
      WalkRoundFacts(ox, on, choice, flags, m, j - 1, k);
      TwoOverM(m);
      BoundStepFacts(ox, on, flags, choice.At(j - 1), choice.At(k), 1.0 / (m as real), 2.0 / (m as real));
      RoundStepFacts(prev, bound, 2.0 / (m as real), j, k, choice.At(k), choice.At(j - 1));
    }
  }

  /** A walk step on qj bound to unit * beta, where share = 2 * unit: beta is its only
      parameter and its one rotation, by share * beta, is on qj. */
  lemma BoundStepFacts(ox: seq<Gate>, on: seq<Gate>, flags: Flags, qj: nat, q: nat, unit: real, share: real)
    requires Fixed(ox) && Fixed(on) && 2.0 * unit == share
    ensures Params(Bind(WalkAround(ox, on, flags, qj), Beta, Angle(unit, Beta))) == {Beta}
    ensures CrxCoeffOn(Bind(WalkAround(ox, on, flags, qj), Beta, Angle(unit, Beta)), q) == if q == qj then share else 0.0
    ensures forall i :: 0 <= i < |Bind(WalkAround(ox, on, flags, qj), Beta, Angle(unit, Beta))| &&
                        Bind(WalkAround(ox, on, flags, qj), Beta, Angle(unit, Beta))[i].CRX?
                        ==> Bind(WalkAround(ox, on, flags, qj), Beta, Angle(unit, Beta))[i].angle == Angle(share, Beta)
  {
    var before := ox + [X(qj)] + on + [X(qj)] + [CCX(flags.x, flags.neighbor, flags.both)];
    var after := [CCX(flags.x, flags.neighbor, flags.both)] + [X(qj)] + on + [X(qj)] + ox;
    assert Fixed(before) && Fixed(after);
    BoundWalkAround(ox, on, flags, qj, unit);
    SandwichFacts(before, CRX(flags.both, qj, Angle(share, Beta)), after, q);
  }

  /** One more bound walk step after the first j - 1: the facts of the round carry over. */
  lemma RoundStepFacts(prev: seq<Gate>, bound: seq<Gate>, share: real, j: nat, k: nat, qk: nat, qj: nat)
    requires j > 0 && (qk == qj <==> k == j - 1)
    requires Params(prev) == (if j - 1 == 0 then {} else {Beta})
    requires CrxCoeffOn(prev, qk) == (if k < j - 1 then share else 0.0)
    requires forall i :: 0 <= i < |prev| && prev[i].CRX? ==> prev[i].angle == Angle(share, Beta)
    requires Params(bound) == {Beta}
    requires CrxCoeffOn(bound, qk) == (if qk == qj then share else 0.0)
    requires forall i :: 0 <= i < |bound| && bound[i].CRX? ==> bound[i].angle == Angle(share, Beta)
    ensures Params(prev + bound) == {Beta}
    ensures CrxCoeffOn(prev + bound, qk) == if k < j then share else 0.0
    ensures forall i :: 0 <= i < |prev + bound| && (prev + bound)[i].CRX? ==> (prev + bound)[i].angle == Angle(share, Beta)
  {
    AppendFacts(prev, bound, qk, Angle(share, Beta));
    UnionStep(Params(prev), Params(bound), Params(prev + bound), j);
    CoeffStep(CrxCoeffOn(prev, qk), CrxCoeffOn(bound, qk), CrxCoeffOn(prev + bound, qk), k, j, share, qk == qj);
  }

  /** Parameters and CRX coefficients add up over a concatenation, and a common CRX angle
      carries over to it. */
  lemma AppendFacts(a: seq<Gate>, b: seq<Gate>, q: nat, angle: Angle)
    requires forall i :: 0 <= i < |a| && a[i].CRX? ==> a[i].angle == angle
    requires forall i :: 0 <= i < |b| && b[i].CRX? ==> b[i].angle == angle
    ensures Params(a + b) == Params(a) + Params(b)
    ensures CrxCoeffOn(a + b, q) == CrxCoeffOn(a, q) + CrxCoeffOn(b, q)
    ensures forall i :: 0 <= i < |a + b| && (a + b)[i].CRX? ==> (a + b)[i].angle == angle
  {
    ParamsAppend(a, b);
    CrxCoeffOnAppend(a, b, q);
    forall i | |a| <= i < |a + b| ensures (a + b)[i] == b[i - |a|] {
    }
  }

  lemma UnionStep(before: set<Param>, step: set<Param>, after: set<Param>, j: nat)
    requires j > 0 && before == (if j - 1 == 0 then {} else {Beta}) && step == {Beta} && after == before + step
    ensures after == {Beta}
  {
  }

  lemma TwoOverM(m: nat)
    requires m >= 1
    ensures 2.0 * (1.0 / (m as real)) == 2.0 / (m as real)
  {
  }

  lemma CoeffStep(before: real, step: real, after: real, k: nat, j: nat, share: real, same: bool)
    requires j > 0 && (same <==> k == j - 1)
    requires before == (if k < j - 1 then share else 0.0) && step == (if same then share else 0.0)
    requires after == before + step
    ensures after == if k < j then share else 0.0
  {
  }

  lemma {:induction false} MixerRoundsFacts(ox: seq<Gate>, on: seq<Gate>, choice: Register, flags: Flags,
                                            n: nat, m: nat, t: nat, k: nat)
    requires Fixed(ox) && Fixed(on) && 1 <= m && t <= m
    ensures Params(MixerRounds(ox, on, choice, flags, n, m, t)) == if t == 0 || n == 0 then {} else {Beta}
    ensures CrxCoeffOn(MixerRounds(ox, on, choice, flags, n, m, t), choice.At(k))
            == if k < n then (t as real) * (2.0 / (m as real)) else 0.0
    ensures forall i :: 0 <= i < |MixerRounds(ox, on, choice, flags, n, m, t)| && MixerRounds(ox, on, choice, flags, n, m, t)[i].CRX?
                        ==> MixerRounds(ox, on, choice, flags, n, m, t)[i].angle == Angle(2.0 / (m as real), Beta)
  {
    if t > 0 {
      var prev := MixerRounds(ox, on, choice, flags, n, m, t - 1);
      var round := WalkRound(ox, on, choice, flags, m, n);
      MixerRoundsFacts(ox, on, choice, flags, n, m, t - 1, k);
      WalkRoundFacts(ox, on, choice, flags, m, n, k);
      AppendFacts(prev, round, choice.At(k), Angle(2.0 / (m as real), Beta));
      RoundsCoeffStep(CrxCoeffOn(prev, choice.At(k)), CrxCoeffOn(round, choice.At(k)), CrxCoeffOn(prev + round, choice.At(k)),
                      t, k < n, 2.0 / (m as real));
    }
  }

  lemma RoundsCoeffStep(before: real, step: real, after: real, t: nat, walked: bool, share: real)
    requires t > 0 && after == before + step
    requires before == (if walked then ((t - 1) as real) * share else 0.0) && step == (if walked then share else 0.0)
    ensures after == if walked then (t as real) * share else 0.0
  {
  }

  /** `QWMixer` runs m rounds over all N items, each walk step bound to beta/m: every rotation
      has the angle 2*beta/m, the rotations on each item sum to 2*beta, and beta is the only
      parameter left. */
  lemma MixerFacts(choice: Register, weight: Register, flags: Flags, p: KnapsackProblem, m: nat, k: nat)
    requires OracleDefined(p) && m >= 1 && k < |p.weights|
    ensures Params(MixerGates(choice, weight, flags, p, m)) == {Beta}
    ensures CrxCoeffOn(MixerGates(choice, weight, flags, p, m), choice.At(k)) == 2.0
    ensures forall i :: 0 <= i < |MixerGates(choice, weight, flags, p, m)| && MixerGates(choice, weight, flags, p, m)[i].CRX?
                        ==> MixerGates(choice, weight, flags, p, m)[i].angle == Angle(2.0 / (m as real), Beta)
  {
    OracleFixed(choice, weight, flags.x, p, true);
    OracleFixed(choice, weight, flags.neighbor, p, true);
    MixerRoundsFacts(OracleGates(choice, weight, flags.x, p, true), OracleGates(choice, weight, flags.neighbor, p, true),
                     choice, flags, |p.weights|, m, m, k);
    MTimesTwoOverM(m);
  }

  lemma MTimesTwoOverM(m: nat)
    requires m >= 1
    ensures (m as real) * (2.0 / (m as real)) == 2.0
  {
  }

  // ---------------------------------------------------------------------------
  // The phase separator

  /** The coefficient of the symbolic phase the diagonal gates of gs put on basis state s: the
      sum of the angles of the `p` gates whose qubit is 1. */
  function PhaseOnBasis(gs: seq<Gate>, s: QState): real
  {
    if gs == [] then 0.0
    else (if gs[0].PhaseParam? && IsOne(s, gs[0].q) then gs[0].angle.coeff else 0.0) + PhaseOnBasis(gs[1..], s)
  }

  lemma {:induction false} PhaseOnBasisAppend(a: seq<Gate>, b: seq<Gate>, s: QState)
    ensures PhaseOnBasis(a + b, s) == PhaseOnBasis(a, s) + PhaseOnBasis(b, s)
  {
    if a == [] {
      assert a + b == b;
    } else {
      assert (a + b)[1..] == a[1..] + b;
      PhaseOnBasisAppend(a[1..], b, s);
    }
  }

  lemma {:induction false} DephasePrefix(choice: Register, values: seq<real>, s: QState, j: nat)
    requires j <= ZipLength(choice, |values|)
    ensures PhaseOnBasis(DephaseGates(choice, values)[..j], s) == -Dot(ChoiceBits(s, choice, j), values[..j])
  {
    if j > 0 {
      var gs := DephaseGates(choice, values);
      DephasePrefix(choice, values, s, j - 1);
      assert gs[..j] == gs[..j - 1] + [gs[j - 1]];
      PhaseOnBasisAppend(gs[..j - 1], [gs[j - 1]], s);
      assert [gs[j - 1]][1..] == [];
      DotLast(ChoiceBits(s, choice, j), values[..j]);
      assert ChoiceBits(s, choice, j)[..j - 1] == ChoiceBits(s, choice, j - 1);
      assert values[..j][..j - 1] == values[..j - 1];
    }
  }

  /** `Dephase` puts the phase -gamma * value(x) on the basis state of selection x. */
  lemma DephasePhase(choice: Register, p: KnapsackProblem, s: QState)
    requires |p.values| <= choice.size
    ensures PhaseOnBasis(DephaseGates(choice, p.values), s) == -Value(ChoiceBits(s, choice, |p.values|), p)
  {
    var gs := DephaseGates(choice, p.values);
    DephasePrefix(choice, p.values, s, |p.values|);
    assert gs[..|gs|] == gs;
    assert p.values[..|p.values|] == p.values;
  }

  /** `Dephase` carries the one parameter gamma (when there is an item). */
  lemma DephaseParams(choice: Register, values: seq<real>)
    ensures Params(DephaseGates(choice, values)) == if ZipLength(choice, |values|) == 0 then {} else {Gamma}
  {
    DephaseParamsFrom(DephaseGates(choice, values));
  }

  lemma {:induction false} DephaseParamsFrom(gs: seq<Gate>)
    requires forall i :: 0 <= i < |gs| ==> gs[i].PhaseParam? && gs[i].angle.param == Gamma
    ensures Params(gs) == if gs == [] then {} else {Gamma}
  {
    if gs != [] {
      DephaseParamsFrom(gs[1..]);
    }
  }
}

/** The quantum-walk QAOA ansatz (backend_theoretical/QAOA.py): a choice register of one qubit
    per item, a weight register, three flag qubits, and p layers each made of the phase
    separator bound to gamma{i} and the walk mixer bound to beta{i}. Angles are symbolic, in
    radians; the ranges the optimiser searches are given in units of pi. */
module Qaoa {
  import opened Arith
  import opened Gates
  import opened Knapsack
  import opened BasisSemantics
  import opened Circuits
  import opened OracleProofs
  import opened WalkProofs
  import opened CircuitFacts
  import opened Footprint

  /** What building the ansatz needs: the logarithms of the total and the maximum weight exist,
      and the oracle's additions see non-negative weights. */
  predicate QaoaDefined(p: KnapsackProblem)
  {
    OracleDefined(p) && p.TotalWeight() >= 1
  }

  // ---------------------------------------------------------------------------
  // Sizing the weight register

  /** The width as written: floor(log2 total) + 1 bits, one more when that equals the bit
      length c of max_weight. */
  function WeightWidth(p: KnapsackProblem): nat
    requires QaoaDefined(p)
  {
    var n := BitLength(p.TotalWeight());
    if OracleWidth(p.maxWeight) == n then n + 1 else n
  }

  /** What that width provides: it holds the total weight, and when max_weight does not exceed
      the total it is wider than the comparison width c. It does not provide room for the
      total plus the oracle's offset w0, which the oracle adds. */
  lemma WeightWidthHoldsTotal(p: KnapsackProblem)
    requires QaoaDefined(p)
    ensures p.TotalWeight() < Pow2(WeightWidth(p))
    ensures p.maxWeight <= p.TotalWeight() ==> OracleWidth(p.maxWeight) < WeightWidth(p)
  {
    var n := BitLength(p.TotalWeight());
    BitLengthBounds(p.TotalWeight());
    if p.maxWeight <= p.TotalWeight() {
      BitLengthMonotone(p.maxWeight, p.TotalWeight());
    }
    Pow2MonotoneEq(n, WeightWidth(p));
  }

  /** Seven items of weight 1 under max_weight 2. */
  function WrapExample(): (p: KnapsackProblem)
    ensures QaoaDefined(p) && p.WellFormed() && p.TotalWeight() == 7
  {
    var w := [1, 1, 1, 1, 1, 1, 1];
    assert Sum(w[6..]) == 1 by { assert w[6..][1..] == []; }
    assert Sum(w[5..]) == 2 by { assert w[5..][1..] == w[6..]; }
    assert Sum(w[4..]) == 3 by { assert w[4..][1..] == w[5..]; }
    assert Sum(w[3..]) == 4 by { assert w[3..][1..] == w[4..]; }
    assert Sum(w[2..]) == 5 by { assert w[2..][1..] == w[3..]; }
    assert Sum(w[1..]) == 6 by { assert w[1..][1..] == w[2..]; }
    var p := KnapsackProblem([1.0, 1.0, 1.0, 1.0, 1.0, 1.0, 1.0], w, 2);
    p
  }

  /** The sizes in the example: n = 3, c = 2 and w0 = 1. */
  lemma WrapExampleSizes()
    ensures WeightWidth(WrapExample()) == 3
    ensures OracleWidth(WrapExample().maxWeight) == 2 && OracleOffset(WrapExample().maxWeight) == 1
  {
    BitLengthUnique(7, 3);
    BitLengthUnique(2, 2);
  }

  /** Thirteen qubits (the ansatz's 7 + 3 + 3) all holding 1. */
  function WrapState(): QState
  {
    QState(seq(13, _ => Basis(true)), 0)
  }

  /** In that state the oracle reads the full selection, of weight 7. */
  lemma WrapStateSelectsAll()
    ensures ChoiceBits(WrapState(), Register(0, 7), 7) == Ones(7)
    ensures SelectedWeight(WrapState(), Register(0, 7), WrapExample().weights, 7) == 7
  {
    var p := WrapExample();
    assert ChoiceBits(WrapState(), Register(0, 7), 7) == Ones(7);
    FullChoiceWeighsTotal(p);
    assert p.weights[..7] == p.weights;
  }

  /** The sized-as-written register wraps: with seven unit weights and max_weight 2 the
      register has 3 qubits, the oracle adds w0 = 1 to the selected weight, and the full
      selection (weight 7) leaves 8 mod 8 = 0 < 2^2 in the register, so the oracle marks it
      feasible although 7 > 2. */
  lemma WeightWidthWraps()
    ensures WeightWidth(WrapExample()) == 3
    ensures ChoiceBits(WrapState(), Register(0, 7), 7) == Ones(7)
    ensures !IsChoiceFeasible(Ones(7), WrapExample())
    ensures Marks(WrapState(), Register(0, 7), Register(7, WeightWidth(WrapExample())), WrapExample(), 0)
  {
    var p := WrapExample();
    var choice := Register(0, 7);
    WrapExampleSizes();
    WrapStateSelectsAll();
    FullChoiceWeighsTotal(p);
    assert Pairs(choice, p) == 7;
    assert OracleSum(WrapState(), choice, Register(7, 3), p, 0) == (0 + 7 + 1) % Pow2(3);
    assert Pow2(3) == 8;
  }

  /** The width the oracle needs: room for the total weight plus the offset w0 the oracle
      adds, and at least one bit above the comparison width c. */
  function SafeWeightWidth(p: KnapsackProblem): nat
    requires QaoaDefined(p)
  {
    var n := BitLength(p.TotalWeight() + OracleOffset(p.maxWeight));
    var c := OracleWidth(p.maxWeight);
    if n <= c then c + 1 else n
  }

  /** The corrected width meets what the oracle's correctness needs: the sum never wraps and
      the comparison has a high bit to test. */
  lemma SafeWeightWidthSuffices(p: KnapsackProblem)
    requires QaoaDefined(p)
    ensures OracleWidth(p.maxWeight) < SafeWeightWidth(p)
    ensures p.TotalWeight() + OracleOffset(p.maxWeight) < Pow2(SafeWeightWidth(p))
  {
    var v := p.TotalWeight() + OracleOffset(p.maxWeight);
    BitLengthBounds(v);
    Pow2MonotoneEq(BitLength(v), SafeWeightWidth(p));
  }

  /** The correction only widens the register as written, and with the wider register the
      oracle marks exactly the feasible selections. */
  lemma SafeWeightWidthWidens(p: KnapsackProblem, s: QState, choice: Register, x: seq<int>)
    requires QaoaDefined(p) && |p.weights| <= choice.size
    requires IsChoice(x, |p.weights|) && ChoiceBits(s, choice, |p.weights|) == x
    ensures WeightWidth(p) <= SafeWeightWidth(p)
    ensures Marks(s, choice, Register(choice.start + choice.size, SafeWeightWidth(p)), p, 0) <==> IsChoiceFeasible(x, p)
  {
    BitLengthMonotone(p.TotalWeight(), p.TotalWeight() + OracleOffset(p.maxWeight));
    SafeWeightWidthSuffices(p);
    MarksIffFeasible(s, choice, Register(choice.start + choice.size, SafeWeightWidth(p)), p, x);
  }

  // ---------------------------------------------------------------------------
  // Registers and layers

  function ChoiceRegister(p: KnapsackProblem): Register
  {
    Register(0, p.N())
  }

  /** The weight register of width n, after the choice register. */
  function SizedWeightRegister(p: KnapsackProblem, n: nat): Register
  {
    Register(p.N(), n)
  }

  /** The flags v(x), v(n_j(x)) and v_j(x), after a weight register of width n. */
  function SizedFlags(p: KnapsackProblem, n: nat): Flags
  {
    var f := p.N() + n;
    Flags(f, f + 1, f + 2)
  }

  function SizedQubitCount(p: KnapsackProblem, n: nat): nat
  {
    p.N() + n + 3
  }

  /** The registers of the ansatz, with the corrected width. */
  function WeightRegister(p: KnapsackProblem): Register
    requires QaoaDefined(p)
  {
    SizedWeightRegister(p, SafeWeightWidth(p))
  }

  function FlagQubits(p: KnapsackProblem): Flags
    requires QaoaDefined(p)
  {
    SizedFlags(p, SafeWeightWidth(p))
  }

  function NumQubits(p: KnapsackProblem): nat
    requires QaoaDefined(p)
  {
    SizedQubitCount(p, SafeWeightWidth(p))
  }

  /** A qubit is one of the three flags. */
  predicate IsFlag(flags: Flags, q: nat)
  {
    q == flags.x || q == flags.neighbor || q == flags.both
  }

  /** The choice register, the weight register and the three flags are disjoint, and together
      they are exactly the qubits 0 .. NumQubits(p) - 1. */
  lemma AnsatzRegisters(p: KnapsackProblem)
    requires QaoaDefined(p)
    ensures forall q: nat :: q < NumQubits(p) <==>
              ChoiceRegister(p).Contains(q) || WeightRegister(p).Contains(q) || IsFlag(FlagQubits(p), q)
    ensures forall q: nat :: !(ChoiceRegister(p).Contains(q) && WeightRegister(p).Contains(q))
    ensures forall q: nat :: IsFlag(FlagQubits(p), q) ==> !ChoiceRegister(p).Contains(q) && !WeightRegister(p).Contains(q)
    ensures FlagQubits(p).x != FlagQubits(p).neighbor && FlagQubits(p).neighbor != FlagQubits(p).both &&
            FlagQubits(p).x != FlagQubits(p).both
  {
  }

  /** The phase separator and the mixer of the ansatz, with their own gamma and beta free. */
  function PhaseCircuit(p: KnapsackProblem): seq<Gate>
  {
    DephaseGates(ChoiceRegister(p), p.values)
  }

  function MixCircuit(p: KnapsackProblem, m: nat): seq<Gate>
    requires QaoaDefined(p)
  {
    MixerGates(ChoiceRegister(p), WeightRegister(p), FlagQubits(p), p, m)
  }

  /** Layer i: the phase separator with gamma := gamma{i}, then the mixer with beta := beta{i}. */
  function Layer(phase: seq<Gate>, mix: seq<Gate>, i: nat): seq<Gate>
  {
    Bind(phase, Gamma, Angle(1.0, GammaAt(i))) + Bind(mix, Beta, Angle(1.0, BetaAt(i)))
  }

  /** The first k layers, in order. */
  function Layers(phase: seq<Gate>, mix: seq<Gate>, k: nat): seq<Gate>
  {
    if k == 0 then [] else Layers(phase, mix, k - 1) + Layer(phase, mix, k - 1)
  }

  /** One more layer appends its phase part and then its mixer part. */
  lemma LayersUnfold(phase: seq<Gate>, mix: seq<Gate>, i: nat)
    ensures Layers(phase, mix, i + 1) == Layers(phase, mix, i) + Bind(phase, Gamma, Angle(1.0, GammaAt(i))) + Bind(mix, Beta, Angle(1.0, BetaAt(i)))
  {
    var a, b := Bind(phase, Gamma, Angle(1.0, GammaAt(i))), Bind(mix, Beta, Angle(1.0, BetaAt(i)));
    assert Layers(phase, mix, i + 1) == Layers(phase, mix, i) + (a + b);
  }

  class QuantumWalkQAOA {
    var problem: KnapsackProblem
    var p: nat
    var m: nat
    var betas: seq<Param>
    var gammas: seq<Param>
    var choice: Register
    var weight: Register
    var flags: Flags
    var gates: seq<Gate>

    /** The qubits are numbered choice, weight, then the three flags; the final state-vector
        save and measurement are not gates of this model. */
    constructor(problem: KnapsackProblem, p: nat, m: nat)
      requires QaoaDefined(problem)
      ensures this.problem == problem && this.p == p && this.m == m
      ensures |betas| == p && |gammas| == p
      ensures forall i :: 0 <= i < p ==> betas[i] == BetaAt(i) && gammas[i] == GammaAt(i)
      ensures choice == ChoiceRegister(problem) && weight == WeightRegister(problem) && flags == FlagQubits(problem)
      ensures gates == Layers(PhaseCircuit(problem), MixCircuit(problem, m), p)
    {
      var n := SafeWeightWidth(problem);
      var choiceReg := Register(0, problem.N());
      var weightReg := Register(problem.N(), n);
      var flagQubits := Flags(problem.N() + n, problem.N() + n + 1, problem.N() + n + 2);
      var bs := seq(p, i requires 0 <= i < p => BetaAt(i));
      var gs := seq(p, i requires 0 <= i < p => GammaAt(i));
      var phaseCirc := new Dephase(choiceReg, problem);
      var mixCirc := new QWMixer(choiceReg, weightReg, flagQubits, problem, m);
      var phase := phaseCirc.gates;
      var mix := mixCirc.gates;
      var layers := [];
      for i := 0 to p
        invariant layers == Layers(phase, mix, i)
      {
        layers := layers + Bind(phase, Gamma, Angle(1.0, gs[i]));
        layers := layers + Bind(mix, Beta, Angle(1.0, bs[i]));
        LayersUnfold(phase, mix, i);
      }
      this.problem := problem;
      this.p := p;
      this.m := m;
      betas := bs;
      gammas := gs;
      choice := choiceReg;
      weight := weightReg;
      flags := flagQubits;
      gates := layers;
    }

    /** (0, m*pi), in units of pi. */
    function BetaRange(): (r: (real, real))
      reads this
      ensures r.0 == 0.0 && r.1 == m as real
    {
      (0.0, m as real)
    }

    /** (0, 2*pi), in units of pi. */
    static function GammaRange(): (r: (real, real))
      ensures r.0 == 0.0 && r.1 == 2.0
    {
      (0.0, 2.0)
    }
  }

  // ---------------------------------------------------------------------------
  // Properties of the ansatz

  /** A layer mentions exactly its own gamma{i} and beta{i}. */
  lemma LayerParams(phase: seq<Gate>, mix: seq<Gate>, i: nat)
    requires Params(phase) == {Gamma} && Params(mix) == {Beta}
    ensures Params(Layer(phase, mix, i)) == {GammaAt(i), BetaAt(i)}
  {
    ParamsBind(phase, Gamma, Angle(1.0, GammaAt(i)));
    ParamsBind(mix, Beta, Angle(1.0, BetaAt(i)));
    ParamsAppend(Bind(phase, Gamma, Angle(1.0, GammaAt(i))), Bind(mix, Beta, Angle(1.0, BetaAt(i))));
  }

  lemma {:induction false} LayersParams(phase: seq<Gate>, mix: seq<Gate>, k: nat)
    requires Params(phase) == {Gamma} && Params(mix) == {Beta}
    ensures forall q :: q in Params(Layers(phase, mix, k)) <==> (q.GammaAt? || q.BetaAt?) && q.layer < k
  {
    if k > 0 {
      LayersParams(phase, mix, k - 1);
      LayerParams(phase, mix, k - 1);
      ParamsAppend(Layers(phase, mix, k - 1), Layer(phase, mix, k - 1));
      assert Layers(phase, mix, k) == Layers(phase, mix, k - 1) + Layer(phase, mix, k - 1);
      LayerSetStep(Params(Layers(phase, mix, k - 1)), Params(Layer(phase, mix, k - 1)),
                   Params(Layers(phase, mix, k - 1) + Layer(phase, mix, k - 1)), k);
    }
  }

  lemma LayerSetStep(before: set<Param>, layer: set<Param>, after: set<Param>, k: nat)
    requires k > 0 && after == before + layer && layer == {GammaAt(k - 1), BetaAt(k - 1)}
    requires forall q :: q in before <==> (q.GammaAt? || q.BetaAt?) && q.layer < k - 1
    ensures forall q :: q in after <==> (q.GammaAt? || q.BetaAt?) && q.layer < k
  {
  }

  /** The free parameters of the ansatz are exactly beta{i} and gamma{i} for i < p: the keys
      `to_parameter_dict` must supply. */
  lemma AnsatzParams(p: KnapsackProblem, m: nat, k: nat)
    requires QaoaDefined(p) && p.WellFormed() && m >= 1
    ensures forall q :: q in Params(Layers(PhaseCircuit(p), MixCircuit(p, m), k)) <==> (q.GammaAt? || q.BetaAt?) && q.layer < k
  {
    DephaseParams(ChoiceRegister(p), p.values);
    MixerFacts(ChoiceRegister(p), WeightRegister(p), FlagQubits(p), p, m, 0);
    LayersParams(PhaseCircuit(p), MixCircuit(p, m), k);
  }

  /** Binding beta to beta{i} turns rotations by c*beta into rotations by c*beta{i}. */
  lemma BoundRotations(mix: seq<Gate>, c: real, i: nat)
    requires forall k :: 0 <= k < |mix| && mix[k].CRX? ==> mix[k].angle == Angle(c, Beta)
    ensures forall g :: g in Bind(mix, Beta, Angle(1.0, BetaAt(i))) && g.CRX? ==> g.angle == Angle(c, BetaAt(i))
  {
    var bound := Bind(mix, Beta, Angle(1.0, BetaAt(i)));
    forall g | g in bound && g.CRX?
      ensures g.angle == Angle(c, BetaAt(i))
    {
      var k :| 0 <= k < |bound| && bound[k] == g;
      assert mix[k].CRX?;
    }
  }

  /** Every walk rotation of layer i turns by 2*beta{i}/m. */
  lemma LayerRotations(p: KnapsackProblem, m: nat, i: nat)
    requires QaoaDefined(p) && m >= 1
    ensures forall g :: g in Layer(PhaseCircuit(p), MixCircuit(p, m), i) && g.CRX? ==> g.angle == Angle(2.0 / (m as real), BetaAt(i))
  {
    var phase := Bind(PhaseCircuit(p), Gamma, Angle(1.0, GammaAt(i)));
    assert forall g :: g in phase ==> !g.CRX?;
    MixerFacts(ChoiceRegister(p), WeightRegister(p), FlagQubits(p), p, m, 0);
    BoundRotations(MixCircuit(p, m), 2.0 / (m as real), i);
  }

  lemma RotationWithinTwoPi(m: nat, beta: real)
    requires m >= 1
    ensures 0.0 <= beta <= m as real ==> 0.0 <= (2.0 / (m as real)) * beta <= 2.0
  {
    if 0.0 <= beta <= m as real {
      assert (2.0 / (m as real)) * (m as real) == 2.0;
    }
  }

  /** The walk rotations of layer i of the ansatz q turn by (2/m)*beta{i}, so a beta{i} that
      `beta_range` admits keeps each walk-rotation angle within [0, 2] (units of pi). */
  lemma BetaRangeRotations(q: QuantumWalkQAOA, i: nat, beta: real)
    requires QaoaDefined(q.problem) && q.m >= 1
    ensures forall g :: g in Layer(PhaseCircuit(q.problem), MixCircuit(q.problem, q.m), i) && g.CRX? ==>
              g.angle == Angle(2.0 / (q.m as real), BetaAt(i))
    ensures q.BetaRange().0 <= beta <= q.BetaRange().1 ==> 0.0 <= (2.0 / (q.m as real)) * beta <= 2.0
  {
    LayerRotations(q.problem, q.m, i);
    RotationWithinTwoPi(q.m, beta);
  }

  /** Layers of circuits that act below width act below width. */
  lemma {:induction false} LayersWithin(phase: seq<Gate>, mix: seq<Gate>, k: nat, width: nat)
    requires Within(phase, width) && Within(mix, width)
    ensures Within(Layers(phase, mix, k), width)
  {
    if k > 0 {
      var a, b := Bind(phase, Gamma, Angle(1.0, GammaAt(k - 1))), Bind(mix, Beta, Angle(1.0, BetaAt(k - 1)));
      LayersWithin(phase, mix, k - 1, width);
      WithinBind(phase, Gamma, Angle(1.0, GammaAt(k - 1)), width);
      WithinBind(mix, Beta, Angle(1.0, BetaAt(k - 1)), width);
      WithinAppend(a, b, width);
      WithinAppend(Layers(phase, mix, k - 1), a + b, width);
    }
  }

  /** Every gate of the ansatz acts on its N + n + 3 qubits. */
  lemma AnsatzWithin(p: KnapsackProblem, m: nat, k: nat)
    requires QaoaDefined(p)
    ensures Within(Layers(PhaseCircuit(p), MixCircuit(p, m), k), NumQubits(p))
  {
    var width := NumQubits(p);
    DephaseWithin(ChoiceRegister(p), p.values, width);
    MixerWithin(ChoiceRegister(p), WeightRegister(p), FlagQubits(p), p, m, width);
    LayersWithin(PhaseCircuit(p), MixCircuit(p, m), k, width);
  }

  /** A basis state of the N + n + 3 qubits, for a weight register of width n, with the flags
      clear meets the walk step's layout. */
  lemma QaoaWalkReady(p: KnapsackProblem, n: nat, s: QState, j: nat, x: seq<int>)
    requires j < p.N()
    requires |s.qubits| == SizedQubitCount(p, n) && forall q :: 0 <= q < |s.qubits| ==> s.qubits[q].Basis?
    requires IsChoice(x, p.N()) && ChoiceBits(s, ChoiceRegister(p), p.N()) == x
    requires s.qubits[SizedFlags(p, n).x] == Basis(false) && s.qubits[SizedFlags(p, n).neighbor] == Basis(false) &&
             s.qubits[SizedFlags(p, n).both] == Basis(false)
    ensures WalkReady(s, ChoiceRegister(p), SizedWeightRegister(p, n), SizedFlags(p, n), j, p, x)
    ensures ChoiceRegister(p).At(j) == j
  {
  }

  /** With a weight register of width n that holds the total weight plus the oracle's offset,
      walk step j moves selection x to its neighbour n_j(x) exactly when both are feasible. */
  lemma QaoaWalkStep(p: KnapsackProblem, n: nat, s: QState, j: nat, x: seq<int>, d: nat, flip: bool)
    requires OracleDefined(p) && j < p.N() && n <= d
    requires p.TotalWeight() + OracleOffset(p.maxWeight) < Pow2(n)
    requires |s.qubits| == SizedQubitCount(p, n) && forall q :: 0 <= q < |s.qubits| ==> s.qubits[q].Basis?
    requires IsChoice(x, p.N()) && ChoiceBits(s, ChoiceRegister(p), p.N()) == x
    requires s.qubits[SizedFlags(p, n).x] == Basis(false) && s.qubits[SizedFlags(p, n).neighbor] == Basis(false) &&
             s.qubits[SizedFlags(p, n).both] == Basis(false)
    ensures Run(WalkGates(ChoiceRegister(p), SizedWeightRegister(p, n), SizedFlags(p, n), p, j),
                WithBasis(s, SizedWeightRegister(p, n), 0), d, flip)
            == Some(WithBasis(if flip && Moves(x, j, p) then SetQubit(s, j, Basis(x[j] != 1)) else s, SizedWeightRegister(p, n), 0))
  {
    QaoaWalkReady(p, n, s, j, x);
    WalkStep(s, ChoiceRegister(p), SizedWeightRegister(p, n), SizedFlags(p, n), j, p, x, d, flip);
  }

  /** The program's walk step, in registers of the width as written: wherever that width holds
      the total weight plus the offset, the step moves x to n_j(x) exactly when both are
      feasible. `WeightWidthWraps` shows a problem where it does not hold. */
  lemma ProgramWalkStep(p: KnapsackProblem, s: QState, j: nat, x: seq<int>, d: nat, flip: bool)
    requires QaoaDefined(p) && j < p.N() && WeightWidth(p) <= d
    requires p.TotalWeight() + OracleOffset(p.maxWeight) < Pow2(WeightWidth(p))
    requires |s.qubits| == SizedQubitCount(p, WeightWidth(p)) && forall q :: 0 <= q < |s.qubits| ==> s.qubits[q].Basis?
    requires IsChoice(x, p.N()) && ChoiceBits(s, ChoiceRegister(p), p.N()) == x
    requires s.qubits[SizedFlags(p, WeightWidth(p)).x] == Basis(false) &&
             s.qubits[SizedFlags(p, WeightWidth(p)).neighbor] == Basis(false) &&
             s.qubits[SizedFlags(p, WeightWidth(p)).both] == Basis(false)
    ensures Run(WalkGates(ChoiceRegister(p), SizedWeightRegister(p, WeightWidth(p)), SizedFlags(p, WeightWidth(p)), p, j),
                WithBasis(s, SizedWeightRegister(p, WeightWidth(p)), 0), d, flip)
            == Some(WithBasis(if flip && Moves(x, j, p) then SetQubit(s, j, Basis(x[j] != 1)) else s,
                              SizedWeightRegister(p, WeightWidth(p)), 0))
  {
    QaoaWalkStep(p, WeightWidth(p), s, j, x, d, flip);
  }

  /** In the ansatz's own registers, with the corrected width, walk step j moves selection x to
      its neighbour n_j(x) exactly when both are feasible, for every weight list. */
  lemma AnsatzWalkStep(p: KnapsackProblem, s: QState, j: nat, x: seq<int>, d: nat, flip: bool)
    requires QaoaDefined(p) && j < p.N() && SafeWeightWidth(p) <= d
    requires |s.qubits| == NumQubits(p) && forall q :: 0 <= q < |s.qubits| ==> s.qubits[q].Basis?
    requires IsChoice(x, p.N()) && ChoiceBits(s, ChoiceRegister(p), p.N()) == x
    requires s.qubits[FlagQubits(p).x] == Basis(false) && s.qubits[FlagQubits(p).neighbor] == Basis(false) &&
             s.qubits[FlagQubits(p).both] == Basis(false)
    ensures Run(WalkGates(ChoiceRegister(p), WeightRegister(p), FlagQubits(p), p, j),
                WithBasis(s, WeightRegister(p), 0), d, flip)
            == Some(WithBasis(if flip && Moves(x, j, p) then SetQubit(s, j, Basis(x[j] != 1)) else s, WeightRegister(p), 0))
  {
    SafeWeightWidthSuffices(p);
    QaoaWalkStep(p, SafeWeightWidth(p), s, j, x, d, flip);
  }
}

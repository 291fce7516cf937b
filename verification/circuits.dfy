/** The circuit builders. Each source class is a QuantumCircuit whose constructor appends gates
    to itself; here each is a class whose `gates` field its constructor builds in the same
    loops, proved equal to a gate-list function that the proof modules reason about.

    Qubits are global indices of the full circuit and registers are index ranges, so appending
    a sub-circuit "on" some qubits is the concatenation of the sub-circuit built on those
    qubits. */
module Circuits {
  import opened Arith
  import opened Gates
  import opened Knapsack

  // ---------------------------------------------------------------------------
  // QFT: for idx from the top qubit down, H on it, then controlled phases 2*pi/2^k with every
  // lower qubit c_idx, from c_idx = idx-1 down, where k = idx - c_idx + 1. No swaps.

  /** The controlled phases of step idx for c_idx from idx-1 down to j. */
  function QftRotations(r: Register, idx: nat, j: nat): seq<Gate>
    requires j <= idx
    decreases idx - j
  {
    if j == idx then []
    else QftRotations(r, idx, j + 1) + [CP(r.At(idx), r.At(j), Turn(false, idx - j + 1))]
  }

  function QftStep(r: Register, idx: nat): seq<Gate>
  {
    [H(r.At(idx))] + QftRotations(r, idx, 0)
  }

  /** The steps for idx from r.size-1 down to i. */
  function QftFrom(r: Register, i: nat): seq<Gate>
    requires i <= r.size
    decreases r.size - i
  {
    if i == r.size then [] else QftFrom(r, i + 1) + QftStep(r, i)
  }

  function QftGates(r: Register): seq<Gate>
  {
    QftFrom(r, 0)
  }

  class Qft {
    var gates: seq<Gate>

    constructor(register: Register)
      ensures gates == QftGates(register)
    {
      gates := [];
      new;
      for idx := register.size downto 0
        invariant gates == QftFrom(register, idx)
      {
        gates := gates + [H(register.At(idx))];
        for cIdx := idx downto 0
          invariant gates == QftFrom(register, idx + 1) + [H(register.At(idx))] + QftRotations(register, idx, cIdx)
        {
          var k := idx - cIdx + 1;
          gates := gates + [CP(register.At(idx), register.At(cIdx), Turn(false, k))];
        }
      }
    }
  }

  // ---------------------------------------------------------------------------
  // Addition of a constant in the Fourier basis (Draper adder).

  /** The phase gate of an adder: `p` on the register qubit, or `cp` from it to the control. */
  function PhaseOn(q: nat, control: Option<nat>, t: Turn): Gate
  {
    match control
    case None => P(q, t)
    case Some(c) => CP(q, c, t)
  }

  /** `power_two_addition(k)` over the register qubits idx < i: the turn 1/2^(idx+1-k) on every
      qubit with idx + 1 > k. */
  function PowerTwoGates(r: Register, control: Option<nat>, k: nat, i: nat): seq<Gate>
  {
    if i == 0 then []
    else (PowerTwoGates(r, control, k, i - 1) +
          if i > k then [PhaseOn(r.At(i - 1), control, Turn(false, i - k))] else [])
  }

  /** The power-of-two additions for the binary digits of n below position j. */
  function AdditionFrom(r: Register, n: nat, control: Option<nat>, j: nat): seq<Gate>
    requires j <= |Bits(n)|
  {
    if j == 0 then []
    else (AdditionFrom(r, n, control, j - 1) +
          if Bits(n)[j - 1] == 1 then PowerTwoGates(r, control, j - 1, r.size) else [])
  }

  function AdditionGates(r: Register, n: nat, control: Option<nat>): seq<Gate>
  {
    AdditionFrom(r, n, control, |Bits(n)|)
  }

  class Addition {
    const register: Register
    const control: Option<nat>
    var gates: seq<Gate>

    /** `Addition(register, n, control)`; `bin` of a negative n raises, so n is a nat. */
    constructor(register: Register, n: nat, control: Option<nat>)
      ensures this.register == register && this.control == control
      ensures gates == AdditionGates(register, n, control)
    {
      this.register := register;
      this.control := control;
      gates := [];
      new;
      var binary := Bits(n);
      for idx := 0 to |binary|
        invariant gates == AdditionFrom(register, n, control, idx)
      {
        if binary[idx] == 1 {
          PowerTwoAddition(idx);
        }
      }
    }

    method PowerTwoAddition(k: nat)
      modifies this
      ensures gates == old(gates) + PowerTwoGates(register, control, k, register.size)
    {
      for idx := 0 to register.size
        invariant gates == old(gates) + PowerTwoGates(register, control, k, idx)
      {
        var l := idx + 1;
        if l > k {
          var m := l - k;
          gates := gates + [PhaseOn(register.At(idx), control, Turn(false, m))];
        }
      }
    }
  }

  // ---------------------------------------------------------------------------
  // Feasibility oracle.

  /** `math.floor(math.log2(max_weight)) + 1`, defined (as a bit length) for max_weight >= 1. */
  function OracleWidth(maxWeight: int): (c: nat)
    requires maxWeight >= 1
    ensures c >= 1 && Pow2(c - 1) <= maxWeight < Pow2(c)
  {
    var n: nat := maxWeight;
    BitLengthBounds(n);
    BitLength(n)
  }

  /** w0 = 2^c - max_weight - 1: adding it makes "weight <= max_weight" read as "weight + w0 < 2^c". */
  function OracleOffset(maxWeight: int): (w0: nat)
    requires maxWeight >= 1
    ensures w0 < Pow2(OracleWidth(maxWeight) - 1)
    ensures maxWeight + w0 == Pow2(OracleWidth(maxWeight)) - 1
  {
    var c := OracleWidth(maxWeight);
    assert Pow2(c) == 2 * Pow2(c - 1);
    Pow2(c) - maxWeight - 1
  }

  /** The oracle's requirements: a positive capacity (`log2` raises otherwise) and
      non-negative weights (`bin` of a negative weight raises). */
  predicate OracleDefined(p: KnapsackProblem)
  {
    p.maxWeight >= 1 && forall i :: 0 <= i < |p.weights| ==> p.weights[i] >= 0
  }

  /** `zip(choice_reg, problem.weights)` stops at the shorter. */
  function ZipLength(choice: Register, n: nat): nat
  {
    if choice.size <= n then choice.size else n
  }

  /** Additions of weights[i] to the weight register controlled by choice qubit i, for i < j. */
  function ControlledAdditions(choice: Register, weight: Register, weights: seq<int>, j: nat): seq<Gate>
    requires j <= |weights| && forall i :: 0 <= i < |weights| ==> weights[i] >= 0
  {
    if j == 0 then []
    else (ControlledAdditions(choice, weight, weights, j - 1) +
          AdditionGates(weight, weights[j - 1] as nat, Some(choice.At(j - 1))))
  }

  /** The sub-circuit: QFT, the controlled weight additions, + w0, inverse QFT. */
  function OracleSub(choice: Register, weight: Register, p: KnapsackProblem): seq<Gate>
    requires OracleDefined(p)
  {
    QftGates(weight) +
    ControlledAdditions(choice, weight, p.weights, ZipLength(choice, |p.weights|)) +
    AdditionGates(weight, OracleOffset(p.maxWeight), None) +
    Inverse(QftGates(weight))
  }

  /** `x(register)`: one X on every qubit of the register. */
  function XGates(r: Register): (gs: seq<Gate>)
    ensures |gs| == r.size && forall i :: 0 <= i < r.size ==> gs[i] == X(r.At(i))
  {
    seq(r.size, i requires 0 <= i < r.size => X(r.At(i)))
  }

  function OracleGates(choice: Register, weight: Register, flag: nat, p: KnapsackProblem, cleanUp: bool): seq<Gate>
    requires OracleDefined(p)
  {
    var sub := OracleSub(choice, weight, p);
    var high := weight.From(OracleWidth(p.maxWeight));
    sub + XGates(high) + [MCX(high.QubitList(), flag)] + XGates(high) +
    (if cleanUp then Inverse(sub) else [])
  }

  class FbsOracle {
    var gates: seq<Gate>

    constructor(choice: Register, weight: Register, flag: nat, p: KnapsackProblem, cleanUp: bool)
      requires OracleDefined(p)
      ensures gates == OracleGates(choice, weight, flag, p, cleanUp)
    {
      var c := OracleWidth(p.maxWeight);
      var w0 := Pow2(c) - p.maxWeight - 1;
      assert w0 == OracleOffset(p.maxWeight);
      var qft := new Qft(weight);
      var qftGates := qft.gates;
      var sub := qftGates;
      for j := 0 to ZipLength(choice, |p.weights|)
        invariant sub == qftGates + ControlledAdditions(choice, weight, p.weights, j)
      {
        var adder := new Addition(weight, p.weights[j] as nat, Some(choice.At(j)));
        sub := sub + adder.gates;
      }
      var adder := new Addition(weight, w0, None);
      sub := sub + adder.gates;
      sub := sub + Inverse(qftGates);
      assert sub == OracleSub(choice, weight, p);
      var high := weight.From(c);
      var circuit := sub;
      circuit := circuit + XGates(high);
      circuit := circuit + [MCX(high.QubitList(), flag)];
      circuit := circuit + XGates(high);
      ghost var compare := circuit;
      if cleanUp {
        circuit := circuit + Inverse(sub);
      }
      assert circuit == compare + (if cleanUp then Inverse(sub) else []);
      gates := circuit;
    }
  }

  // ---------------------------------------------------------------------------
  // Single-qubit quantum walk step, mixer and phase separator.

  /** The three one-qubit flag registers v(x), v(n_j(x)) and v_j(x). */
  datatype Flags = Flags(x: nat, neighbor: nat, both: nat)

  /** The walk step on item qubit q around the two oracle instances ox (flag v(x)) and on
      (flag v(n_j(x))): oracle, X, oracle, X, CCX, crx(2*beta), and the mirror image. */
  function WalkAround(ox: seq<Gate>, on: seq<Gate>, flags: Flags, q: nat): seq<Gate>
  {
    var xj := [X(q)];
    var both := [CCX(flags.x, flags.neighbor, flags.both)];
    ox + xj + on + xj + both + [CRX(flags.both, q, Angle(2.0, Beta))] + both + xj + on + xj + ox
  }

  function WalkGates(choice: Register, weight: Register, flags: Flags, p: KnapsackProblem, j: nat): seq<Gate>
    requires OracleDefined(p)
  {
    WalkAround(OracleGates(choice, weight, flags.x, p, true), OracleGates(choice, weight, flags.neighbor, p, true),
               flags, choice.At(j))
  }

  class SQQW {
    var gates: seq<Gate>

    /** `choice_reg[j]` must exist. */
    constructor(choice: Register, weight: Register, flags: Flags, p: KnapsackProblem, j: nat)
      requires OracleDefined(p) && j < choice.size
      ensures gates == WalkGates(choice, weight, flags, p, j)
    {
      var oracleX := new FbsOracle(choice, weight, flags.x, p, true);
      var oracleN := new FbsOracle(choice, weight, flags.neighbor, p, true);
      gates := oracleX.gates;
      gates := gates + [X(choice.At(j))];
      gates := gates + oracleN.gates;
      gates := gates + [X(choice.At(j))];
      gates := gates + [CCX(flags.x, flags.neighbor, flags.both)];
      gates := gates + [CRX(flags.both, choice.At(j), Angle(2.0, Beta))];
      gates := gates + [CCX(flags.x, flags.neighbor, flags.both)];
      gates := gates + [X(choice.At(j))];
      gates := gates + oracleN.gates;
      gates := gates + [X(choice.At(j))];
      gates := gates + oracleX.gates;
    }
  }

  /** The walk steps for items j' < j of one mixer round, each bound to beta/m; ox and on are
      the two oracle instances every step wraps. */
  function WalkRound(ox: seq<Gate>, on: seq<Gate>, choice: Register, flags: Flags, m: nat, j: nat): seq<Gate>
    requires m >= 1
  {
    if j == 0 then []
    else (WalkRound(ox, on, choice, flags, m, j - 1) +
          Bind(WalkAround(ox, on, flags, choice.At(j - 1)), Beta, Angle(1.0 / (m as real), Beta)))
  }

  /** The first t of the m rounds over the n items. */
  function MixerRounds(ox: seq<Gate>, on: seq<Gate>, choice: Register, flags: Flags, n: nat, m: nat, t: nat): seq<Gate>
    requires t <= m
  {
    if t == 0 then []
    else MixerRounds(ox, on, choice, flags, n, m, t - 1) + WalkRound(ox, on, choice, flags, m, n)
  }

  function MixerGates(choice: Register, weight: Register, flags: Flags, p: KnapsackProblem, m: nat): seq<Gate>
    requires OracleDefined(p)
  {
    MixerRounds(OracleGates(choice, weight, flags.x, p, true), OracleGates(choice, weight, flags.neighbor, p, true),
                choice, flags, |p.weights|, m, m)
  }

  class QWMixer {
    var gates: seq<Gate>

    /** The walk steps index `choice_reg[j]` for every item j. */
    constructor(choice: Register, weight: Register, flags: Flags, p: KnapsackProblem, m: nat)
      requires OracleDefined(p) && |p.weights| <= choice.size
      ensures gates == MixerGates(choice, weight, flags, p, m)
    {
      ghost var ox := OracleGates(choice, weight, flags.x, p, true);
      ghost var on := OracleGates(choice, weight, flags.neighbor, p, true);
      var circuit := [];
      for t := 0 to m
        invariant circuit == MixerRounds(ox, on, choice, flags, |p.weights|, m, t)
      {
        var round := [];
        for j := 0 to |p.weights|
          invariant round == WalkRound(ox, on, choice, flags, m, j)
        {
          var jwalk := new SQQW(choice, weight, flags, p, j);
          round := round + Bind(jwalk.gates, Beta, Angle(1.0 / (m as real), Beta));
        }
        circuit := circuit + round;
      }
      gates := circuit;
    }
  }

  /** One `p(-gamma * value)` per item on its choice qubit, over the zip of register and values. */
  function DephaseGates(choice: Register, values: seq<real>): (gs: seq<Gate>)
    ensures |gs| == ZipLength(choice, |values|)
    ensures forall i :: 0 <= i < |gs| ==> gs[i] == PhaseParam(choice.At(i), Angle(-values[i], Gamma))
  {
    seq(ZipLength(choice, |values|), i requires 0 <= i < ZipLength(choice, |values|) =>
      PhaseParam(choice.At(i), Angle(-values[i], Gamma)))
  }

  class Dephase {
    var gates: seq<Gate>

    constructor(choice: Register, p: KnapsackProblem)
      ensures gates == DephaseGates(choice, p.values)
    {
      gates := [];
      new;
      for j := 0 to ZipLength(choice, |p.values|)
        invariant gates == DephaseGates(choice, p.values)[..j]
      {
        gates := gates + [PhaseParam(choice.At(j), Angle(-p.values[j], Gamma))];
      }
    }
  }
}

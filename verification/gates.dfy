/** Circuits as gate lists. A Qiskit circuit built from appended sub-circuit instructions is
    modelled as the flat list of its gates; `inverse()` reverses the list and inverts each gate;
    binding a symbolic parameter (`to_instruction({param: expr})`) substitutes it. Angles are
    exact: a fixed phase 2*pi/2^k is the turn fraction Turn(neg, k), a symbolic angle is a real
    coefficient times a circuit parameter. */
module Gates {

  /** The fixed angle (-1)^neg * 2*pi / 2^k, that is a signed 1/2^k of a full turn. */
  datatype Turn = Turn(neg: bool, k: nat)

  /** The circuit parameters: the local `beta` of a walk step or mixer, the local `gamma` of
      the phase separator, and the per-layer `beta{i}`, `gamma{i}` of the full ansatz. */
  datatype Param = Beta | Gamma | BetaAt(layer: nat) | GammaAt(layer: nat)

  /** The symbolic angle coeff * param (radians). */
  datatype Angle = Angle(coeff: real, param: Param)

  datatype Gate =
    | H(q: nat)
    | X(q: nat)
    | P(q: nat, turn: Turn)                          // p(turn)
    | CP(control: nat, target: nat, turn: Turn)      // cp(turn, control, target)
    | CCX(c1: nat, c2: nat, target: nat)
    | MCX(controls: seq<nat>, target: nat)
    | CRX(control: nat, target: nat, angle: Angle)   // crx(angle, control, target)
    | PhaseParam(q: nat, angle: Angle)               // p(angle) with a symbolic angle

  function Invert(g: Gate): Gate
  {
    match g
    case P(q, t) => P(q, Turn(!t.neg, t.k))
    case CP(c, q, t) => CP(c, q, Turn(!t.neg, t.k))
    case CRX(c, q, a) => CRX(c, q, Angle(-a.coeff, a.param))
    case PhaseParam(q, a) => PhaseParam(q, Angle(-a.coeff, a.param))
    case _ => g
  }

  /** `QuantumCircuit.inverse()`: the gates in reverse order, each inverted. */
  function Inverse(gs: seq<Gate>): (r: seq<Gate>)
    ensures |r| == |gs|
  {
    if gs == [] then [] else Inverse(gs[1..]) + [Invert(gs[0])]
  }

  lemma InvertInvolution(g: Gate)
    ensures Invert(Invert(g)) == g
  {
  }

  lemma {:induction false} InverseAppend(a: seq<Gate>, b: seq<Gate>)
    ensures Inverse(a + b) == Inverse(b) + Inverse(a)
  {
    if a == [] {
      assert a + b == b;
    } else {
      assert (a + b)[1..] == a[1..] + b;
      InverseAppend(a[1..], b);
    }
  }

  /** Inverting twice gives the circuit back: the clean-up of a clean-up is the original. */
  lemma {:induction false} InverseInvolution(gs: seq<Gate>)
    ensures Inverse(Inverse(gs)) == gs
  {
    if gs != [] {
      InverseAppend(Inverse(gs[1..]), [Invert(gs[0])]);
      InverseInvolution(gs[1..]);
      assert Inverse([Invert(gs[0])]) == [gs[0]];
    }
  }

  /** Substitute `to` for the parameter `from` in one gate's symbolic angle. */
  function BindAngle(a: Angle, from: Param, to: Angle): Angle
  {
    if a.param == from then Angle(a.coeff * to.coeff, to.param) else a
  }

  function BindGate(g: Gate, from: Param, to: Angle): Gate
  {
    match g
    case CRX(c, q, a) => CRX(c, q, BindAngle(a, from, to))
    case PhaseParam(q, a) => PhaseParam(q, BindAngle(a, from, to))
    case _ => g
  }

  /** `to_instruction({from: to})`: every occurrence of `from` becomes `to`. */
  function Bind(gs: seq<Gate>, from: Param, to: Angle): (r: seq<Gate>)
    ensures |r| == |gs|
    ensures forall i :: 0 <= i < |gs| ==> r[i] == BindGate(gs[i], from, to)
  {
    if gs == [] then [] else [BindGate(gs[0], from, to)] + Bind(gs[1..], from, to)
  }

  lemma {:induction false} BindAppend(a: seq<Gate>, b: seq<Gate>, from: Param, to: Angle)
    ensures Bind(a + b, from, to) == Bind(a, from, to) + Bind(b, from, to)
  {
    assert |Bind(a + b, from, to)| == |Bind(a, from, to) + Bind(b, from, to)|;
    forall i | 0 <= i < |a + b|
      ensures Bind(a + b, from, to)[i] == (Bind(a, from, to) + Bind(b, from, to))[i]
    {
    }
  }

  /** The qubits a gate touches. */
  function Qubits(g: Gate): set<nat>
  {
    match g
    case H(q) => {q}
    case X(q) => {q}
    case P(q, _) => {q}
    case CP(c, q, _) => {c, q}
    case CCX(a, b, q) => {a, b, q}
    case MCX(cs, q) => (set i | 0 <= i < |cs| :: cs[i]) + {q}
    case CRX(c, q, _) => {c, q}
    case PhaseParam(q, _) => {q}
  }

  /** Every gate of gs acts on qubits below `width`. */
  predicate Within(gs: seq<Gate>, width: nat)
  {
    forall i, q :: 0 <= i < |gs| && q in Qubits(gs[i]) ==> q < width
  }

  /** The symbolic parameters a gate list mentions. */
  function Params(gs: seq<Gate>): set<Param>
  {
    if gs == [] then {}
    else (if gs[0].CRX? || gs[0].PhaseParam? then {gs[0].angle.param} else {}) + Params(gs[1..])
  }

  lemma {:induction false} ParamsAppend(a: seq<Gate>, b: seq<Gate>)
    ensures Params(a + b) == Params(a) + Params(b)
  {
    if a == [] {
      assert a + b == b;
    } else {
      assert (a + b)[1..] == a[1..] + b;
      ParamsAppend(a[1..], b);
    }
  }

  /** The sum of the coefficients of the CRX rotations of gs that target qubit q. */
  function CrxCoeffOn(gs: seq<Gate>, q: nat): real
  {
    if gs == [] then 0.0
    else (if gs[0].CRX? && gs[0].target == q then gs[0].angle.coeff else 0.0) + CrxCoeffOn(gs[1..], q)
  }

  lemma {:induction false} CrxCoeffOnAppend(a: seq<Gate>, b: seq<Gate>, q: nat)
    ensures CrxCoeffOn(a + b, q) == CrxCoeffOn(a, q) + CrxCoeffOn(b, q)
  {
    if a == [] {
      assert a + b == b;
    } else {
      assert (a + b)[1..] == a[1..] + b;
      CrxCoeffOnAppend(a[1..], b, q);
    }
  }

  /** A contiguous qubit range of a circuit: a Qiskit QuantumRegister. */
  datatype Register = Register(start: nat, size: nat)
  {
    function At(i: nat): nat
    {
      start + i
    }

    /** The slice `register[c:]`. */
    function From(c: nat): Register
    {
      if c <= size then Register(start + c, size - c) else Register(start + size, 0)
    }

    function QubitList(): (r: seq<nat>)
      ensures |r| == size && forall i :: 0 <= i < size ==> r[i] == start + i
    {
      seq(size, i => start + i)
    }

    predicate Contains(q: nat)
    {
      start <= q < start + size
    }
  }
}

/** What a gate list does to one computational-basis input, exactly, without amplitudes.

    Every circuit of the core that is applied to a basis state stays a product state: the
    choice register, the flags and (outside the Fourier transform) the weight register hold
    basis bits, and inside the transform each weight qubit holds
    (|0> + e^(2*pi*i * num / 2^D) |1>) / sqrt 2. A state is therefore a list of such qubits and
    a global phase, both as integer numerators over 2^D (D is the angle precision; every fixed
    angle of the circuits is a multiple of 2*pi / 2^D). A gate that would leave this form yields
    None. The one rotation by a symbolic angle, the walk step's `crx`, is read per branch:
    `flip` says whether the branch follows the rotated (bit flipped) or the unrotated component. */
module BasisSemantics {
  import opened Arith
  import opened Gates

  datatype Qubit = Basis(bit: bool) | Phased(num: int)

  datatype QState = QState(qubits: seq<Qubit>, phase: int)

  /** The numerator, over 2^d, of the signed turn 1/2^k. */
  function Shift(t: Turn, d: nat): int
    requires t.k <= d
  {
    if t.neg then -(Pow2(d - t.k) as int) else Pow2(d - t.k)
  }

  function AddMod(x: int, y: int, d: nat): int
  {
    (x + y) % Pow2(d)
  }

  function SetQubit(s: QState, q: nat, x: Qubit): QState
    requires q < |s.qubits|
  {
    s.(qubits := s.qubits[q := x])
  }

  predicate IsBasis(s: QState, q: nat)
  {
    q < |s.qubits| && s.qubits[q].Basis?
  }

  predicate IsOne(s: QState, q: nat)
  {
    q < |s.qubits| && s.qubits[q] == Basis(true)
  }

  /** All the listed qubits hold basis 1. */
  predicate AllSet(s: QState, cs: seq<nat>)
  {
    forall i :: 0 <= i < |cs| ==> IsOne(s, cs[i])
  }

  function ApplyH(s: QState, q: nat, d: nat): Option<QState>
    requires q < |s.qubits| && d >= 1
  {
    match s.qubits[q]
    case Basis(b) => Some(SetQubit(s, q, Phased(if b then Pow2(d - 1) else 0)))
    case Phased(u) =>
      if u == 0 then Some(SetQubit(s, q, Basis(false)))
      else if u == Pow2(d - 1) then Some(SetQubit(s, q, Basis(true)))
      else None
  }

  function ApplyCP(s: QState, c: nat, q: nat, t: Turn, d: nat): Option<QState>
    requires c < |s.qubits| && q < |s.qubits| && t.k <= d
  {
    match (s.qubits[c], s.qubits[q])
    case (Basis(a), Basis(b)) => Some(if a && b then s.(phase := AddMod(s.phase, Shift(t, d), d)) else s)
    case (Basis(a), Phased(u)) => Some(if a then SetQubit(s, q, Phased(AddMod(u, Shift(t, d), d))) else s)
    case (Phased(u), Basis(b)) => Some(if b then SetQubit(s, c, Phased(AddMod(u, Shift(t, d), d))) else s)
    case (Phased(_), Phased(_)) => None
  }

  function Apply(g: Gate, s: QState, d: nat, flip: bool): Option<QState>
  {
    match g
    case H(q) =>
      if q < |s.qubits| && d >= 1 then ApplyH(s, q, d) else None
    case X(q) =>
      if IsBasis(s, q) then Some(SetQubit(s, q, Basis(!s.qubits[q].bit))) else None
    case P(q, t) =>
      if q < |s.qubits| && t.k <= d then
        match s.qubits[q]
        case Basis(b) => Some(if b then s.(phase := AddMod(s.phase, Shift(t, d), d)) else s)
        case Phased(u) => Some(SetQubit(s, q, Phased(AddMod(u, Shift(t, d), d))))
      else None
    case CP(c, q, t) =>
      if c < |s.qubits| && q < |s.qubits| && c != q && t.k <= d then ApplyCP(s, c, q, t, d) else None
    case CCX(a, b, q) =>
      if IsBasis(s, a) && IsBasis(s, b) && IsBasis(s, q) && q != a && q != b && a != b then
        Some(SetQubit(s, q, Basis(s.qubits[q].bit != (s.qubits[a].bit && s.qubits[b].bit))))
      else None
    // With no controls, AllSet holds and the target toggles: a reading of this model, not a
    // behaviour the program establishes (the oracle meets it only when c >= the register width).
    case MCX(cs, q) =>
      if IsBasis(s, q) && q !in cs && forall i :: 0 <= i < |cs| ==> IsBasis(s, cs[i]) then
        Some(SetQubit(s, q, Basis(s.qubits[q].bit != AllSet(s, cs))))
      else None
    case CRX(c, q, _) =>
      if IsBasis(s, c) && IsBasis(s, q) && c != q then
        Some(if s.qubits[c].bit && flip then SetQubit(s, q, Basis(!s.qubits[q].bit)) else s)
      else None
    case PhaseParam(_, _) => None
  }

  /** The gates applied in order; None as soon as one leaves the product form. */
  function Run(gs: seq<Gate>, s: QState, d: nat, flip: bool): Option<QState>
    decreases |gs|
  {
    if gs == [] then Some(s)
    else match Apply(gs[0], s, d, flip)
      case None => None
      case Some(t) => Run(gs[1..], t, d, flip)
  }

  function Then(o: Option<QState>, gs: seq<Gate>, d: nat, flip: bool): Option<QState>
  {
    match o
    case None => None
    case Some(t) => Run(gs, t, d, flip)
  }

  /** Running a concatenation is running one list after the other. */
  lemma {:induction false} RunAppend(a: seq<Gate>, b: seq<Gate>, s: QState, d: nat, flip: bool)
    ensures Run(a + b, s, d, flip) == Then(Run(a, s, d, flip), b, d, flip)
    decreases |a|
  {
    if a == [] {
      assert a + b == b;
    } else {
      assert (a + b)[1..] == a[1..] + b;
      match Apply(a[0], s, d, flip)
      case None =>
      case Some(t) => RunAppend(a[1..], b, t, d, flip);
    }
  }

  /** Chaining two runs whose results are known. */
  lemma RunSeq(a: seq<Gate>, b: seq<Gate>, s: QState, t: QState, u: QState, d: nat, flip: bool)
    requires Run(a, s, d, flip) == Some(t) && Run(b, t, d, flip) == Some(u)
    ensures Run(a + b, s, d, flip) == Some(u)
  {
    RunAppend(a, b, s, d, flip);
  }

  /** Chaining three runs whose results are known, into a list g equal to their concatenation. */
  lemma RunSeq3(a: seq<Gate>, b: seq<Gate>, c: seq<Gate>, g: seq<Gate>, s: QState, t: QState, u: QState, w: QState, d: nat, flip: bool)
    requires g == a + b + c
    requires Run(a, s, d, flip) == Some(t) && Run(b, t, d, flip) == Some(u) && Run(c, u, d, flip) == Some(w)
    ensures Run(g, s, d, flip) == Some(w)
  {
    RunSeq(a, b, s, t, u, d, flip);
    RunSeq(a + b, c, s, u, w, d, flip);
  }

  /** Runs of a and then b make a run of any list g equal to a + b. */
  lemma RunJoin(a: seq<Gate>, b: seq<Gate>, g: seq<Gate>, s: QState, t: QState, u: QState, d: nat, flip: bool)
    requires g == a + b && Run(a, s, d, flip) == Some(t) && Run(b, t, d, flip) == Some(u)
    ensures Run(g, s, d, flip) == Some(u)
  {
    RunSeq(a, b, s, t, u, d, flip);
  }

  /** Runs of the inverse of b and then of a make a run of the inverse of any g equal to a + b. */
  lemma InverseRunJoin(a: seq<Gate>, b: seq<Gate>, g: seq<Gate>, s: QState, t: QState, u: QState, d: nat, flip: bool)
    requires g == a + b && Run(Inverse(b), s, d, flip) == Some(t) && Run(Inverse(a), t, d, flip) == Some(u)
    ensures Run(Inverse(g), s, d, flip) == Some(u)
  {
    InverseAppend(a, b);
    RunSeq(Inverse(b), Inverse(a), s, t, u, d, flip);
  }

  /** Two blocks that each run forward and back between known states make their concatenation g do the same. */
  lemma RunJoinBoth(a: seq<Gate>, b: seq<Gate>, g: seq<Gate>, s: QState, t: QState, u: QState, d: nat, flip: bool)
    requires g == a + b
    requires Run(a, s, d, flip) == Some(t) && Run(Inverse(a), t, d, flip) == Some(s)
    requires Run(b, t, d, flip) == Some(u) && Run(Inverse(b), u, d, flip) == Some(t)
    ensures Run(g, s, d, flip) == Some(u) && Run(Inverse(g), u, d, flip) == Some(s)
  {
    RunJoin(a, b, g, s, t, u, d, flip);
    InverseRunJoin(a, b, g, u, t, s, d, flip);
  }

  lemma RunOne(g: Gate, s: QState, d: nat, flip: bool)
    ensures Run([g], s, d, flip) == Apply(g, s, d, flip)
  {
    assert [g][1..] == [];
  }

  lemma SetQubitTwice(s: QState, q: nat, x: Qubit, y: Qubit)
    requires q < |s.qubits|
    ensures SetQubit(SetQubit(s, q, x), q, y) == SetQubit(s, q, y)
  {
  }

  // ---------------------------------------------------------------------------
  // Register contents

  /** Numerator (over 2^d) of the phase of qubit i in the Fourier state of v: the turn
      (v mod 2^(i+1)) / 2^(i+1). */
  function FourierNum(v: int, i: nat, d: nat): int
    requires i < d
  {
    (v % Pow2(i + 1)) * Pow2(d - i - 1)
  }

  lemma FourierNumRange(v: int, i: nat, d: nat)
    requires i < d
    ensures 0 <= FourierNum(v, i, d) < Pow2(d)
  {
    Pow2Add(i + 1, d - i - 1);
    var m, sc := Pow2(i + 1), Pow2(d - i - 1);
    MulLessMul(v % m, m, sc);
  }

  predicate Fits(s: QState, r: Register)
  {
    r.start + r.size <= |s.qubits|
  }

  /** s with register r holding the basis state |v> (qubit i holds bit i of v). */
  function WithBasis(s: QState, r: Register, v: nat): (t: QState)
    requires Fits(s, r)
    ensures |t.qubits| == |s.qubits| && t.phase == s.phase
  {
    QState(seq(|s.qubits|, q requires 0 <= q < |s.qubits| =>
      if r.Contains(q) then Basis(Bit(v, q - r.start)) else s.qubits[q]), s.phase)
  }

  /** s with r's qubits below k in the basis state of v and the others in its Fourier state:
      the state the transform passes through. */
  function Mixed(s: QState, r: Register, v: nat, k: nat, d: nat): (t: QState)
    requires Fits(s, r) && r.size <= d
    ensures |t.qubits| == |s.qubits| && t.phase == s.phase
  {
    QState(seq(|s.qubits|, q requires 0 <= q < |s.qubits| =>
      if r.Contains(q) then
        (if q - r.start < k then Basis(Bit(v, q - r.start)) else Phased(FourierNum(v, q - r.start, d)))
      else s.qubits[q]), s.phase)
  }

  /** s with r's qubits below j in the Fourier state of lo and the others in that of hi:
      the state a Fourier-basis addition passes through. */
  function Fourier2(s: QState, r: Register, lo: int, hi: int, j: nat, d: nat): (t: QState)
    requires Fits(s, r) && r.size <= d
    ensures |t.qubits| == |s.qubits| && t.phase == s.phase
  {
    QState(seq(|s.qubits|, q requires 0 <= q < |s.qubits| =>
      if r.Contains(q) then
        Phased(FourierNum(if q - r.start < j then lo else hi, q - r.start, d))
      else s.qubits[q]), s.phase)
  }

  /** s with register r holding the Fourier state of v. */
  function WithFourier(s: QState, r: Register, v: int, d: nat): (t: QState)
    requires Fits(s, r) && r.size <= d
    ensures |t.qubits| == |s.qubits| && t.phase == s.phase
  {
    Fourier2(s, r, v, v, 0, d)
  }

  lemma MixedEnds(s: QState, r: Register, v: nat, d: nat)
    requires Fits(s, r) && r.size <= d
    ensures Mixed(s, r, v, r.size, d) == WithBasis(s, r, v)
    ensures Mixed(s, r, v, 0, d) == WithFourier(s, r, v, d)
  {
  }

  lemma Fourier2Ends(s: QState, r: Register, lo: int, hi: int, d: nat)
    requires Fits(s, r) && r.size <= d
    ensures Fourier2(s, r, lo, hi, 0, d) == WithFourier(s, r, hi, d)
    ensures Fourier2(s, r, lo, hi, r.size, d) == WithFourier(s, r, lo, d)
  {
  }

  /** Only bits below the register's width matter. */
  lemma WithFourierMod(s: QState, r: Register, v: int, d: nat)
    requires Fits(s, r) && r.size <= d
    ensures WithFourier(s, r, v, d) == WithFourier(s, r, v % Pow2(r.size), d)
  {
    forall i | 0 <= i < r.size ensures FourierNum(v, i, d) == FourierNum(v % Pow2(r.size), i, d) {
      ModPow2Nested(v, i + 1, r.size);
    }
  }

  /** Rewriting a register twice keeps only the second. */
  lemma WithBasisTwice(s: QState, r: Register, v: nat, w: nat)
    requires Fits(s, r)
    ensures WithBasis(WithBasis(s, r, v), r, w) == WithBasis(s, r, w)
  {
  }

  lemma WithBasisOutside(s: QState, r: Register, v: nat, q: nat, x: Qubit)
    requires Fits(s, r) && q < |s.qubits| && !r.Contains(q)
    ensures SetQubit(WithBasis(s, r, v), q, x) == WithBasis(SetQubit(s, q, x), r, v)
  {
  }
}

/** What the QFT and the Fourier-basis adder do to basis and Fourier states. */
module FourierProofs {
  import opened Arith
  import opened Gates
  import opened BasisSemantics
  import opened Circuits

  // ---------------------------------------------------------------------------
  // QFT

  /** Numerator of qubit idx's phase once the controlled phases with the lower qubits
      c_idx = idx-1 down to j are applied: the turn ((v mod 2^(idx+1)) - (v mod 2^j)) / 2^(idx+1). */
  function Partial(v: nat, idx: nat, j: nat, d: nat): int
    requires j <= idx < d
  {
    ((v % Pow2(idx + 1)) - (v % Pow2(j))) * Pow2(d - idx - 1)
  }

  lemma PartialRange(v: nat, idx: nat, j: nat, d: nat)
    requires j <= idx < d
    ensures 0 <= Partial(v, idx, j, d) < Pow2(d)
  {
    var m := Pow2(idx + 1);
    var a := v % m;
    var b := v % Pow2(j);
    ModPow2Nested(v, j, idx + 1);
    ModAtMost(a, Pow2(j));
    Pow2Add(idx + 1, d - idx - 1);
    MulLessMul(a - b, m, Pow2(d - idx - 1));
  }

  /** Partial grows by bit j of v, scaled, when the phase with qubit j is added. */
  lemma PartialStep(v: nat, idx: nat, j: nat, d: nat)
    requires j < idx < d
    ensures Partial(v, idx, j, d) == Partial(v, idx, j + 1, d) + (if Bit(v, j) then Pow2(d - (idx - j + 1)) else 0)
  {
    var a, sc := v % Pow2(idx + 1), Pow2(d - idx - 1);
    var b, b' := v % Pow2(j), v % Pow2(j + 1);
    ModPow2Step(v, j);
    assert (a - b) * sc == (a - b') * sc + (b' - b) * sc;
    Pow2Add(j, d - idx - 1);
    assert d - (idx - j + 1) == j + (d - idx - 1);
  }

  /** The controlled phase with qubit j moves Partial from j+1 to j, and its inverse back. */
  lemma PartialShift(v: nat, idx: nat, j: nat, k: nat, d: nat)
    requires j < idx < d && k == j + 1
    ensures Bit(v, j) ==> AddMod(Partial(v, idx, k, d), Shift(Turn(false, idx - j + 1), d), d) == Partial(v, idx, j, d)
    ensures Bit(v, j) ==> AddMod(Partial(v, idx, j, d), Shift(Turn(true, idx - j + 1), d), d) == Partial(v, idx, k, d)
    ensures !Bit(v, j) ==> Partial(v, idx, j, d) == Partial(v, idx, k, d)
  {
    PartialStep(v, idx, j, d);
    PartialRange(v, idx, j, d);
    PartialRange(v, idx, k, d);
    ModOfInRange(Partial(v, idx, j, d), Pow2(d));
    ModOfInRange(Partial(v, idx, k, d), Pow2(d));
  }

  /** With no lower phases yet, qubit idx holds half a turn exactly when bit idx of v is set. */
  lemma PartialTop(v: nat, idx: nat, d: nat)
    requires idx < d
    ensures Partial(v, idx, idx, d) == if Bit(v, idx) then Pow2(d - 1) else 0
  {
    ModPow2Step(v, idx);
    Pow2Add(idx, d - idx - 1);
  }

  /** With all of them, it holds the Fourier phase of v. */
  lemma PartialBottom(v: nat, idx: nat, d: nat)
    requires idx < d
    ensures Partial(v, idx, 0, d) == FourierNum(v, idx, d)
  {
    assert Pow2(0) == 1;
  }

  /** The state inside step idx of the transform: qubits below idx+1 in the basis state of v
      (qubit idx overridden), qubits above in its Fourier state, qubit idx holding Partial. */
  function RotState(s: QState, r: Register, v: nat, idx: nat, j: nat, d: nat): QState
    requires Fits(s, r) && idx < r.size <= d && j <= idx
  {
    SetQubit(Mixed(s, r, v, idx + 1, d), r.At(idx), Phased(Partial(v, idx, j, d)))
  }

  lemma RotStateQubits(s: QState, r: Register, v: nat, idx: nat, j: nat, d: nat)
    requires Fits(s, r) && idx < r.size <= d && j <= idx
    ensures |RotState(s, r, v, idx, j, d).qubits| == |s.qubits|
    ensures RotState(s, r, v, idx, j, d).qubits[r.At(idx)] == Phased(Partial(v, idx, j, d))
    ensures forall c :: 0 <= c < idx ==> RotState(s, r, v, idx, j, d).qubits[r.At(c)] == Basis(Bit(v, c))
  {
    var m := Mixed(s, r, v, idx + 1, d);
    var t := RotState(s, r, v, idx, j, d);
    assert t.qubits == m.qubits[r.At(idx) := Phased(Partial(v, idx, j, d))];
    forall c | 0 <= c < idx
      ensures t.qubits[r.At(c)] == Basis(Bit(v, c))
    {
      assert r.Contains(r.At(c)) && r.At(c) - r.start == c;
    }
  }

  lemma RotationGate(s: QState, r: Register, v: nat, idx: nat, j: nat, k: nat, d: nat, flip: bool)
    requires Fits(s, r) && idx < r.size <= d && j < idx && k == j + 1
    ensures Apply(CP(r.At(idx), r.At(j), Turn(false, idx - j + 1)), RotState(s, r, v, idx, k, d), d, flip)
            == Some(RotState(s, r, v, idx, j, d))
  {
    RotStateQubits(s, r, v, idx, k, d);
    PartialShift(v, idx, j, k, d);
    SetQubitTwice(Mixed(s, r, v, idx + 1, d), r.At(idx), Phased(Partial(v, idx, k, d)), Phased(Partial(v, idx, j, d)));
  }

  lemma InverseRotationGate(s: QState, r: Register, v: nat, idx: nat, j: nat, k: nat, d: nat, flip: bool)
    requires Fits(s, r) && idx < r.size <= d && j < idx && k == j + 1
    ensures Apply(CP(r.At(idx), r.At(j), Turn(true, idx - j + 1)), RotState(s, r, v, idx, j, d), d, flip)
            == Some(RotState(s, r, v, idx, k, d))
  {
    RotStateQubits(s, r, v, idx, j, d);
    PartialShift(v, idx, j, k, d);
    SetQubitTwice(Mixed(s, r, v, idx + 1, d), r.At(idx), Phased(Partial(v, idx, j, d)), Phased(Partial(v, idx, k, d)));
  }

  /** The controlled phase between qubits idx and j adds bit j's share to qubit idx; its inverse takes it away. */
  lemma RotationStep(s: QState, r: Register, v: nat, idx: nat, j: nat, k: nat, d: nat, flip: bool)
    requires Fits(s, r) && idx < r.size <= d && j < idx && k == j + 1
    ensures Run([CP(r.At(idx), r.At(j), Turn(false, idx - j + 1))], RotState(s, r, v, idx, k, d), d, flip)
            == Some(RotState(s, r, v, idx, j, d))
    ensures Run(Inverse([CP(r.At(idx), r.At(j), Turn(false, idx - j + 1))]), RotState(s, r, v, idx, j, d), d, flip)
            == Some(RotState(s, r, v, idx, k, d))
  {
    var g := CP(r.At(idx), r.At(j), Turn(false, idx - j + 1));
    RotationGate(s, r, v, idx, j, k, d, flip);
    InverseRotationGate(s, r, v, idx, j, k, d, flip);
    RunOne(g, RotState(s, r, v, idx, k, d), d, flip);
    assert Inverse([g]) == [Invert(g)];
    RunOne(Invert(g), RotState(s, r, v, idx, j, d), d, flip);
  }

  /** The rotations from j up move qubit idx from Partial(idx) to Partial(j); their inverse moves it back. */
  lemma {:induction false} RotationsRun(s: QState, r: Register, v: nat, idx: nat, j: nat, d: nat, flip: bool)
    requires Fits(s, r) && idx < r.size <= d && j <= idx
    ensures Run(QftRotations(r, idx, j), RotState(s, r, v, idx, idx, d), d, flip) == Some(RotState(s, r, v, idx, j, d))
    ensures Run(Inverse(QftRotations(r, idx, j)), RotState(s, r, v, idx, j, d), d, flip) == Some(RotState(s, r, v, idx, idx, d))
    decreases idx - j
  {
    if j < idx {
      var k := j + 1;
      RotationsRun(s, r, v, idx, k, d, flip);
      RotationsStep(s, r, v, idx, j, k, d, flip);
    } else {
      assert Inverse(QftRotations(r, idx, j)) == [];
    }
  }

  /** One more rotation extends a known run of the rotations from k = j + 1 to one from j. */
  lemma RotationsStep(s: QState, r: Register, v: nat, idx: nat, j: nat, k: nat, d: nat, flip: bool)
    requires Fits(s, r) && idx < r.size <= d && j < idx && k == j + 1
    requires Run(QftRotations(r, idx, k), RotState(s, r, v, idx, idx, d), d, flip) == Some(RotState(s, r, v, idx, k, d))
    requires Run(Inverse(QftRotations(r, idx, k)), RotState(s, r, v, idx, k, d), d, flip) == Some(RotState(s, r, v, idx, idx, d))
    ensures Run(QftRotations(r, idx, j), RotState(s, r, v, idx, idx, d), d, flip) == Some(RotState(s, r, v, idx, j, d))
    ensures Run(Inverse(QftRotations(r, idx, j)), RotState(s, r, v, idx, j, d), d, flip) == Some(RotState(s, r, v, idx, idx, d))
  {
    var g := CP(r.At(idx), r.At(j), Turn(false, idx - j + 1));
    RotationStep(s, r, v, idx, j, k, d, flip);
    RotationsUnfold(r, idx, j, k);
    RunJoinBoth(QftRotations(r, idx, k), [g], QftRotations(r, idx, j),
      RotState(s, r, v, idx, idx, d), RotState(s, r, v, idx, k, d), RotState(s, r, v, idx, j, d), d, flip);
  }

  lemma RotationsUnfold(r: Register, idx: nat, j: nat, k: nat)
    requires j < idx && k == j + 1
    ensures QftRotations(r, idx, j) == QftRotations(r, idx, k) + [CP(r.At(idx), r.At(j), Turn(false, idx - j + 1))]
  {
  }

  lemma RotStateEnds(s: QState, r: Register, v: nat, idx: nat, d: nat)
    requires Fits(s, r) && idx < r.size <= d
    ensures RotState(s, r, v, idx, 0, d) == Mixed(s, r, v, idx, d)
    ensures SetQubit(RotState(s, r, v, idx, idx, d), r.At(idx), Basis(Bit(v, idx))) == Mixed(s, r, v, idx + 1, d)
    ensures Partial(v, idx, idx, d) == if Bit(v, idx) then Pow2(d - 1) else 0
  {
    PartialBottom(v, idx, d);
    PartialTop(v, idx, d);
    var a := RotState(s, r, v, idx, 0, d).qubits;
    var b := Mixed(s, r, v, idx, d).qubits;
    assert |a| == |b|;
    forall q | 0 <= q < |a| ensures a[q] == b[q] {
    }
  }

  /** One step of the transform: qubit idx moves from the basis state to the Fourier state. */
  lemma QftStepRun(s: QState, r: Register, v: nat, idx: nat, d: nat, flip: bool)
    requires Fits(s, r) && idx < r.size <= d
    ensures Run(QftStep(r, idx), Mixed(s, r, v, idx + 1, d), d, flip) == Some(Mixed(s, r, v, idx, d))
    ensures Run(Inverse(QftStep(r, idx)), Mixed(s, r, v, idx, d), d, flip) == Some(Mixed(s, r, v, idx + 1, d))
  {
    RotStateEnds(s, r, v, idx, d);
    var start := Mixed(s, r, v, idx + 1, d);
    assert start.qubits[r.At(idx)] == Basis(Bit(v, idx));
    assert Apply(H(r.At(idx)), start, d, flip) == Some(RotState(s, r, v, idx, idx, d));
    RunOne(H(r.At(idx)), start, d, flip);
    RotationsRun(s, r, v, idx, 0, d, flip);
    RunSeq([H(r.At(idx))], QftRotations(r, idx, 0), start, RotState(s, r, v, idx, idx, d), Mixed(s, r, v, idx, d), d, flip);

    InverseAppend([H(r.At(idx))], QftRotations(r, idx, 0));
    assert Inverse([H(r.At(idx))]) == [H(r.At(idx))];
    var top := RotState(s, r, v, idx, idx, d);
    assert Apply(H(r.At(idx)), top, d, flip) == Some(start) by {
      if Bit(v, idx) {
        assert Pow2(d - 1) != 0;
      }
    }
    RunOne(H(r.At(idx)), top, d, flip);
    RunSeq(Inverse(QftRotations(r, idx, 0)), [H(r.At(idx))], Mixed(s, r, v, idx, d), top, start, d, flip);
  }

  lemma {:induction false} QftFromRun(s: QState, r: Register, v: nat, i: nat, d: nat, flip: bool)
    requires Fits(s, r) && r.size <= d && i <= r.size
    ensures Run(QftFrom(r, i), WithBasis(s, r, v), d, flip) == Some(Mixed(s, r, v, i, d))
    ensures Run(Inverse(QftFrom(r, i)), Mixed(s, r, v, i, d), d, flip) == Some(WithBasis(s, r, v))
    decreases r.size - i
  {
    MixedEnds(s, r, v, d);
    if i < r.size {
      QftFromRun(s, r, v, i + 1, d, flip);
      QftStepRun(s, r, v, i, d, flip);
      RunSeq(QftFrom(r, i + 1), QftStep(r, i), WithBasis(s, r, v), Mixed(s, r, v, i + 1, d), Mixed(s, r, v, i, d), d, flip);
      InverseAppend(QftFrom(r, i + 1), QftStep(r, i));
      RunSeq(Inverse(QftStep(r, i)), Inverse(QftFrom(r, i + 1)), Mixed(s, r, v, i, d), Mixed(s, r, v, i + 1, d), WithBasis(s, r, v), d, flip);
    }
  }

  /** `QFT(register)` maps the basis state |v> of the register to its Fourier state, in which
      qubit idx carries the turn (v mod 2^(idx+1)) / 2^(idx+1); the rest of the state is kept. */
  lemma QftOnBasis(s: QState, r: Register, v: nat, d: nat, flip: bool)
    requires Fits(s, r) && r.size <= d
    ensures Run(QftGates(r), WithBasis(s, r, v), d, flip) == Some(WithFourier(s, r, v, d))
  {
    QftFromRun(s, r, v, 0, d, flip);
    MixedEnds(s, r, v, d);
  }

  /** `qft.inverse()` maps the Fourier state of any integer x back to the basis state of
      x mod 2^n. */
  lemma InverseQftOnFourier(s: QState, r: Register, x: int, d: nat, flip: bool)
    requires Fits(s, r) && r.size <= d
    ensures Run(Inverse(QftGates(r)), WithFourier(s, r, x, d), d, flip) == Some(WithBasis(s, r, x % Pow2(r.size)))
  {
    InverseQftTo(s, r, x, x % Pow2(r.size), d, flip);
  }

  /** The same, for a basis value b already known to equal x mod 2^n. */
  lemma InverseQftTo(s: QState, r: Register, x: int, b: nat, d: nat, flip: bool)
    requires Fits(s, r) && r.size <= d && b == x % Pow2(r.size)
    ensures Run(Inverse(QftGates(r)), WithFourier(s, r, x, d), d, flip) == Some(WithBasis(s, r, b))
  {
    WithFourierMod(s, r, x, d);
    MixedEnds(s, r, b, d);
    QftFromRun(s, r, b, 0, d, flip);
  }

  // ---------------------------------------------------------------------------
  // Adder

  /** Whether an adder with this control acts: always without one, else when the control is 1. */
  predicate Gain(s: QState, control: Option<nat>)
  {
    control.None? || IsOne(s, control.value)
  }

  /** The control is a basis qubit outside the register. */
  predicate ControlOutside(s: QState, r: Register, control: Option<nat>)
  {
    control.Some? ==> control.value < |s.qubits| && !r.Contains(control.value) && s.qubits[control.value].Basis?
  }

  /** The signed amount added: plus or minus 2^k when the gate acts, else nothing. */
  function Delta(gain: bool, neg: bool, k: nat): int
  {
    if !gain then 0 else if neg then -(Pow2(k) as int) else Pow2(k)
  }

  /** The turn 1/2^(idx+1-k) on qubit idx adds 2^k to the value its Fourier phase encodes. */
  lemma FourierShift(x: int, neg: bool, k: nat, idx: nat, d: nat)
    requires k <= idx < d
    ensures AddMod(FourierNum(x, idx, d), Shift(Turn(neg, idx + 1 - k), d), d) == FourierNum(x + Delta(true, neg, k), idx, d)
  {
    var m, sc := Pow2(idx + 1), Pow2(d - idx - 1);
    Pow2Add(idx + 1, d - idx - 1);
    Pow2Add(k, d - idx - 1);
    assert d - (idx + 1 - k) == k + (d - idx - 1);
    var y := Delta(true, neg, k);
    assert y * sc == Shift(Turn(neg, idx + 1 - k), d);
    ScaledAddMod(x, y, m, sc);
  }

  /** The gate of `power_two_addition(k)` on qubit idx, acting when the control allows. */
  lemma PhaseGate(t: QState, q: nat, control: Option<nat>, neg: bool, k: nat, idx: nat, x: int, d: nat, flip: bool)
    requires k <= idx < d && q < |t.qubits| && t.qubits[q] == Phased(FourierNum(x, idx, d))
    requires control.Some? ==> control.value < |t.qubits| && control.value != q && t.qubits[control.value].Basis?
    ensures Apply(PhaseOn(q, control, Turn(neg, idx + 1 - k)), t, d, flip)
            == Some(SetQubit(t, q, Phased(FourierNum(x + Delta(Gain(t, control), neg, k), idx, d))))
  {
    FourierShift(x, neg, k, idx, d);
    if !Gain(t, control) {
      assert t.qubits[q := t.qubits[q]] == t.qubits;
    }
  }

  /** Qubits below the added power of two do not notice it. */
  lemma ModIgnoresHigh(x: int, c: int, k: nat, idx: nat)
    requires idx < k
    ensures (x + c * Pow2(k)) % Pow2(idx + 1) == x % Pow2(idx + 1)
  {
    var m, q := Pow2(idx + 1), Pow2(k - idx - 1);
    Pow2Add(idx + 1, k - idx - 1);
    assert idx + 1 + (k - idx - 1) == k;
    assert Pow2(k) == m * q;
    MulAssoc(c, q, m);
    assert c * Pow2(k) == (c * q) * m;
    ModAddMultiple(x, c * q, m);
  }

  lemma Fourier2Set(s: QState, r: Register, lo: int, hi: int, i: nat, d: nat)
    requires Fits(s, r) && r.size <= d && 1 <= i <= r.size
    ensures Fourier2(s, r, lo, hi, i - 1, d).qubits[r.At(i - 1)] == Phased(FourierNum(hi, i - 1, d))
    ensures Fourier2(s, r, lo, hi, i, d).qubits[r.At(i - 1)] == Phased(FourierNum(lo, i - 1, d))
    ensures SetQubit(Fourier2(s, r, lo, hi, i - 1, d), r.At(i - 1), Phased(FourierNum(lo, i - 1, d))) == Fourier2(s, r, lo, hi, i, d)
    ensures SetQubit(Fourier2(s, r, lo, hi, i, d), r.At(i - 1), Phased(FourierNum(hi, i - 1, d))) == Fourier2(s, r, lo, hi, i - 1, d)
  {
    var a := SetQubit(Fourier2(s, r, lo, hi, i - 1, d), r.At(i - 1), Phased(FourierNum(lo, i - 1, d))).qubits;
    var b := Fourier2(s, r, lo, hi, i, d).qubits;
    forall q | 0 <= q < |a| ensures a[q] == b[q] {
    }
    var a' := SetQubit(Fourier2(s, r, lo, hi, i, d), r.At(i - 1), Phased(FourierNum(hi, i - 1, d))).qubits;
    var b' := Fourier2(s, r, lo, hi, i - 1, d).qubits;
    forall q | 0 <= q < |a'| ensures a'[q] == b'[q] {
    }
  }

  /** Register states keep the qubits outside the register, so a control there is unchanged. */
  lemma ControlKept(s: QState, r: Register, control: Option<nat>, lo: int, hi: int, i: nat, d: nat)
    requires Fits(s, r) && r.size <= d && ControlOutside(s, r, control)
    ensures ControlOutside(Fourier2(s, r, lo, hi, i, d), r, control)
    ensures Gain(Fourier2(s, r, lo, hi, i, d), control) == Gain(s, control)
  {
  }

  function PowerTwoBlockGates(r: Register, control: Option<nat>, k: nat, i: nat): seq<Gate>
    requires i >= 1
  {
    if i > k then [PhaseOn(r.At(i - 1), control, Turn(false, i - k))] else []
  }

  /** The gate of `power_two_addition(k)` on qubit i-1 (none when i <= k), and its inverse. */
  lemma PowerTwoBlock(s: QState, r: Register, control: Option<nat>, k: nat, i: nat, lo: int, hi: int, d: nat, flip: bool)
    requires Fits(s, r) && r.size <= d && 1 <= i <= r.size && ControlOutside(s, r, control)
    requires lo == hi + Delta(Gain(s, control), false, k)
    ensures Run(PowerTwoBlockGates(r, control, k, i), Fourier2(s, r, lo, hi, i - 1, d), d, flip) == Some(Fourier2(s, r, lo, hi, i, d))
    ensures Run(Inverse(PowerTwoBlockGates(r, control, k, i)), Fourier2(s, r, lo, hi, i, d), d, flip) == Some(Fourier2(s, r, lo, hi, i - 1, d))
  {
    if i > k {
      PowerTwoPhase(s, r, control, k, i, lo, hi, d, flip);
    } else {
      PowerTwoIdle(s, r, control, k, i, lo, hi, d, flip);
    }
  }

  /** Above k the block is one phase on qubit i-1, moving it from the Fourier state of hi to that of lo. */
  lemma PowerTwoPhase(s: QState, r: Register, control: Option<nat>, k: nat, i: nat, lo: int, hi: int, d: nat, flip: bool)
    requires Fits(s, r) && r.size <= d && 1 <= i <= r.size && ControlOutside(s, r, control)
    requires lo == hi + Delta(Gain(s, control), false, k)
    requires i > k
    ensures Run(PowerTwoBlockGates(r, control, k, i), Fourier2(s, r, lo, hi, i - 1, d), d, flip) == Some(Fourier2(s, r, lo, hi, i, d))
    ensures Run(Inverse(PowerTwoBlockGates(r, control, k, i)), Fourier2(s, r, lo, hi, i, d), d, flip) == Some(Fourier2(s, r, lo, hi, i - 1, d))
  {
    var idx := i - 1;
    Fourier2Set(s, r, lo, hi, i, d);
    ControlKept(s, r, control, lo, hi, i - 1, d);
    ControlKept(s, r, control, lo, hi, i, d);
    var g := PhaseOn(r.At(idx), control, Turn(false, i - k));
    var t := Fourier2(s, r, lo, hi, i - 1, d);
    PhaseGate(t, r.At(idx), control, false, k, idx, hi, d, flip);
    RunOne(g, t, d, flip);
    assert Inverse([g]) == [Invert(g)];
    var u := Fourier2(s, r, lo, hi, i, d);
    assert Invert(g) == PhaseOn(r.At(idx), control, Turn(true, i - k));
    PhaseGate(u, r.At(idx), control, true, k, idx, lo, d, flip);
    assert lo + Delta(Gain(s, control), true, k) == hi;
    RunOne(Invert(g), u, d, flip);
  }

  /** At or below k the block is empty: qubit i-1 is the same for lo and hi. */
  lemma PowerTwoIdle(s: QState, r: Register, control: Option<nat>, k: nat, i: nat, lo: int, hi: int, d: nat, flip: bool)
    requires Fits(s, r) && r.size <= d && 1 <= i <= r.size && ControlOutside(s, r, control)
    requires lo == hi + Delta(Gain(s, control), false, k)
    requires i <= k
    ensures Run(PowerTwoBlockGates(r, control, k, i), Fourier2(s, r, lo, hi, i - 1, d), d, flip) == Some(Fourier2(s, r, lo, hi, i, d))
    ensures Run(Inverse(PowerTwoBlockGates(r, control, k, i)), Fourier2(s, r, lo, hi, i, d), d, flip) == Some(Fourier2(s, r, lo, hi, i - 1, d))
  {
    var idx := i - 1;
    ModIgnoresHigh(hi, if Gain(s, control) then 1 else 0, k, idx);
    assert FourierNum(lo, idx, d) == FourierNum(hi, idx, d);
    Fourier2Set(s, r, lo, hi, i, d);
    assert Fourier2(s, r, lo, hi, i - 1, d) == Fourier2(s, r, lo, hi, i, d);
  }

  lemma {:induction false} PowerTwoRun(s: QState, r: Register, control: Option<nat>, k: nat, i: nat, v: int, a: int, d: nat, flip: bool)
    requires Fits(s, r) && r.size <= d && i <= r.size && ControlOutside(s, r, control)
    requires a == v + Delta(Gain(s, control), false, k)
    ensures Run(PowerTwoGates(r, control, k, i), WithFourier(s, r, v, d), d, flip) == Some(Fourier2(s, r, a, v, i, d))
  {
    if i == 0 {
      Fourier2Ends(s, r, a, v, d);
    } else {
      PowerTwoRun(s, r, control, k, i - 1, v, a, d, flip);
      var block := PowerTwoBlockGates(r, control, k, i);
      assert PowerTwoGates(r, control, k, i) == PowerTwoGates(r, control, k, i - 1) + block;
      PowerTwoBlock(s, r, control, k, i, a, v, d, flip);
      RunSeq(PowerTwoGates(r, control, k, i - 1), block, WithFourier(s, r, v, d),
        Fourier2(s, r, a, v, i - 1, d), Fourier2(s, r, a, v, i, d), d, flip);
    }
  }

  lemma {:induction false} InversePowerTwoRun(s: QState, r: Register, control: Option<nat>, k: nat, i: nat, v: int, a: int, d: nat, flip: bool)
    requires Fits(s, r) && r.size <= d && i <= r.size && ControlOutside(s, r, control)
    requires a == v + Delta(Gain(s, control), false, k)
    ensures Run(Inverse(PowerTwoGates(r, control, k, i)), Fourier2(s, r, a, v, i, d), d, flip) == Some(WithFourier(s, r, v, d))
  {
    if i == 0 {
      Fourier2Ends(s, r, a, v, d);
    } else {
      InversePowerTwoRun(s, r, control, k, i - 1, v, a, d, flip);
      var block := PowerTwoBlockGates(r, control, k, i);
      assert PowerTwoGates(r, control, k, i) == PowerTwoGates(r, control, k, i - 1) + block;
      PowerTwoBlock(s, r, control, k, i, a, v, d, flip);
      InverseAppend(PowerTwoGates(r, control, k, i - 1), block);
      RunSeq(Inverse(block), Inverse(PowerTwoGates(r, control, k, i - 1)), Fourier2(s, r, a, v, i, d),
        Fourier2(s, r, a, v, i - 1, d), WithFourier(s, r, v, d), d, flip);
    }
  }

  /** The amount added by the digits of n below position j: their powers of two, when the control allows. */
  function Added(s: QState, control: Option<nat>, n: nat, j: nat): int
    requires j <= |Bits(n)|
  {
    if j == 0 then 0
    else Added(s, control, n, j - 1) + (if Bits(n)[j - 1] == 1 then Delta(Gain(s, control), false, j - 1) else 0)
  }

  function DigitBlock(r: Register, n: nat, control: Option<nat>, j: nat): seq<Gate>
    requires 1 <= j <= |Bits(n)|
  {
    if Bits(n)[j - 1] == 1 then PowerTwoGates(r, control, j - 1, r.size) else []
  }

  /** Digit j-1 of n adds its power of two to the Fourier value (when set and the control allows); its inverse subtracts it. */
  lemma DigitBlockRun(s: QState, r: Register, n: nat, control: Option<nat>, j: nat, x: int, y: int, d: nat, flip: bool)
    requires Fits(s, r) && r.size <= d && 1 <= j <= |Bits(n)| && ControlOutside(s, r, control)
    requires y == x + (if Bits(n)[j - 1] == 1 then Delta(Gain(s, control), false, j - 1) else 0)
    ensures Run(DigitBlock(r, n, control, j), WithFourier(s, r, x, d), d, flip) == Some(WithFourier(s, r, y, d))
    ensures Run(Inverse(DigitBlock(r, n, control, j)), WithFourier(s, r, y, d), d, flip) == Some(WithFourier(s, r, x, d))
  {
    DigitShift(s, r, control, j - 1, Bits(n)[j - 1] == 1, DigitBlock(r, n, control, j), x, y, d, flip);
  }

  /** A digit's block moves the Fourier value from x to x + 2^k when the digit is set (and the control allows), and its inverse back. */
  lemma DigitShift(s: QState, r: Register, control: Option<nat>, k: nat, bit: bool, gs: seq<Gate>, x: int, y: int, d: nat, flip: bool)
    requires Fits(s, r) && r.size <= d && ControlOutside(s, r, control)
    requires gs == (if bit then PowerTwoGates(r, control, k, r.size) else [])
    requires y == x + (if bit then Delta(Gain(s, control), false, k) else 0)
    ensures Run(gs, WithFourier(s, r, x, d), d, flip) == Some(WithFourier(s, r, y, d))
    ensures Run(Inverse(gs), WithFourier(s, r, y, d), d, flip) == Some(WithFourier(s, r, x, d))
  {
    if bit {
      PowerTwoRun(s, r, control, k, r.size, x, y, d, flip);
      InversePowerTwoRun(s, r, control, k, r.size, x, y, d, flip);
      Fourier2Ends(s, r, y, x, d);
    } else {
      assert Inverse(gs) == [];
    }
  }

  /** The digits below position j add up to n mod 2^j. */
  lemma {:induction false} AddedValue(s: QState, control: Option<nat>, n: nat, j: nat)
    requires j <= |Bits(n)|
    ensures Added(s, control, n, j) == if Gain(s, control) then n % Pow2(j) else 0
  {
    if j > 0 {
      AddedValue(s, control, n, j - 1);
      ModPow2Step(n, j - 1);
      BitsAt(n, j - 1);
    }
  }

  /** The digit blocks below position j add Added(j) to the Fourier value; their inverse subtracts it. */
  lemma {:induction false} AdditionFromRun(s: QState, r: Register, n: nat, control: Option<nat>, j: nat, v: int, w: int, d: nat, flip: bool)
    requires Fits(s, r) && r.size <= d && j <= |Bits(n)| && ControlOutside(s, r, control)
    requires w == v + Added(s, control, n, j)
    ensures Run(AdditionFrom(r, n, control, j), WithFourier(s, r, v, d), d, flip) == Some(WithFourier(s, r, w, d))
    ensures Run(Inverse(AdditionFrom(r, n, control, j)), WithFourier(s, r, w, d), d, flip) == Some(WithFourier(s, r, v, d))
  {
    if j == 0 {
      assert Inverse(AdditionFrom(r, n, control, j)) == [];
    } else {
      var u := v + Added(s, control, n, j - 1);
      AdditionFromRun(s, r, n, control, j - 1, v, u, d, flip);
      DigitBlockRun(s, r, n, control, j, u, w, d, flip);
      RunJoin(AdditionFrom(r, n, control, j - 1), DigitBlock(r, n, control, j), AdditionFrom(r, n, control, j),
        WithFourier(s, r, v, d), WithFourier(s, r, u, d), WithFourier(s, r, w, d), d, flip);
      InverseRunJoin(AdditionFrom(r, n, control, j - 1), DigitBlock(r, n, control, j), AdditionFrom(r, n, control, j),
        WithFourier(s, r, w, d), WithFourier(s, r, u, d), WithFourier(s, r, v, d), d, flip);
    }
  }

  lemma DigitsCoverAll(n: nat)
    ensures n % Pow2(|Bits(n)|) == n
  {
    BitsAt(n, 0);
    if n >= 1 {
      BitLengthBounds(n);
      ModOfInRange(n, Pow2(BitLength(n)));
    }
  }

  /** `Addition(register, n, control)` adds n to the value held in the Fourier basis (when the
      control is 1, or always without a control). Nothing outside the register changes. */
  lemma AdditionOnFourier(s: QState, r: Register, n: nat, control: Option<nat>, v: int, d: nat, flip: bool)
    requires Fits(s, r) && r.size <= d && ControlOutside(s, r, control)
    ensures Run(AdditionGates(r, n, control), WithFourier(s, r, v, d), d, flip)
            == Some(WithFourier(s, r, if Gain(s, control) then v + n else v, d))
  {
    var len := |Bits(n)|;
    DigitsCoverAll(n);
    AddedValue(s, control, n, len);
    AdditionFromRun(s, r, n, control, len, v, if Gain(s, control) then v + n else v, d, flip);
  }

  /** Its inverse subtracts n. */
  lemma InverseAdditionOnFourier(s: QState, r: Register, n: nat, control: Option<nat>, v: int, d: nat, flip: bool)
    requires Fits(s, r) && r.size <= d && ControlOutside(s, r, control)
    ensures Run(Inverse(AdditionGates(r, n, control)), WithFourier(s, r, v, d), d, flip)
            == Some(WithFourier(s, r, if Gain(s, control) then v - n else v, d))
  {
    var len := |Bits(n)|;
    DigitsCoverAll(n);
    AddedValue(s, control, n, len);
    var w := if Gain(s, control) then v - n else v;
    assert w + Added(s, control, n, len) == v;
    AdditionFromRun(s, r, n, control, len, w, v, d, flip);
  }

  /** The adder moves the Fourier value from v to w (v + n when the control allows), and its inverse moves it back. */
  lemma AdditionShift(s: QState, r: Register, n: nat, control: Option<nat>, v: int, w: int, d: nat, flip: bool)
    requires Fits(s, r) && r.size <= d && ControlOutside(s, r, control)
    requires w == if Gain(s, control) then v + n else v
    ensures Run(AdditionGates(r, n, control), WithFourier(s, r, v, d), d, flip) == Some(WithFourier(s, r, w, d))
    ensures Run(Inverse(AdditionGates(r, n, control)), WithFourier(s, r, w, d), d, flip) == Some(WithFourier(s, r, v, d))
  {
    var len := |Bits(n)|;
    DigitsCoverAll(n);
    AddedValue(s, control, n, len);
    AdditionFromRun(s, r, n, control, len, v, w, d, flip);
  }

  /** The phase `Addition(register, n)` leaves on qubit idx, starting from the Fourier state of
      0 (every qubit at phase 0): the turn (n mod 2^(idx+1)) / 2^(idx+1). */
  lemma AdditionPhaseOnQubit(s: QState, r: Register, n: nat, idx: nat, d: nat, flip: bool)
    requires Fits(s, r) && r.size <= d && idx < r.size
    ensures Run(AdditionGates(r, n, None), WithFourier(s, r, 0, d), d, flip) == Some(WithFourier(s, r, n, d))
    ensures WithFourier(s, r, n, d).qubits[r.At(idx)] == Phased((n % Pow2(idx + 1)) * Pow2(d - idx - 1))
  {
    AdditionOnFourier(s, r, n, None, 0, d, flip);
  }
}

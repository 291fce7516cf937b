/** Which qubits the circuits touch: every gate stays inside the registers and flags it is
    built on, so a circuit on registers below a width acts on no qubit at or above it. */
module Footprint {
  import opened Arith
  import opened Gates
  import opened Knapsack
  import opened Circuits
  import opened CircuitFacts

  /** Every qubit of r lies below width. */
  predicate Below(r: Register, width: nat)
  {
    r.start + r.size <= width
  }

  predicate FlagsBelow(flags: Flags, width: nat)
  {
    flags.x < width && flags.neighbor < width && flags.both < width
  }

  // ---------------------------------------------------------------------------
  // Composing circuits

  lemma WithinAppend(a: seq<Gate>, b: seq<Gate>, width: nat)
    requires Within(a, width) && Within(b, width)
    ensures Within(a + b, width)
  {
    forall i, q | 0 <= i < |a + b| && q in Qubits((a + b)[i])
      ensures q < width
    {
      if i >= |a| {
        assert (a + b)[i] == b[i - |a|];
      }
    }
  }

  /** Inverting a gate keeps its qubits. */
  lemma InvertQubits(g: Gate)
    ensures Qubits(Invert(g)) == Qubits(g)
  {
  }

  /** `inverse()` acts on the qubits of the circuit it inverts. */
  lemma {:induction false} WithinInverse(gs: seq<Gate>, width: nat)
    requires Within(gs, width)
    ensures Within(Inverse(gs), width)
  {
    if gs != [] {
      var rest := gs[1..];
      forall i, q | 0 <= i < |rest| && q in Qubits(rest[i])
        ensures q < width
      {
        assert rest[i] == gs[i + 1];
      }
      WithinInverse(rest, width);
      InvertQubits(gs[0]);
      WithinAppend(Inverse(rest), [Invert(gs[0])], width);
    }
  }

  /** Binding a parameter changes angles, never qubits. */
  lemma WithinBind(gs: seq<Gate>, from: Param, to: Angle, width: nat)
    requires Within(gs, width)
    ensures Within(Bind(gs, from, to), width)
  {
    var bound := Bind(gs, from, to);
    forall i, q | 0 <= i < |bound| && q in Qubits(bound[i])
      ensures q < width
    {
      assert bound[i] == BindGate(gs[i], from, to);
      assert Qubits(BindGate(gs[i], from, to)) == Qubits(gs[i]);
    }
  }

  // ---------------------------------------------------------------------------
  // The oracle

  lemma QftWithin(r: Register, width: nat)
    requires Below(r, width)
    ensures Within(QftGates(r), width)
  {
    QftShape(r);
    var gs := QftGates(r);
    forall i, q | 0 <= i < |gs| && q in Qubits(gs[i])
      ensures q < width
    {
      assert QftShaped(gs[i], r);
    }
  }

  /** The adder acts on its register and, when controlled, on the control qubit. */
  lemma AdditionWithin(r: Register, n: nat, control: Option<nat>, width: nat)
    requires Below(r, width) && (control.Some? ==> control.value < width)
    ensures Within(AdditionGates(r, n, control), width)
  {
    AdditionShape(r, n, control);
    var gs := AdditionGates(r, n, control);
    forall i, q | 0 <= i < |gs| && q in Qubits(gs[i])
      ensures q < width
    {
      assert AdderShaped(gs[i], r, control);
    }
  }

  lemma {:induction false} ControlledAdditionsWithin(choice: Register, weight: Register, weights: seq<int>, j: nat, width: nat)
    requires j <= |weights| && forall i :: 0 <= i < |weights| ==> weights[i] >= 0
    requires j <= choice.size && Below(choice, width) && Below(weight, width)
    ensures Within(ControlledAdditions(choice, weight, weights, j), width)
  {
    if j > 0 {
      ControlledAdditionsWithin(choice, weight, weights, j - 1, width);
      AdditionWithin(weight, weights[j - 1] as nat, Some(choice.At(j - 1)), width);
      WithinAppend(ControlledAdditions(choice, weight, weights, j - 1),
                   AdditionGates(weight, weights[j - 1] as nat, Some(choice.At(j - 1))), width);
    }
  }

  lemma OracleSubWithin(choice: Register, weight: Register, p: KnapsackProblem, width: nat)
    requires OracleDefined(p) && Below(choice, width) && Below(weight, width)
    ensures Within(OracleSub(choice, weight, p), width)
  {
    var qft := QftGates(weight);
    var adds := ControlledAdditions(choice, weight, p.weights, ZipLength(choice, |p.weights|));
    var offset := AdditionGates(weight, OracleOffset(p.maxWeight), None);
    QftWithin(weight, width);
    ControlledAdditionsWithin(choice, weight, p.weights, ZipLength(choice, |p.weights|), width);
    AdditionWithin(weight, OracleOffset(p.maxWeight), None, width);
    WithinInverse(qft, width);
    WithinAppend(qft, adds, width);
    WithinAppend(qft + adds, offset, width);
    WithinAppend(qft + adds + offset, Inverse(qft), width);
  }

  lemma XGatesWithin(r: Register, width: nat)
    requires Below(r, width)
    ensures Within(XGates(r), width)
  {
    var gs := XGates(r);
    forall i, q | 0 <= i < |gs| && q in Qubits(gs[i])
      ensures q < width
    {
      assert gs[i] == X(r.At(i));
    }
  }

  /** The multi-controlled X on a register's qubits and a target below width. */
  lemma McxWithin(r: Register, target: nat, width: nat)
    requires Below(r, width) && target < width
    ensures Within([MCX(r.QubitList(), target)], width)
  {
    var cs := r.QubitList();
    forall q | q in Qubits(MCX(cs, target))
      ensures q < width
    {
      if q != target {
        var k :| 0 <= k < |cs| && cs[k] == q;
      }
    }
  }

  /** `FBSOracle` acts on the choice and weight registers and its flag qubit. */
  lemma OracleWithin(choice: Register, weight: Register, flag: nat, p: KnapsackProblem, cleanUp: bool, width: nat)
    requires OracleDefined(p) && Below(choice, width) && Below(weight, width) && flag < width
    ensures Within(OracleGates(choice, weight, flag, p, cleanUp), width)
  {
    var sub := OracleSub(choice, weight, p);
    var high := weight.From(OracleWidth(p.maxWeight));
    var xs := XGates(high);
    var mcx := [MCX(high.QubitList(), flag)];
    var undo := if cleanUp then Inverse(sub) else [];
    OracleSubWithin(choice, weight, p, width);
    XGatesWithin(high, width);
    McxWithin(high, flag, width);
    WithinInverse(sub, width);
    WithinAppend(sub, xs, width);
    WithinAppend(sub + xs, mcx, width);
    WithinAppend(sub + xs + mcx, xs, width);
    WithinAppend(sub + xs + mcx + xs, undo, width);
  }

  // ---------------------------------------------------------------------------
  // The walk and the mixer

  lemma WalkAroundWithin(ox: seq<Gate>, on: seq<Gate>, flags: Flags, q: nat, width: nat)
    requires Within(ox, width) && Within(on, width) && FlagsBelow(flags, width) && q < width
    ensures Within(WalkAround(ox, on, flags, q), width)
  {
    var xj := [X(q)];
    var both := [CCX(flags.x, flags.neighbor, flags.both)];
    var rot := [CRX(flags.both, q, Angle(2.0, Beta))];
    assert Within(xj, width) && Within(both, width) && Within(rot, width);
    WithinAppend(ox, xj, width);
    WithinAppend(ox + xj, on, width);
    WithinAppend(ox + xj + on, xj, width);
    WithinAppend(ox + xj + on + xj, both, width);
    WithinAppend(ox + xj + on + xj + both, rot, width);
    WithinAppend(ox + xj + on + xj + both + rot, both, width);
    WithinAppend(ox + xj + on + xj + both + rot + both, xj, width);
    WithinAppend(ox + xj + on + xj + both + rot + both + xj, on, width);
    WithinAppend(ox + xj + on + xj + both + rot + both + xj + on, xj, width);
    WithinAppend(ox + xj + on + xj + both + rot + both + xj + on + xj, ox, width);
  }

  /** `SingleQubitQuantumWalk` acts on the choice and weight registers and the three flags. */
  lemma WalkWithin(choice: Register, weight: Register, flags: Flags, p: KnapsackProblem, j: nat, width: nat)
    requires OracleDefined(p) && j < choice.size
    requires Below(choice, width) && Below(weight, width) && FlagsBelow(flags, width)
    ensures Within(WalkGates(choice, weight, flags, p, j), width)
  {
    OracleWithin(choice, weight, flags.x, p, true, width);
    OracleWithin(choice, weight, flags.neighbor, p, true, width);
    WalkAroundWithin(OracleGates(choice, weight, flags.x, p, true), OracleGates(choice, weight, flags.neighbor, p, true),
                     flags, choice.At(j), width);
  }

  lemma {:induction false} WalkRoundWithin(ox: seq<Gate>, on: seq<Gate>, choice: Register, flags: Flags, m: nat, j: nat, width: nat)
    requires m >= 1 && j <= choice.size && Below(choice, width)
    requires Within(ox, width) && Within(on, width) && FlagsBelow(flags, width)
    ensures Within(WalkRound(ox, on, choice, flags, m, j), width)
  {
    if j > 0 {
      var step := WalkAround(ox, on, flags, choice.At(j - 1));
      WalkRoundWithin(ox, on, choice, flags, m, j - 1, width);
      WalkAroundWithin(ox, on, flags, choice.At(j - 1), width);
      WithinBind(step, Beta, Angle(1.0 / (m as real), Beta), width);
      WithinAppend(WalkRound(ox, on, choice, flags, m, j - 1), Bind(step, Beta, Angle(1.0 / (m as real), Beta)), width);
    }
  }

  lemma {:induction false} MixerRoundsWithin(ox: seq<Gate>, on: seq<Gate>, choice: Register, flags: Flags,
                                             n: nat, m: nat, t: nat, width: nat)
    requires t <= m && n <= choice.size && Below(choice, width)
    requires Within(ox, width) && Within(on, width) && FlagsBelow(flags, width)
    ensures Within(MixerRounds(ox, on, choice, flags, n, m, t), width)
  {
    if t > 0 {
      MixerRoundsWithin(ox, on, choice, flags, n, m, t - 1, width);
      WalkRoundWithin(ox, on, choice, flags, m, n, width);
      WithinAppend(MixerRounds(ox, on, choice, flags, n, m, t - 1), WalkRound(ox, on, choice, flags, m, n), width);
    }
  }

  /** `QWMixer` acts on the choice and weight registers and the three flags. */
  lemma MixerWithin(choice: Register, weight: Register, flags: Flags, p: KnapsackProblem, m: nat, width: nat)
    requires OracleDefined(p) && |p.weights| <= choice.size
    requires Below(choice, width) && Below(weight, width) && FlagsBelow(flags, width)
    ensures Within(MixerGates(choice, weight, flags, p, m), width)
  {
    OracleWithin(choice, weight, flags.x, p, true, width);
    OracleWithin(choice, weight, flags.neighbor, p, true, width);
    MixerRoundsWithin(OracleGates(choice, weight, flags.x, p, true), OracleGates(choice, weight, flags.neighbor, p, true),
                      choice, flags, |p.weights|, m, m, width);
  }

  /** `Dephase` acts on the choice register alone. */
  lemma DephaseWithin(choice: Register, values: seq<real>, width: nat)
    requires Below(choice, width)
    ensures Within(DephaseGates(choice, values), width)
  {
    var gs := DephaseGates(choice, values);
    forall i, q | 0 <= i < |gs| && q in Qubits(gs[i])
      ensures q < width
    {
      assert gs[i] == PhaseParam(choice.At(i), Angle(-values[i], Gamma));
    }
  }
}

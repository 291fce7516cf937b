# Quantum-walk QAOA for the 0/1 knapsack problem, modelled in Dafny

This project models the core of a small QAOA code base for the 0/1 knapsack problem:

- the problem record and its brute-force solver (`KnapsackMethod.py`);
- the circuit builders (`Circuits.py`): QFT, the Draper adder, the feasibility oracle, the
  single-qubit quantum walk, the walk mixer and the phase separator;
- the full ansatz `QuantumWalkQAOA` (`QAOA.py`);
- the classical post-processing (`Utilities.py`): bitstring decoding, expectations over a
  probability dictionary, the angle layout, and the approximation ratio.

The notebook checkpoint copies (`KnapsackEncoding-checkpoint.py`, `Circuits-checkpoint.py`,
`utils-checkpoint.py`) are the same algorithms under older names. They are modelled once; their
rows below name the lemmas that state their promises.

A circuit is a gate list (`seq<Gate>`). Phase angles are exact signed fractions of a turn,
`Turn(neg, k)` for ±2π/2^k. Parameterised angles are symbolic: `Angle(coeff, param)`. Each circuit
class builds its `gates` field in the source's loops and is proved equal to a gate-list function.
That function carries the properties.

Gates act on product states (semantics.dfy). A qubit holds either a basis bit or a Fourier phase
num/2^D, and `Run` applies a gate list. This is enough to prove the following on basis inputs:

- the QFT, its inverse and the adder;
- the oracle: the flag flips exactly when (selected weight + w0) mod 2^n < 2^c;
- the walk step: item j toggles exactly when the selection and its neighbour are both feasible,
  and the flags and the weight register are restored.

The controlled rotation is followed one branch at a time (parameter `flip`).

Modules:

- arith.dfy: powers of two, bits and bit length, modular facts.
- knapsack.dfy: `Knapsack`.
- gates.dfy: `Gates`.
- semantics.dfy: `BasisSemantics`.
- circuits.dfy: `Circuits`.
- fourier.dfy: `FourierProofs`.
- oracle.dfy: `OracleProofs`.
- walk.dfy: `WalkProofs`.
- structure.dfy: `CircuitFacts`.
- footprint.dfy: `Footprint`, the qubits each circuit acts on.
- qaoa.dfy: `Qaoa`.
- utilities.dfy: `Utilities`.

## Model

| member | source | states |
|---|---|---|
| Knapsack.FullChoiceWeighsTotal | backend_theoretical/KnapsackMethod.py:10-18 | selecting every item weighs exactly `total_weight`, the sum of the weights |
| Knapsack.WeightAtMostTotal | backend_theoretical/KnapsackMethod.py:17-18 | with non-negative weights, every 0/1 selection weighs between 0 and `total_weight` |
| Knapsack.ValueNonNegative | backend_theoretical/KnapsackMethod.py:14-15 | with non-negative values, every 0/1 selection is worth at least 0 |
| Knapsack.ZeroChoiceFeasibleIff | backend_theoretical/KnapsackMethod.py:20-21 | the empty selection weighs 0 and is worth 0, and it is feasible exactly when max_weight >= 0 |
| Knapsack.WeightToggle | backend_theoretical/KnapsackMethod.py:17-21 | toggling item j changes the weight by +weights[j] or -weights[j]; this is the neighbour move the walk tests |
| Knapsack.ChoiceNumberBijection | backend_theoretical/KnapsackMethod.py:24-25 | `choices_from_number` is a bijection from [0, 2^N) onto the 0/1 vectors of length N; `NumberOf` is its inverse both ways |
| Knapsack.ChoicesFromNumberBits | backend-theoretical/.ipynb_checkpoints/KnapsackEncoding-checkpoint.py:25-26 | for i < 2^N the decoded choice is a 0/1 vector of length N whose entry k is bit k of i, least significant first |
| Knapsack.ClassicalSolutions | backend_theoretical/KnapsackMethod.py:23-38 | the loop over all 2^N choices, with its `best`/`solutions` updates, returns exactly `OptimalChoices(p)`; the next lemmas characterise that list |
| Knapsack.OptimalChoicesFeasible | backend_theoretical/KnapsackMethod.py:26-37 | every returned solution is a feasible 0/1 choice, and all are worth the same best value, which is >= 0 |
| Knapsack.OptimalChoicesMaximal | backend_theoretical/KnapsackMethod.py:26-37 | no feasible choice is worth more than any returned solution |
| Knapsack.OptimalChoicesKeepTies | backend_theoretical/KnapsackMethod.py:33-37 | every feasible choice worth the best value is returned, so ties are kept |
| Knapsack.OptimalChoicesInEnumerationOrder | backend_theoretical/KnapsackMethod.py:28-37 | the solutions appear in strictly increasing order of enumeration number |
| Knapsack.OptimalChoicesNonEmptyIff | backend_theoretical/KnapsackMethod.py:26-38 | the result is non-empty exactly when some feasible choice is worth at least 0, where `best` starts; so max_weight >= 0 gives at least one solution, and no feasible choice gives none |
| Knapsack.OptimalChoicesExact | backend-theoretical/.ipynb_checkpoints/KnapsackEncoding-checkpoint.py:27-39 | a choice is returned exactly when it is a feasible 0/1 vector worth BestValue(p), the larger of 0 and the best feasible value, and no feasible choice is worth more than BestValue(p) |
| Gates.InverseInvolution | backend_theoretical/Circuits.py:53-60 | inverting a gate list twice gives it back, so the clean-up of the clean-up is the original sub-circuit |
| Circuits.Qft.constructor | backend_theoretical/Circuits.py:11-18 | the nested loops build exactly `QftGates(register)` |
| Circuits.Addition.constructor | backend_theoretical/Circuits.py:20-29 | the loop over the binary digits of n builds exactly `AdditionGates(register, n, control)` |
| Circuits.Addition.PowerTwoAddition | backend_theoretical/Circuits.py:31-39 | appends one `p` (or `cp` with the control) of 2π/2^(idx+1-k) for each register qubit idx with idx+1 > k |
| Circuits.OracleWidth | backend_theoretical/Circuits.py:43 | c = floor(log2 max_weight) + 1 is the bit length: 2^(c-1) <= max_weight < 2^c |
| Circuits.OracleOffset | backend_theoretical/Circuits.py:44 | w0 = 2^c - max_weight - 1, so max_weight + w0 = 2^c - 1 and 0 <= w0 < 2^(c-1) |
| Circuits.FbsOracle.constructor | backend_theoretical/Circuits.py:41-60 | builds exactly `OracleGates`: QFT, controlled additions over zip(choice, weights), add w0, inverse QFT, compare, and the inverse sub-circuit when `clean_up` is set |
| Circuits.SQQW.constructor | backend_theoretical/Circuits.py:62-78 | builds exactly `WalkGates`, the oracle/X/oracle/CCX sandwich around `crx(2β)` |
| Circuits.QWMixer.constructor | backend_theoretical/Circuits.py:80-88 | the m×N double loop builds exactly `MixerGates`, walk step j bound to β/m |
| Circuits.Dephase.constructor | backend_theoretical/Circuits.py:90-95 | builds one `p(-γ·value_i)` per pair of zip(choice register, values) |
| FourierProofs.QftOnBasis | backend_theoretical/Circuits.py:11-18 | on the basis state of v the QFT gates produce the Fourier state of v |
| FourierProofs.InverseQftOnFourier | backend_theoretical/Circuits.py:53 | the inverse QFT maps the Fourier state of any integer x to the basis state of x mod 2^n |
| FourierProofs.AdditionOnFourier | backend_theoretical/Circuits.py:20-39 | on a Fourier state of v the adder gives the Fourier state of v + n, or of v when its control qubit is 0 |
| FourierProofs.InverseAdditionOnFourier | backend_theoretical/Circuits.py:59-60 | the inverted adder subtracts n under the same control condition |
| FourierProofs.AdditionPhaseOnQubit | backend_theoretical/Circuits.py:35-39 | adding n to the Fourier state of 0 leaves qubit idx at the turn (n mod 2^(idx+1)) / 2^(idx+1) |
| CircuitFacts.QftShape | backend-theoretical/.ipynb_checkpoints/Circuits-checkpoint.py:14-18 | the QFT emits only H and CP on the register: n H gates, n(n-1)/2 CPs, each CP between idx and c_idx < idx with k = idx - c_idx + 1 in [2, n] |
| CircuitFacts.AdditionShape | backend-theoretical/.ipynb_checkpoints/Circuits-checkpoint.py:31-39 | the adder emits only positive phases on register qubits: `p` gates uncontrolled, `cp` gates on the control qubit otherwise |
| CircuitFacts.OracleFixed | backend_theoretical/Circuits.py:45-60 | the oracle contains no CRX and no parameterised phase, so it carries no symbolic parameter |
| CircuitFacts.ParamsBind | backend_theoretical/Circuits.py:88 | binding parameter `from` to an angle replaces it among the circuit's parameters by the angle's parameter, and changes nothing if `from` is absent |
| CircuitFacts.WalkParams | backend-theoretical/.ipynb_checkpoints/Circuits-checkpoint.py:67-78 | the walk step's only parameter is β; its one CRX, of angle 2β, targets choice qubit j; no other qubit is rotated |
| CircuitFacts.MixerFacts | backend_theoretical/Circuits.py:80-88 | the mixer's only parameter is β; every CRX turns by (2/m)·β, and the CRX coefficients on each item's qubit sum to 2, so the bound angles add up to 2β |
| CircuitFacts.DephasePhase | backend_theoretical/Circuits.py:90-95 | on a basis state the separator's phase coefficient of γ is minus the value of the selection held in the choice register |
| CircuitFacts.DephaseParams | backend-theoretical/.ipynb_checkpoints/Circuits-checkpoint.py:90-95 | the separator's only parameter is γ, provided there is at least one item |
| OracleProofs.ControlledAdditionsRun | backend_theoretical/Circuits.py:48-50 | the controlled additions over the first j pairs add the selected weight of those items to the Fourier state, and their inverse subtracts it again |
| OracleProofs.OracleSubRun | backend_theoretical/Circuits.py:45-53 | the sub-circuit takes weight register v to (v + selected weight + w0) mod 2^n and leaves every other qubit alone |
| OracleProofs.InverseOracleSubRun | backend_theoretical/Circuits.py:59-60 | the inverse sub-circuit takes u back to (u - selected weight - w0) mod 2^n |
| OracleProofs.CompareRun | backend_theoretical/Circuits.py:56-58 | X on `weight_reg[c:]`, MCX and X again flip the flag exactly when u < 2^c (bits c.. all zero) and restore the register |
| OracleProofs.OracleRunNoCleanUp | backend_theoretical/Circuits.py:54-58 | without clean-up, the flag XORs with the comparison and the weight register is left at the sum |
| OracleProofs.OracleRun | backend_theoretical/Circuits.py:41-60 | with clean-up, the flag XORs with `Marks` and the weight register returns to its input; the choice register is unchanged |
| OracleProofs.MarksIffFeasible | backend_theoretical/Circuits.py:43-58 | when total_weight + w0 < 2^n, the oracle marks a selection exactly when it is feasible |
| WalkProofs.ComputeFlags | backend_theoretical/Circuits.py:67-72 | the first half of the walk step sets v(x), v(n_j(x)) and their conjunction v_j(x), with choice qubit j restored |
| WalkProofs.CrxOnConfig | backend_theoretical/Circuits.py:73 | the CRX toggles choice qubit j in the rotated branch when v_j(x) is set, and changes nothing otherwise |
| WalkProofs.UncomputeFlags | backend_theoretical/Circuits.py:74-78 | the second half clears the three flags again, from either value of qubit j |
| WalkProofs.WalkOnConfig | backend_theoretical/Circuits.py:62-78 | the whole walk step toggles qubit j exactly when the step moves and leaves the flags clear |
| WalkProofs.WalkStep | backend_theoretical/Circuits.py:62-78 | on selection x, with no wrap, the rotated branch toggles item j exactly when x and n_j(x) are both feasible; flags, weight register and other items are unchanged |
| Footprint.WithinInverse | backend_theoretical/Circuits.py:53 | `inverse()` acts on the qubits of the circuit it inverts |
| Footprint.WithinBind | backend_theoretical/Circuits.py:88 | binding a parameter leaves the qubits a circuit acts on unchanged |
| Footprint.QftWithin | backend_theoretical/Circuits.py:11-18 | the QFT acts on its register only |
| Footprint.AdditionWithin | backend_theoretical/Circuits.py:20-39 | the adder acts on its register and, when controlled, its control qubit |
| Footprint.ControlledAdditionsWithin | backend_theoretical/Circuits.py:48-50 | the controlled additions act on the choice and weight registers only |
| Footprint.OracleSubWithin | backend_theoretical/Circuits.py:45-53 | the oracle's sub-circuit acts on the choice and weight registers only |
| Footprint.OracleWithin | backend_theoretical/Circuits.py:41-60 | the oracle acts on the choice and weight registers and its flag qubit |
| Footprint.WalkWithin | backend_theoretical/Circuits.py:62-78 | the walk step acts on the choice and weight registers and the three flags |
| Footprint.WalkRoundWithin | backend_theoretical/Circuits.py:85-88 | one round of the mixer's walk steps acts on the qubits of its oracles, flags and choice register |
| Footprint.MixerRoundsWithin | backend_theoretical/Circuits.py:85-88 | the mixer's m rounds act on the qubits of its oracles, flags and choice register |
| Footprint.MixerWithin | backend_theoretical/Circuits.py:80-88 | the mixer acts on the choice and weight registers and the three flags |
| Footprint.DephaseWithin | backend_theoretical/Circuits.py:90-95 | the phase separator acts on the choice register only |
| WalkProofs.MovesSymmetric | backend-theoretical/.ipynb_checkpoints/Circuits-checkpoint.py:67-78 | the walk's move condition is symmetric under flipping bit j |
| Qaoa.WeightWidthHoldsTotal | backend_theoretical/QAOA.py:17-20 | the width as written holds total_weight, and exceeds c when max_weight <= total_weight |
| Qaoa.WeightWidthWraps | backend_theoretical/QAOA.py:17-20 | counterexample: with seven unit weights and max_weight 2 that width is 3, and the oracle marks the infeasible full selection |
| Qaoa.SafeWeightWidthSuffices | backend_theoretical/QAOA.py:17-20 | the corrected width satisfies c < n and total_weight + w0 < 2^n |
| Qaoa.SafeWeightWidthWidens | backend_theoretical/QAOA.py:17-22 | the corrected width is never smaller than the one written, and with it the oracle marks exactly the feasible selections |
| Qaoa.QuantumWalkQAOA.constructor | backend_theoretical/QAOA.py:12-33 | p distinct beta{i} and gamma{i}; choice, weight and flag registers in that order; gates = p layers, each Dephase(gamma{i}) then the mixer with beta{i} |
| Qaoa.QuantumWalkQAOA.BetaRange | backend_theoretical/QAOA.py:37-38 | beta_range is (0, m·π), written in units of π; `Qaoa.BetaRangeRotations` gives it its meaning |
| Qaoa.QuantumWalkQAOA.GammaRange | backend_theoretical/QAOA.py:40-42 | gamma_range is (0, 2π), written in units of π; `Utilities.OptimalAnglesInRanges` uses it as the optimiser does |
| Qaoa.LayerParams | backend_theoretical/QAOA.py:32-33 | a layer mentions exactly gamma{i} and beta{i} |
| Qaoa.LayersParams | backend_theoretical/QAOA.py:31-33 | k layers mention exactly gamma{i} and beta{i} for i < k |
| Qaoa.AnsatzParams | backend_theoretical/QAOA.py:15-16 | the ansatz's free parameters are exactly the 2p symbols beta{i} and gamma{i}, i < p |
| Qaoa.LayerRotations | backend_theoretical/QAOA.py:31-33 | every walk rotation of layer i turns by (2/m)·beta{i} |
| Qaoa.BetaRangeRotations | backend_theoretical/QAOA.py:37-38 | in the ansatz q, every walk rotation of layer i turns by (2/m)·beta{i}, and a beta{i} inside q's beta_range keeps each walk-rotation angle within [0, 2π] |
| Qaoa.AnsatzRegisters | backend_theoretical/QAOA.py:21-28 | the choice register, the weight register and the three flags are pairwise disjoint and together are exactly the qubits 0 .. N + n + 2 |
| Qaoa.LayersWithin | backend_theoretical/QAOA.py:31-33 | layers of a phase separator and a mixer that act below a width act below it too |
| Qaoa.AnsatzWithin | backend_theoretical/QAOA.py:21-33 | every gate of the p-layer ansatz acts on its N + n + 3 qubits |
| Qaoa.QaoaWalkReady | backend_theoretical/QAOA.py:21-28 | for a weight register of any width n, a basis state of the N + n + 3 qubits with the flags clear satisfies the walk step's layout |
| Qaoa.QaoaWalkStep | backend_theoretical/QAOA.py:21-30 | in the ansatz's register layout with a weight register of width n holding total_weight + w0, walk step j moves x to n_j(x) exactly when both are feasible |
| Qaoa.ProgramWalkStep | backend_theoretical/QAOA.py:17-30 | with the width as written, wherever total_weight + w0 < 2^n, walk step j moves x to n_j(x) exactly when both are feasible |
| Qaoa.AnsatzWalkStep | backend_theoretical/QAOA.py:17-30 | with the corrected width, walk step j moves x to n_j(x) exactly when both are feasible, for every weight list |
| Utilities.AverageBounded | backend_theoretical/Utilities.py:22-26 | with non-negative probabilities and lo <= func <= hi on every key, lo·Σprob <= the average <= hi·Σprob |
| Utilities.AverageWithin | backend-theoretical/.ipynb_checkpoints/utils-checkpoint.py:33-38 | over a normalised distribution the average lies within any bounds of func |
| Utilities.BitstringToChoiceAt | backend_theoretical/Utilities.py:33-36 | the decoded choice has min(N, \|s\|) entries, entry i being the digit of s[\|s\|-1-i] |
| Utilities.ChoiceRoundTrip | backend_theoretical/Utilities.py:33-36 | decoding the reported bitstring of a choice gives the choice back, whatever digits the higher qubits hold |
| Utilities.BitstringRoundTrip | backend-theoretical/.ipynb_checkpoints/utils-checkpoint.py:46-50 | re-encoding the decoded choice of an N-character binary string gives the string back |
| Utilities.ObjectivesOfChoice | backend_theoretical/Utilities.py:38-41 | on the bitstring of choice x the objective is value(x); the comparable objective is value(x) when x is feasible and 0 otherwise |
| Utilities.ComparableBounds | backend_theoretical/Utilities.py:81-85 | with non-negative values, 0 <= comparable objective <= objective, and comparable objective <= the best brute-force value |
| Utilities.ComparableExpectationBounds | backend_theoretical/Utilities.py:87-90 | over a normalised distribution of binary keys the comparable expectation lies in [0, best value] |
| Utilities.ApproximationRatio | backend_theoretical/Utilities.py:92-98 | None exactly when no solution exists or the best value is 0; otherwise ratio = expectation / best value. With non-negative values, normalised binary probabilities, max_weight >= 0 and best > 0 the ratio exists and lies in [0, 1] |
| Utilities.OptimizerBoundsLayout | backend_theoretical/Utilities.py:28-29 | the bounds have 2p entries: gamma_range at even positions, beta_range at odd ones |
| Utilities.ZipAssignAt | backend_theoretical/Utilities.py:47-50 | with distinct keys, each key of the zipped prefix maps to its value, and every other key keeps its old entry or stays absent |
| Utilities.ToParameterDict | backend_theoretical/Utilities.py:43-51 | the two loops build exactly `ParameterDict`: betas zipped with angles[1::2], then gammas with angles[0::2] |
| Utilities.ParameterDictLayout | backend-theoretical/.ipynb_checkpoints/utils-checkpoint.py:58-69 | for 2p angles, gamma{i} maps to angles[2i] and beta{i} to angles[2i+1], and nothing else is bound |
| Utilities.ParameterDictFitsAnsatz | backend_theoretical/Utilities.py:53-56 | the dictionary's keys are exactly the free parameters of the p-layer ansatz |
| Utilities.ParameterDictWithinRanges | backend-theoretical/.ipynb_checkpoints/utils-checkpoint.py:88-102 | angles within the optimiser's bounds bind every gamma{i} inside gamma_range and every beta{i} inside beta_range |
| Utilities.OptimalAnglesInRanges | backend_theoretical/Utilities.py:68-79 | angles within the bounds built from the ansatz's `gamma_range()` and `beta_range()` bind gamma{i} in [0, 2π] and beta{i} in [0, m·π], so each walk-rotation angle lies within [0, 2π] |

## Left out

- Qiskit simulation and measurement are not modelled: transpilation, `backend.run`, the state
  vector, `probabilities_dict`, `save_statevector` and `measure_all`. The probability dictionary
  is an input: a sequence of (bitstring, probability) entries in insertion order.
- Amplitudes are not modelled. H and CRX create superpositions; the semantics follows product
  states and takes the controlled rotation one branch at a time. Proofs about the QFT and the
  adder start from basis states.
- `shgo` and `optimize_angles`' search are left out: a SciPy black box. Only the bounds layout is
  modelled. The same goes for `find_optimal_angles`, `get_expectation_value`, `get_probs_dict`
  and `get_statevector`, apart from the pieces they compose: `ParameterDict` and `AverageValue`.
- Floating point is left out. Angles are exact turn fractions and symbolic coefficients, values and
  probabilities are `real`, and ranges are in units of π.
- `is_apply_noise` is left out: both branches are the same call.
- `math.log2` is modelled by the exact bit length. A float `log2` can round up for integers
  just below a large power of two; that difference is not modelled.
- Qaoa.QuantumWalkQAOA.constructor: uses the corrected register width `SafeWeightWidth`; the
  width as written is `WeightWidth` (see Findings).
- Qaoa.QuantumWalkQAOA.constructor: the printed qubit count is left out, and so are the
  instruction wrappers of `to_instruction`. Appending a sub-circuit is modelled as concatenating
  its gates on the qubits it is appended to.
- Qaoa.QuantumWalkQAOA.constructor: `p` and `m` are naturals. A negative Python value makes the
  same empty `range` as 0.
- Utilities.ApproximationRatio: returns None where the source raises an index error (no
  solution) or numpy yields inf/nan (best value 0).
- Calls the source cannot complete are preconditions:
  - `math.log2` of a non-positive weight: `QaoaDefined`, `OracleDefined`.
  - `bin` of a negative weight: non-negative weights.
  - `int` of a non-digit character: `Digits`.
  - `choice_reg[j]` past the end of the choice register (an IndexError): `j < choice.size` in
    `Circuits.SQQW.constructor` and `|p.weights| <= choice.size` in
    `Circuits.QWMixer.constructor`, whose loop runs j over range(N).
  - numpy dot products of unequal length: `WellFormed`, `KeyFits`. This covers the solver with
    no item, where `choices_from_number(0)` has one entry.
- Utilities.Digits: admits the ASCII digits 0-9 only. Python's `int` also accepts other Unicode
  decimal digits; Qiskit's bitstrings never hold them.
- OracleProofs.CompareRun: when c is at least the width n of the weight register, the slice
  `weight_reg[c:]` is empty and the program calls `mcx` with no controls. The model reads that
  gate as a plain X on the flag; the program does not establish that reading. The width as
  written reaches this case: weights [1, 1] with max_weight 4 give n = 2 and c = 3. The corrected
  width always has c < n (`Qaoa.SafeWeightWidthSuffices`), so `Qaoa.AnsatzWalkStep` never uses it.
- Qaoa.ProgramWalkStep: relies on the same reading of `mcx` for problems where the width as
  written is below c without wrapping, such as weights [1, 1] with max_weight 7 (n = 2, c = 3,
  w0 = 0).
- The checkpoint copies are modelled once (see above). `main.py`, the Streamlit app and the
  portfolio scripts are not part of this model.

## Findings

| source | as written | input that shows it | evidently intended | confidence | as-written member | corrected member |
|---|---|---|---|---|---|---|
| backend_theoretical/QAOA.py:17-20 | the weight register gets floor(log2 total_weight) + 1 qubits, one more only when that equals c; the oracle adds w0 on top of the selected weight modulo 2^n | seven items of weight 1 and max_weight 2: n = 3, c = 2, w0 = 1, and the full selection leaves (7 + 1) mod 8 = 0 < 2^2, so the oracle marks weight 7 as feasible | a register wide enough that total_weight + w0 < 2^n and c < n, so the comparison never sees a wrapped sum | high (the QFT adder works modulo 2^n), not executed | Qaoa.WeightWidthWraps | Qaoa.SafeWeightWidthSuffices |

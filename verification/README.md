# Quiescent Sufficiency gate (QS-001) in Dafny

This project models the Quiescent Sufficiency gate of the governance runtime.
The gate is a single-step transition `process_request(request, state)` over a
ledger state `{ledgerHead, policyVersion, witnessQuorum, appendCount}`, and it
has exactly three outcomes:

- **QUIESCENT_NOOP** when there is no request. The state is returned as it was.
- **REFUSAL_RECEIPT** when the request cannot be canonicalised, fails one of
  the ordered admissibility checks (schema, witness quorum, ambiguity), or
  trips the emission gate. The state is returned untouched, and the receipt's
  before-hash and after-hash are both the hash of that state.
- **EXECUTED_RECEIPT** otherwise. `appendCount` goes up by one and
  `ledgerHead` becomes `sha256(ledgerHead + json.dumps(request))`. The receipt
  binds the old state hash to the new one.

Files:

- `wrappers.dfy` (`Wrappers`): `Option`.
- `py_value.dfy` (`PyValue`): the Python values a request carries, Python
  truthiness and `len`, and when `json.dumps` succeeds.
- `string_order.dfy` (`StringOrder`): Python's ordering on `str` and `sorted`.
  Sorting yields an ordered permutation, and the result depends only on the
  multiset of its input.
- `decimal.dfy` (`Decimal`): `str(int)`, used for artifact names, and its
  inverse.
- `quiescent_sufficiency.dfy` (`QuiescentSufficiency`): state, request,
  receipt, the state and request hashes, admissibility, execution, receipt
  signing and `ProcessRequest`.
- `gate_runs.dfy` (`GateRuns`): the gate applied to a sequence of requests.
- `scenarios.dfy` (`Scenarios`): the unit-test scenarios as lemmas.

SHA-256 and `json.dumps(..., sort_keys=True)` are uninterpreted functions.
They are the two fields of a `Primitives` value passed to every operation that
hashes, and every property holds for every choice of them. A request is a
Python dict, modelled as `map<string, Value>`. Because a Dafny map has no key
order, `sort_keys=True` needs no modelling. Canonicalisation fails exactly when
the request contains an object `json.dumps` cannot serialise. That object is
`PyValue.Opaque`, described only by its truthiness and its `len`. Two further
ways `json.dumps` can fail are not modelled; they are listed under
"## Left out".

## Model

| member | source | states |
|---|---|---|
| StringOrder.Insert | python_runtime/src/governance/quiescent_sufficiency.py:20 | inserting into a sorted list of strings keeps it sorted in Python's `str` order and adds exactly that one element |
| StringOrder.Sort | python_runtime/src/governance/quiescent_sufficiency.py:20 | `sorted(quorum)` is ordered and is a permutation of the quorum |
| StringOrder.SortedUnique | python_runtime/src/governance/quiescent_sufficiency.py:20 | two sorted lists with the same multiset of strings are the same list |
| StringOrder.SortPermutationInvariant | python_runtime/src/governance/quiescent_sufficiency.py:20 | permuting the quorum does not change what `sorted` returns |
| StringOrder.LexLeAntisymmetric | python_runtime/src/governance/quiescent_sufficiency.py:20 | Python's `str` comparison is antisymmetric, so sorting is deterministic |
| StringOrder.LexLeTransitive | python_runtime/src/governance/quiescent_sufficiency.py:20 | Python's `str` comparison is transitive |
| StringOrder.LexLeTotal | python_runtime/src/governance/quiescent_sufficiency.py:20 | any two strings are comparable |
| Decimal.NatToString | python_runtime/src/governance/quiescent_sufficiency.py:65 | the count in an artifact name is a non-empty string of decimal digits with no leading zero |
| Decimal.ParseIntToString | python_runtime/src/governance/quiescent_sufficiency.py:65 | the integer in an artifact name can be read back exactly |
| Decimal.IntToStringInjective | python_runtime/src/governance/quiescent_sufficiency.py:65 | distinct counts print as distinct numerals |
| QuiescentSufficiency.StateDocumentFaithful | python_runtime/src/governance/quiescent_sufficiency.py:15-23 | the document hashed for a state determines all four state fields, and the quorum only up to order: equal documents if and only if the states agree up to quorum order |
| QuiescentSufficiency.StateHashQuorumOrder | python_runtime/src/governance/quiescent_sufficiency.py:15-23 | the state hash depends only on the four fields, and on the quorum only up to permutation |
| QuiescentSufficiency.CanonicalisationDecides | python_runtime/src/governance/quiescent_sufficiency.py:99-109 | a request is refused with "Canonicalization failed" if and only if `json.dumps` cannot serialise it, and every receipt for a serialisable request carries `sha256(json.dumps(request))` as its request hash |
| QuiescentSufficiency.CheckAdmissibility | python_runtime/src/governance/quiescent_sufficiency.py:34-51 | a request is admitted exactly when no check fails; a refusal names a failing check with no earlier failing check |
| QuiescentSufficiency.FirstFailingCheckWins | python_runtime/src/governance/quiescent_sufficiency.py:34-51 | the refusal names check `v` if and only if `v` fails and every check ordered before it passes (schema, then witnesses, then ambiguity) |
| QuiescentSufficiency.AdmissibilityReadsOnlyQuorumPresence | python_runtime/src/governance/quiescent_sufficiency.py:41-44 | the admissibility verdict reads the state only through whether the quorum is empty |
| QuiescentSufficiency.EmptyQuorumIgnoresWitnesses | python_runtime/src/governance/quiescent_sufficiency.py:41-44 | with an empty quorum a request is never refused for witnesses, and removing or replacing its witnesses entry does not change the verdict |
| QuiescentSufficiency.WitnessesMissingAsWritten | python_runtime/src/governance/quiescent_sufficiency.py:43 | the witness test raises `TypeError` exactly for a truthy value without a length, and otherwise agrees with the corrected test |
| QuiescentSufficiency.CheckAdmissibilityAsWritten | python_runtime/src/governance/quiescent_sufficiency.py:34-51 | the check as written raises exactly when the schema is present, the quorum is non-empty and the witnesses entry is truthy without a length; otherwise it returns the corrected verdict |
| QuiescentSufficiency.ArtifactNamesDistinct | python_runtime/src/governance/quiescent_sufficiency.py:64-65 | executions at different append counts never emit artifacts with the same name |
| QuiescentSufficiency.ExecuteDeterministically | python_runtime/src/governance/quiescent_sufficiency.py:53-70 | execution advances `appendCount` by exactly one, chains `ledgerHead` over the canonical request, keeps policy version and quorum, and emits at most one artifact: one exactly for `GENERATE_ARTIFACT` (named after the new count) and `FORCE_EMISSION_FAILURE` |
| QuiescentSufficiency.SignReceipt | python_runtime/src/governance/quiescent_sufficiency.py:72-90 | a receipt carries the hashes of its before and after states, and they are equal whenever the two states agree up to quorum order |
| QuiescentSufficiency.ProcessRequest | python_runtime/src/governance/quiescent_sufficiency.py:92-149 | no request gives a no-op with the same state; every refusal returns the same state with before-hash = after-hash = hash(state) and no artifacts; execution happens exactly for canonicalisable, admissible requests that are not `FORCE_EMISSION_FAILURE`, advances only count and head, binds before/after hashes, and emits an artifact only for `GENERATE_ARTIFACT` |
| QuiescentSufficiency.RefusalReasons | python_runtime/src/governance/quiescent_sufficiency.py:99-138 | the first failing stage names the refusal: canonicalisation (with `INVALID_CANONICALIZATION` in place of the request hash), then the admissibility check's reason, then the emission gate; the last two carry the canonical request hash |
| QuiescentSufficiency.ForcedEmissionAlwaysRefused | python_runtime/src/governance/quiescent_sufficiency.py:128-138 | a `FORCE_EMISSION_FAILURE` request is always refused, however admissible it is |
| QuiescentSufficiency.VerdictIndependentOfHistory | python_runtime/src/governance/quiescent_sufficiency.py:92-149 | which outcome a request gets depends on the state only through whether the quorum is empty |
| GateRuns.RunKeepsPolicyAndQuorum | python_runtime/src/governance/quiescent_sufficiency.py:59-61 | no sequence of requests changes the policy version or the witness quorum |
| GateRuns.RunCountsExecutions | python_runtime/src/governance/quiescent_sufficiency.py:55-61 | after any sequence of requests the append count has grown by exactly the number of executed requests |
| GateRuns.RefusalsLeaveNoTrace | python_runtime/src/governance/quiescent_sufficiency.py:92-149 | dropping every refused or empty request from a sequence leaves its final state unchanged |
| GateRuns.StepReceiptHashes | python_runtime/src/governance/quiescent_sufficiency.py:140-149 | each receipt runs from the hash of the state the step received to the hash of the state it returned |
| GateRuns.ReceiptsChain | python_runtime/src/governance/quiescent_sufficiency.py:92-149 | along a run each receipt's before-hash equals the previous receipt's after-hash |
| GateRuns.ReceiptsStart | python_runtime/src/governance/quiescent_sufficiency.py:92-149 | the first receipt of a run starts from the initial state's hash |
| GateRuns.ReceiptsEnd | python_runtime/src/governance/quiescent_sufficiency.py:92-149 | the last receipt of a run ends at the final state's hash |
| GateRuns.ReceiptsEmptyRun | python_runtime/src/governance/quiescent_sufficiency.py:95-97 | a run that issues no receipt consists of no-ops and leaves the state unchanged |
| Scenarios.InvalidInputRefused | python_runtime/tests/test_quiescent_sufficiency.py:27-47 | a request without `actionType` is refused with `INVALID_SCHEMA`, with state, count and state hash unchanged |
| Scenarios.AdmissibleRequestExecutes | python_runtime/tests/test_quiescent_sufficiency.py:49-69 | a witnessed `GENERATE_ARTIFACT` request executes, the count becomes 1, the receipt binds the new state hash, and `artifact-1.txt` is emitted |
| Scenarios.QuiescentState | python_runtime/tests/test_quiescent_sufficiency.py:71-83 | no input is a no-op with the state unchanged |
| Scenarios.AmbiguityRefused | python_runtime/tests/test_quiescent_sufficiency.py:85-101 | an ambiguous payload is refused with `AMBIGUOUS_INPUT` and the state unchanged |
| Scenarios.ManufacturedMotionRefused | python_runtime/tests/test_quiescent_sufficiency.py:107-122 | an empty witness list against a non-empty quorum is refused with `INSUFFICIENT_WITNESS` |
| Scenarios.DriftByVerbosityRefused | python_runtime/tests/test_quiescent_sufficiency.py:124-140 | `FORCE_EMISSION_FAILURE` is refused with `EMISSION_GATE_VIOLATION` and the state unchanged |
| Scenarios.RefusalKeepsStateHash | python_runtime/tests/test_quiescent_sufficiency.py:142-157 | a refusal's receipt carries the unchanged state hash as both its before-hash and its after-hash |
| Scenarios.EmptyQuorumAdmitsUnwitnessed | python_runtime/src/governance/quiescent_sufficiency.py:41-44 | with an empty quorum a request with no witnesses entry executes |
| Scenarios.WitnessTrueRaises | python_runtime/src/governance/quiescent_sufficiency.py:41-44 | a `true` witnesses entry makes the check as written raise, while the corrected gate refuses the request |

## Left out

- The timestamp and the mock signature of a receipt, and the `print` calls. They are a clock reading, a constant string and console output, and no property depends on them.
- The concrete bytes of SHA-256 and `json.dumps`. Both are uninterpreted, so no property may rely on particular hash values.
- Scenarios.AdmissibleRequestExecutes: does not state that the new ledger head differs from `"genesis-hash"`. That inequality depends on the actual SHA-256 output, which is uninterpreted here.
- Floating-point values inside requests. In every check the gate makes, a float behaves like an `Int` with the same truthiness: `0.0` is falsy and so counts as missing witnesses, and a non-zero float has no `len`, so `len` raises at line 43 just as it does for `true`. A truthy float under `"ambiguous"` marks the payload ambiguous. Floats are left out only because their JSON form adds nothing to the model.
- Dict keys are strings in the model. Python's `json.dumps` also accepts `int`, `float`, `bool` and `None` keys, which it turns into strings. It fails on keys of any other type, and on keys of mixed types that `sort_keys=True` has to compare. Those failures are covered only to the extent that an `Opaque` value stands for an unserialisable object.
- Circular references. An immutable Dafny value cannot contain one.
- PyValue.Serialisable: accepts some requests that make `json.dumps` raise and so are refused by the `except Exception` at line 30. One case is a request nested deeply enough to raise `RecursionError`. Another is an integer with more digits than Python's integer-to-string limit (4300 by default), which raises `ValueError`. Both limits depend on interpreter settings, so the model treats such requests as serialisable.
- Extra keys in the state dict. `compute_state_hash` ignores them and `state.copy()` carries them along unchanged. The model's state has exactly the four fields.
- The model fixes the state fields' types as the tests use them: `ledgerHead` and `policyVersion` are strings, the quorum is a list of strings and `appendCount` is an integer. Python accepts more than this. `policyVersion` is only serialised, so any JSON value works. A quorum of integers can be sorted and measured with `len`. A float `appendCount` works with `+ 1` and in the f-string. The model does not cover these wider states.
- QuiescentSufficiency.ExecuteDeterministically: requires an `actionType` key and a serialisable request. Python raises `KeyError` or `TypeError` otherwise. Its only caller guarantees both.
- The governance kernel's action validator, contraction curator, repair engine and hash-chained ledger. Their source is not part of this model.

## Findings

| source | as written | input that shows it | evidently intended | confidence | as-written member | corrected member |
|---|---|---|---|---|---|---|
| python_runtime/src/governance/quiescent_sufficiency.py:43 | `not witnesses or len(witnesses) < 1` calls `len` on every truthy witnesses value | quorum `["witness-1"]` and request `{"actionType": "TEST_ACTION", "payload": {}, "witnesses": true}`: `len(True)` raises `TypeError`, which escapes `process_request` as a fourth outcome | a refusal receipt with `INSUFFICIENT_WITNESS`, since such a value holds no witness, keeping the gate to its three outcomes | medium; not executed | QuiescentSufficiency.CheckAdmissibilityAsWritten | QuiescentSufficiency.CheckAdmissibility |

`ProcessRequest` uses the corrected check. `CheckAdmissibilityAsWritten`
agrees with it on every request where the original returns, and
`Scenarios.WitnessTrueRaises` exhibits the input where the two differ.

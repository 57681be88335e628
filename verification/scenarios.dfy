/** The concrete scenarios of the gate's unit tests, stated for every choice
    of hash and JSON encoder, plus two scenarios for the empty-quorum rule and
    the witness `TypeError`. */
module Scenarios {
  import opened Wrappers
  import opened PyValue
  import opened QuiescentSufficiency

  /** The state every test starts from. */
  const Initial: QSState := QSState("genesis-hash", "1.0.0", ["witness-1"], 0)

  /** A request without `actionType` is refused as an invalid schema and the
      state, and its hash, stay as they were. */
  lemma InvalidInputRefused(p: Primitives)
    ensures var r := ProcessRequest(p, Some(map["payload" := Dict(map[])]), Initial);
            && r.RefusalReceipt?
            && r.newState == Initial
            && r.newState.appendCount == 0
            && ComputeStateHash(p, r.newState) == ComputeStateHash(p, Initial)
            && r.receipt.receiptType == Refusal
            && r.receipt.reason == Some("INVALID_SCHEMA: Missing actionType or payload")
  {
    var request := map["payload" := Dict(map[])];
    assert Serialisable(Dict(request));
    assert CheckAdmissibility(request, Initial) == Refused(InvalidSchema);
    RefusalReasons(p, request, Initial);
  }

  /** A witnessed `GENERATE_ARTIFACT` request executes, advances the count to
      one, binds its receipt to the new state and emits `artifact-1.txt`. */
  lemma AdmissibleRequestExecutes(p: Primitives)
    ensures var request := map[
              "actionType" := Str("GENERATE_ARTIFACT"),
              "payload" := Dict(map["data" := Str("test")]),
              "witnesses" := List([Str("sig-1")])];
            var r := ProcessRequest(p, Some(request), Initial);
            && r.ExecutedReceipt?
            && r.newState.appendCount == 1
            && r.receipt.stateHashAfter == ComputeStateHash(p, r.newState)
            && "artifact-1.txt" in r.receipt.artifacts
  {
    var payload := Dict(map["data" := Str("test")]);
    var request := map[
      "actionType" := Str("GENERATE_ARTIFACT"),
      "payload" := payload,
      "witnesses" := List([Str("sig-1")])];
    assert Serialisable(payload);
    assert Serialisable(List([Str("sig-1")]));
    assert Serialisable(Dict(request));
    assert Executes(request, QuorumRequired(Initial));
    assert ArtifactName(1) == "artifact-1.txt";
  }

  /** No input is a quiescent no-op. */
  lemma QuiescentState(p: Primitives)
    ensures var r := ProcessRequest(p, None, Initial);
            r.QuiescentNoop? && r.newState == Initial && r.newState.appendCount == 0
  {
  }

  /** An ambiguous payload is refused and the state is unchanged. */
  lemma AmbiguityRefused(p: Primitives)
    ensures var request := map[
              "actionType" := Str("TEST_ACTION"),
              "payload" := Dict(map["ambiguous" := Bool(true)]),
              "witnesses" := List([Str("sig-1")])];
            var r := ProcessRequest(p, Some(request), Initial);
            r.RefusalReceipt? && r.newState == Initial && r.receipt.reason == Some("AMBIGUOUS_INPUT: Payload is ambiguous")
  {
    var payload := Dict(map["ambiguous" := Bool(true)]);
    var request := map[
      "actionType" := Str("TEST_ACTION"),
      "payload" := payload,
      "witnesses" := List([Str("sig-1")])];
    assert Serialisable(payload);
    assert Serialisable(List([Str("sig-1")]));
    assert Serialisable(Dict(request));
    assert CheckAdmissibility(request, Initial) == Refused(AmbiguousInput);
    RefusalReasons(p, request, Initial);
  }

  /** An empty witness list against a non-empty quorum is refused. */
  lemma ManufacturedMotionRefused(p: Primitives)
    ensures var request := map[
              "actionType" := Str("GENERATE_ARTIFACT"),
              "payload" := Dict(map["data" := Str("test")]),
              "witnesses" := List([])];
            var r := ProcessRequest(p, Some(request), Initial);
            r.RefusalReceipt? && r.newState == Initial && r.receipt.reason == Some("INSUFFICIENT_WITNESS: Quorum not met")
  {
    var payload := Dict(map["data" := Str("test")]);
    var request := map[
      "actionType" := Str("GENERATE_ARTIFACT"),
      "payload" := payload,
      "witnesses" := List([])];
    assert Serialisable(payload);
    assert Serialisable(List([]));
    assert Serialisable(Dict(request));
    assert CheckAdmissibility(request, Initial) == Refused(InsufficientWitness);
    RefusalReasons(p, request, Initial);
  }

  /** An admissible request whose execution emits an unauthorised artifact is
      refused by the emission gate, and the state is rolled back. */
  lemma DriftByVerbosityRefused(p: Primitives)
    ensures var request := map[
              "actionType" := Str("FORCE_EMISSION_FAILURE"),
              "payload" := Dict(map["data" := Str("test")]),
              "witnesses" := List([Str("sig-1")])];
            var r := ProcessRequest(p, Some(request), Initial);
            r.RefusalReceipt? && r.newState == Initial
            && r.receipt.reason == Some("EMISSION_GATE_VIOLATION: Unexpected artifacts")
  {
    var payload := Dict(map["data" := Str("test")]);
    var request := map[
      "actionType" := Str("FORCE_EMISSION_FAILURE"),
      "payload" := payload,
      "witnesses" := List([Str("sig-1")])];
    assert Serialisable(payload);
    assert Serialisable(List([Str("sig-1")]));
    assert Serialisable(Dict(request));
    assert CheckAdmissibility(request, Initial) == Admitted;
    RefusalReasons(p, request, Initial);
  }

  /** A refusal's receipt carries the unchanged state hash on both sides. */
  lemma RefusalKeepsStateHash(p: Primitives)
    ensures var r := ProcessRequest(p, Some(map["payload" := Dict(map[])]), Initial);
            && r.RefusalReceipt?
            && ComputeStateHash(p, r.newState) == ComputeStateHash(p, Initial)
            && r.receipt.stateHashAfter == ComputeStateHash(p, r.newState)
            && r.receipt.stateHashBefore == ComputeStateHash(p, Initial)
  {
    var request := map["payload" := Dict(map[])];
    assert Serialisable(Dict(request));
    assert CheckAdmissibility(request, Initial) == Refused(InvalidSchema);
    RefusalReasons(p, request, Initial);
  }

  /** With an empty quorum a request carrying no witnesses at all executes. */
  lemma EmptyQuorumAdmitsUnwitnessed(p: Primitives)
    ensures var request := map[
              "actionType" := Str("TEST_ACTION"),
              "payload" := Dict(map["data" := Str("test")])];
            ProcessRequest(p, Some(request), Initial.(witnessQuorum := [])).ExecutedReceipt?
  {
    var payload := Dict(map["data" := Str("test")]);
    var request := map["actionType" := Str("TEST_ACTION"), "payload" := payload];
    assert Serialisable(payload);
    assert Serialisable(Dict(request));
    assert Executes(request, QuorumRequired(Initial.(witnessQuorum := [])));
  }

  /** A witnesses entry of `true` makes `check_admissibility` as written raise
      `TypeError`; the corrected check refuses the request instead. */
  lemma WitnessTrueRaises(p: Primitives)
    ensures var request := map[
              "actionType" := Str("TEST_ACTION"),
              "payload" := Dict(map[]),
              "witnesses" := Bool(true)];
            && CheckAdmissibilityAsWritten(request, Initial) == RaisesTypeError
            && CheckAdmissibility(request, Initial) == Refused(InsufficientWitness)
            && ProcessRequest(p, Some(request), Initial).RefusalReceipt?
  {
    var request := map[
      "actionType" := Str("TEST_ACTION"),
      "payload" := Dict(map[]),
      "witnesses" := Bool(true)];
    assert Serialisable(Dict(request));
    assert Witnesses(request) == Bool(true);
  }
}

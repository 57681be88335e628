/** The Quiescent Sufficiency gate (QS-001): a single-step transition
    `ProcessRequest(request, state)` over a four-field ledger state with
    exactly three outcomes. No input gives a quiescent no-op. A request that
    cannot be canonicalised, fails admissibility or trips the emission gate
    gives a refusal receipt and leaves the state as it was. Anything else
    executes: the append count advances by one and the ledger head is
    rehashed over the canonical request.

    SHA-256 and `json.dumps(..., sort_keys=True)` are not modelled; they enter
    as the uninterpreted functions of a `Primitives` value. */
module QuiescentSufficiency {
  import opened Wrappers
  import opened PyValue
  import opened StringOrder
  import opened Decimal

  /** The two opaque collaborators: `sha256Hex(t)` is
      `hashlib.sha256(t.encode('utf-8')).hexdigest()` and `dumps(v)` is
      `json.dumps(v, sort_keys=True)` for a serialisable `v`. */
  datatype Primitives = Primitives(sha256Hex: string -> string, dumps: Value -> string)

  /** The ledger state the gate guards. */
  datatype QSState = QSState(
    ledgerHead: string,
    policyVersion: string,
    witnessQuorum: seq<string>,
    appendCount: int)

  /** A request is a Python dict; the gate reads its `actionType`, `payload`
      and `witnesses` entries, and hashes all of it. */
  type Request = map<string, Value>

  datatype ReceiptType = Executed | Refusal

  /** A signed receipt without its timestamp and mock signature. */
  datatype Receipt = Receipt(
    receiptType: ReceiptType,
    reason: Option<string>,
    requestHash: string,
    stateHashBefore: string,
    stateHashAfter: string,
    artifacts: seq<string>)

  /** The three outcomes of the gate. */
  datatype QSResult =
    | QuiescentNoop(newState: QSState)
    | RefusalReceipt(receipt: Receipt, newState: QSState)
    | ExecutedReceipt(receipt: Receipt, newState: QSState)

  /** The admissibility checks, in the order they are applied. */
  datatype Violation = InvalidSchema | InsufficientWitness | AmbiguousInput

  datatype Admission = Admitted | Refused(violation: Violation)

  /** What deterministic execution produces. */
  datatype Execution = Execution(newState: QSState, artifacts: seq<string>)

  const GenerateArtifact: string := "GENERATE_ARTIFACT"
  const ForceEmissionFailure: string := "FORCE_EMISSION_FAILURE"
  const UnauthorizedArtifact: string := "unauthorized-artifact.txt"

  /** Stands in for the request hash on a receipt when canonicalisation fails. */
  const CanonicalisationFailureHash: string := "INVALID_CANONICALIZATION"
  const CanonicalisationFailureReason: string := "Canonicalization failed"
  const EmissionGateReason: string := "EMISSION_GATE_VIOLATION: Unexpected artifacts"

  /** The reason text a refusal receipt carries for each admissibility check. */
  function ReasonText(v: Violation): string
  {
    match v
    case InvalidSchema => "INVALID_SCHEMA: Missing actionType or payload"
    case InsufficientWitness => "INSUFFICIENT_WITNESS: Quorum not met"
    case AmbiguousInput => "AMBIGUOUS_INPUT: Payload is ambiguous"
  }

  // ---------------------------------------------------------------------------
  // State hash
  // ---------------------------------------------------------------------------

  function QuorumDocument(q: seq<string>): (r: seq<Value>)
    ensures |r| == |q|
    ensures forall i :: 0 <= i < |q| ==> r[i] == Str(q[i])
    decreases |q|
  {
    if |q| == 0 then [] else [Str(q[0])] + QuorumDocument(q[1..])
  }

  /** The dict `compute_state_hash` hands to `json.dumps`: the four state
      fields, the quorum sorted. */
  function StateDocument(s: QSState): Value
  {
    Dict(map[
      "ledgerHead" := Str(s.ledgerHead),
      "policyVersion" := Str(s.policyVersion),
      "witnessQuorum" := List(QuorumDocument(Sort(s.witnessQuorum))),
      "appendCount" := Int(s.appendCount)])
  }

  function ComputeStateHash(p: Primitives, s: QSState): string
  {
    p.sha256Hex(p.dumps(StateDocument(s)))
  }

  /** Two states agree on every field, the quorum compared as a multiset. */
  predicate SameUpToQuorumOrder(s: QSState, t: QSState)
  {
    && s.ledgerHead == t.ledgerHead
    && s.policyVersion == t.policyVersion
    && multiset(s.witnessQuorum) == multiset(t.witnessQuorum)
    && s.appendCount == t.appendCount
  }

  lemma QuorumDocumentInjective(a: seq<string>, b: seq<string>)
    requires QuorumDocument(a) == QuorumDocument(b)
    ensures a == b
  {
  }

  /** The hashed document records exactly the four state fields, and the
      quorum only up to the order of its members. */
  lemma StateDocumentFaithful(s: QSState, t: QSState)
    ensures StateDocument(s) == StateDocument(t) <==> SameUpToQuorumOrder(s, t)
  {
    if StateDocument(s) == StateDocument(t) {
      assert StateDocument(s).entries["ledgerHead"] == StateDocument(t).entries["ledgerHead"];
      assert StateDocument(s).entries["policyVersion"] == StateDocument(t).entries["policyVersion"];
      assert StateDocument(s).entries["appendCount"] == StateDocument(t).entries["appendCount"];
      assert StateDocument(s).entries["witnessQuorum"] == StateDocument(t).entries["witnessQuorum"];
      QuorumDocumentInjective(Sort(s.witnessQuorum), Sort(t.witnessQuorum));
    }
    if SameUpToQuorumOrder(s, t) {
      SortPermutationInvariant(s.witnessQuorum, t.witnessQuorum);
    }
  }

  /** The state hash is blind to the order in which the quorum is listed. */
  lemma StateHashQuorumOrder(p: Primitives, s: QSState, t: QSState)
    requires SameUpToQuorumOrder(s, t)
    ensures ComputeStateHash(p, s) == ComputeStateHash(p, t)
  {
    StateDocumentFaithful(s, t);
  }

  // ---------------------------------------------------------------------------
  // Request hash
  // ---------------------------------------------------------------------------

  /** The canonical request hash, or `None` when `json.dumps` raises. */
  function ComputeRequestHash(p: Primitives, request: Request): (r: Option<string>)
    ensures r.Some? <==> Serialisable(Dict(request))
  {
    if Serialisable(Dict(request)) then Some(p.sha256Hex(p.dumps(Dict(request)))) else None
  }

  // ---------------------------------------------------------------------------
  // Admissibility
  // ---------------------------------------------------------------------------

  predicate HasSchema(request: Request)
  {
    "actionType" in request && "payload" in request
  }

  /** The witness requirement is in force only for a non-empty quorum. */
  predicate QuorumRequired(s: QSState)
  {
    |s.witnessQuorum| > 0
  }

  /** `request.get("witnesses", [])` */
  function Witnesses(request: Request): Value
  {
    if "witnesses" in request then request["witnesses"] else List([])
  }

  /** `not witnesses or len(witnesses) < 1`, with a value that has no length
      counted as missing witnesses rather than raising. */
  predicate WitnessesMissing(w: Value)
  {
    !Truthy(w) || Len(w).None? || Len(w).value < 1
  }

  /** `isinstance(payload, dict) and payload.get("ambiguous", False)` */
  predicate Ambiguous(request: Request)
  {
    && "payload" in request
    && request["payload"].Dict?
    && "ambiguous" in request["payload"].entries
    && Truthy(request["payload"].entries["ambiguous"])
  }

  /** Check `v` on its own fails for this request and state. */
  predicate Fails(v: Violation, request: Request, s: QSState)
  {
    match v
    case InvalidSchema => !HasSchema(request)
    case InsufficientWitness => QuorumRequired(s) && WitnessesMissing(Witnesses(request))
    case AmbiguousInput => Ambiguous(request)
  }

  /** The position of each check in the decision list. */
  function Rank(v: Violation): nat
  {
    match v
    case InvalidSchema => 0
    case InsufficientWitness => 1
    case AmbiguousInput => 2
  }

  /** Whether the request may proceed to execution. The checks run in a fixed
      order and the first that fails decides the refusal. */
  function CheckAdmissibility(request: Request, s: QSState): (r: Admission)
    ensures r == Admitted <==> forall v :: !Fails(v, request, s)
    ensures r.Refused? ==> Fails(r.violation, request, s)
    ensures r.Refused? ==> forall u :: Rank(u) < Rank(r.violation) ==> !Fails(u, request, s)
  {
    if !HasSchema(request) then
      assert Fails(InvalidSchema, request, s);
      Refused(InvalidSchema)
    else if QuorumRequired(s) && WitnessesMissing(Witnesses(request)) then
      assert Fails(InsufficientWitness, request, s);
      Refused(InsufficientWitness)
    else if Ambiguous(request) then
      assert Fails(AmbiguousInput, request, s);
      Refused(AmbiguousInput)
    else
      Admitted
  }

  /** First failing check wins: the refusal names check `v` exactly when `v`
      fails and every earlier check passes. */
  lemma FirstFailingCheckWins(request: Request, s: QSState, v: Violation)
    ensures CheckAdmissibility(request, s) == Refused(v)
            <==> Fails(v, request, s) && forall u :: Rank(u) < Rank(v) ==> !Fails(u, request, s)
  {
  }

  /** Admissibility reads the state only through whether the quorum is empty. */
  lemma AdmissibilityReadsOnlyQuorumPresence(request: Request, s: QSState, t: QSState)
    requires QuorumRequired(s) == QuorumRequired(t)
    ensures CheckAdmissibility(request, s) == CheckAdmissibility(request, t)
  {
  }

  /** With an empty quorum the witnesses entry is irrelevant: it can neither
      cause a refusal nor change the verdict when it is absent or empty. */
  lemma EmptyQuorumIgnoresWitnesses(request: Request, s: QSState, w: Value)
    requires !QuorumRequired(s)
    ensures CheckAdmissibility(request, s) != Refused(InsufficientWitness)
    ensures CheckAdmissibility(request, s) == CheckAdmissibility(request - {"witnesses"}, s)
    ensures CheckAdmissibility(request, s) == CheckAdmissibility(request["witnesses" := w], s)
  {
  }

  // ---------------------------------------------------------------------------
  // The witness check as Python evaluates it
  // ---------------------------------------------------------------------------

  /** `not witnesses or len(witnesses) < 1` as Python evaluates it: the `or`
      short-circuits on a falsy value, and otherwise `len` raises `TypeError`
      on a value that has no length (`true`, a non-zero number). */
  function WitnessesMissingAsWritten(w: Value): (r: Eval<bool>)
    ensures r.RaisesTypeError? <==> Truthy(w) && Len(w).None?
    ensures r.Returns? ==> r.value == WitnessesMissing(w)
  {
    if !Truthy(w) then
      Returns(true)
    else
      match Len(w)
      case None => RaisesTypeError
      case Some(n) => Returns(n < 1)
  }

  /** `check_admissibility` as written. It raises exactly when the schema is
      present, the quorum is non-empty and the witnesses entry is truthy but
      has no length; in every other case it agrees with `CheckAdmissibility`. */
  function CheckAdmissibilityAsWritten(request: Request, s: QSState): (r: Eval<Admission>)
    ensures r.RaisesTypeError? <==>
              HasSchema(request) && QuorumRequired(s)
              && Truthy(Witnesses(request)) && Len(Witnesses(request)).None?
    ensures r.Returns? ==> r.value == CheckAdmissibility(request, s)
  {
    if !HasSchema(request) then
      Returns(Refused(InvalidSchema))
    else
      var missing :=
        if QuorumRequired(s) then WitnessesMissingAsWritten(Witnesses(request)) else Returns(false);
      match missing
      case RaisesTypeError => RaisesTypeError
      case Returns(true) => Returns(Refused(InsufficientWitness))
      case Returns(false) => Returns(if Ambiguous(request) then Refused(AmbiguousInput) else Admitted)
  }

  // ---------------------------------------------------------------------------
  // Execution
  // ---------------------------------------------------------------------------

  /** The artifact an append with the given (new) count produces. */
  function ArtifactName(count: int): string
  {
    "artifact-" + IntToString(count) + ".txt"
  }

  /** Appends with different counts never name the same artifact. */
  lemma ArtifactNamesDistinct(m: int, n: int)
    requires m != n
    ensures ArtifactName(m) != ArtifactName(n)
  {
    if ArtifactName(m) == ArtifactName(n) {
      var a, b := IntToString(m), IntToString(n);
      assert |a| == |b|;
      assert a == ArtifactName(m)[9..9 + |a|];
      assert b == ArtifactName(n)[9..9 + |b|];
      IntToStringInjective(m, n);
    }
  }

  /** Whether executing an action of this type emits any artifact. */
  predicate EmitsArtifacts(actionType: Value)
  {
    actionType == Str(GenerateArtifact) || actionType == Str(ForceEmissionFailure)
  }

  /** The mock execution: bumps the append count, chains the ledger head over
      the canonical request, and emits the artifacts the action type calls
      for. The caller guarantees the request has an `actionType` and
      canonicalises (Python raises `KeyError` or `TypeError` otherwise). */
  function ExecuteDeterministically(p: Primitives, request: Request, s: QSState): (r: Execution)
    requires "actionType" in request
    requires Serialisable(Dict(request))
    ensures r.newState.appendCount == s.appendCount + 1
    ensures r.newState.ledgerHead == p.sha256Hex(s.ledgerHead + p.dumps(Dict(request)))
    ensures r.newState.policyVersion == s.policyVersion
    ensures r.newState.witnessQuorum == s.witnessQuorum
    ensures |r.artifacts| <= 1
    ensures r.artifacts != [] <==> EmitsArtifacts(request["actionType"])
    ensures request["actionType"] == Str(GenerateArtifact)
            ==> r.artifacts == [ArtifactName(r.newState.appendCount)]
  {
    var count := s.appendCount + 1;
    var head := p.sha256Hex(s.ledgerHead + p.dumps(Dict(request)));
    var artifacts :=
      if request["actionType"] == Str(GenerateArtifact) then [ArtifactName(count)]
      else if request["actionType"] == Str(ForceEmissionFailure) then [UnauthorizedArtifact]
      else [];
    Execution(s.(appendCount := count, ledgerHead := head), artifacts)
  }

  // ---------------------------------------------------------------------------
  // Receipts and the gate
  // ---------------------------------------------------------------------------

  /** The receipt body `sign_receipt` builds. A receipt whose two states agree
      (up to quorum order) carries equal before and after hashes. */
  function SignReceipt(
    p: Primitives,
    receiptType: ReceiptType,
    requestHash: string,
    before: QSState,
    after: QSState,
    reason: Option<string>,
    artifacts: Option<seq<string>>): (r: Receipt)
    ensures r.receiptType == receiptType && r.reason == reason && r.requestHash == requestHash
    ensures r.stateHashBefore == ComputeStateHash(p, before)
    ensures r.stateHashAfter == ComputeStateHash(p, after)
    ensures SameUpToQuorumOrder(before, after) ==> r.stateHashBefore == r.stateHashAfter
    ensures artifacts.Some? ==> r.artifacts == artifacts.value
    ensures artifacts.None? ==> r.artifacts == []
  {
    assert SameUpToQuorumOrder(before, after) ==>
             ComputeStateHash(p, before) == ComputeStateHash(p, after) by {
      if SameUpToQuorumOrder(before, after) {
        StateHashQuorumOrder(p, before, after);
      }
    }
    Receipt(
      receiptType,
      reason,
      requestHash,
      ComputeStateHash(p, before),
      ComputeStateHash(p, after),
      if artifacts.Some? then artifacts.value else [])
  }

  /** A request that is not a no-op reaches execution and survives the
      emission gate: it canonicalises, passes every admissibility check for a
      state whose quorum is (or is not) empty, and is not an action that emits
      artifacts other than through `GENERATE_ARTIFACT`. */
  predicate Executes(request: Request, quorumRequired: bool)
  {
    && Serialisable(Dict(request))
    && HasSchema(request)
    && !(quorumRequired && WitnessesMissing(Witnesses(request)))
    && !Ambiguous(request)
    && request["actionType"] != Str(ForceEmissionFailure)
  }

  /** The state after a successful execution. */
  function Advanced(p: Primitives, request: Request, s: QSState): QSState
  {
    s.(appendCount := s.appendCount + 1,
       ledgerHead := p.sha256Hex(s.ledgerHead + p.dumps(Dict(request))))
  }

  /** One step of the gate. */
  function ProcessRequest(p: Primitives, request: Option<Request>, s: QSState): (r: QSResult)
    // no input: quiescent closure
    ensures r.QuiescentNoop? <==> request.None?
    ensures r.QuiescentNoop? ==> r.newState == s
    // refusal never changes state, and says so in its receipt
    ensures r.RefusalReceipt? ==> r.newState == s
    ensures r.RefusalReceipt? ==> r.receipt.receiptType == Refusal
    ensures r.RefusalReceipt? ==> r.receipt.stateHashBefore == ComputeStateHash(p, s)
    ensures r.RefusalReceipt? ==> r.receipt.stateHashAfter == r.receipt.stateHashBefore
    ensures r.RefusalReceipt? ==> r.receipt.artifacts == []
    // execution happens exactly for the requests that pass every gate
    ensures r.ExecutedReceipt? <==> request.Some? && Executes(request.value, QuorumRequired(s))
    // execution advances the count by one and rehashes the head, nothing else
    ensures r.ExecutedReceipt? ==> r.newState == Advanced(p, request.value, s)
    ensures r.ExecutedReceipt? ==> r.receipt.receiptType == Executed && r.receipt.reason == None
    ensures r.ExecutedReceipt? ==> r.receipt.requestHash == p.sha256Hex(p.dumps(Dict(request.value)))
    // the receipt binds the state before and the state after
    ensures r.ExecutedReceipt? ==> r.receipt.stateHashBefore == ComputeStateHash(p, s)
    ensures r.ExecutedReceipt? ==> r.receipt.stateHashAfter == ComputeStateHash(p, r.newState)
    // bounded emission
    ensures r.ExecutedReceipt? ==>
              (r.receipt.artifacts != [] <==> request.value["actionType"] == Str(GenerateArtifact))
    ensures r.ExecutedReceipt? && request.value["actionType"] == Str(GenerateArtifact) ==>
              r.receipt.artifacts == [ArtifactName(r.newState.appendCount)]
  {
    if request.None? then
      QuiescentNoop(s)
    else
      var req := request.value;
      var requestHash := ComputeRequestHash(p, req);
      if requestHash.None? then
        var receipt := SignReceipt(p, Refusal, CanonicalisationFailureHash, s, s,
                                   Some(CanonicalisationFailureReason), None);
        RefusalReceipt(receipt, s)
      else
        var admission := CheckAdmissibility(req, s);
        if admission.Refused? then
          var receipt := SignReceipt(p, Refusal, requestHash.value, s, s,
                                     Some(ReasonText(admission.violation)), None);
          RefusalReceipt(receipt, s)
        else
          var execution := ExecuteDeterministically(p, req, s);
          if req["actionType"] != Str(GenerateArtifact) && |execution.artifacts| > 0 then
            var receipt := SignReceipt(p, Refusal, requestHash.value, s, s,
                                       Some(EmissionGateReason), None);
            RefusalReceipt(receipt, s)
          else
            var receipt := SignReceipt(p, Executed, requestHash.value, s, execution.newState,
                                       None, Some(execution.artifacts));
            ExecutedReceipt(receipt, execution.newState)
  }

  /** Which refusal a request draws, and what its receipt says: the first
      failing stage (canonicalisation, then the admissibility checks in order,
      then the emission gate) names the reason. */
  lemma RefusalReasons(p: Primitives, request: Request, s: QSState)
    ensures !Serialisable(Dict(request)) ==>
              var r := ProcessRequest(p, Some(request), s);
              r.RefusalReceipt? && r.receipt.requestHash == CanonicalisationFailureHash
              && r.receipt.reason == Some(CanonicalisationFailureReason)
    ensures Serialisable(Dict(request)) && CheckAdmissibility(request, s).Refused? ==>
              var r := ProcessRequest(p, Some(request), s);
              r.RefusalReceipt? && r.receipt.requestHash == p.sha256Hex(p.dumps(Dict(request)))
              && r.receipt.reason == Some(ReasonText(CheckAdmissibility(request, s).violation))
    ensures Serialisable(Dict(request)) && CheckAdmissibility(request, s) == Admitted
            && request["actionType"] == Str(ForceEmissionFailure) ==>
              var r := ProcessRequest(p, Some(request), s);
              r.RefusalReceipt? && r.receipt.requestHash == p.sha256Hex(p.dumps(Dict(request)))
              && r.receipt.reason == Some(EmissionGateReason)
  {
  }

  /** Canonicalisation alone decides the canonicalisation refusal: a request
      draws it exactly when `json.dumps` cannot serialise it, and every receipt
      for a serialisable request carries the hash of its canonical form. */
  lemma CanonicalisationDecides(p: Primitives, request: Request, s: QSState)
    ensures var r := ProcessRequest(p, Some(request), s);
            (r.RefusalReceipt? && r.receipt.reason == Some(CanonicalisationFailureReason))
            <==> !Serialisable(Dict(request))
    ensures var r := ProcessRequest(p, Some(request), s);
            Serialisable(Dict(request)) ==> r.receipt.requestHash == p.sha256Hex(p.dumps(Dict(request)))
  {
  }

  /** `FORCE_EMISSION_FAILURE` never executes, however admissible it is. */
  lemma ForcedEmissionAlwaysRefused(p: Primitives, request: Request, s: QSState)
    requires "actionType" in request && request["actionType"] == Str(ForceEmissionFailure)
    ensures ProcessRequest(p, Some(request), s).RefusalReceipt?
  {
  }

  /** The outcome's kind depends on the state only through whether its quorum
      is empty: ledger head, policy version, count and the quorum's members
      play no part in the verdict. */
  lemma VerdictIndependentOfHistory(p: Primitives, request: Option<Request>, s: QSState, t: QSState)
    requires QuorumRequired(s) == QuorumRequired(t)
    ensures ProcessRequest(p, request, s).QuiescentNoop? == ProcessRequest(p, request, t).QuiescentNoop?
    ensures ProcessRequest(p, request, s).RefusalReceipt? == ProcessRequest(p, request, t).RefusalReceipt?
    ensures ProcessRequest(p, request, s).ExecutedReceipt? == ProcessRequest(p, request, t).ExecutedReceipt?
  {
  }
}

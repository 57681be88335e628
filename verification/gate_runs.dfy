/** The gate applied to a sequence of requests, one call after another, each
    call receiving the state the previous one returned. */
module GateRuns {
  import opened Wrappers
  import opened QuiescentSufficiency

  /** The state after the gate has processed `requests` in order. */
  function Run(p: Primitives, s: QSState, requests: seq<Option<Request>>): QSState
    decreases |requests|
  {
    if |requests| == 0 then s
    else Run(p, ProcessRequest(p, requests[0], s).newState, requests[1..])
  }

  /** The receipts the gate issues along a run, in order; a no-op issues none. */
  function Receipts(p: Primitives, s: QSState, requests: seq<Option<Request>>): seq<Receipt>
    decreases |requests|
  {
    if |requests| == 0 then []
    else
      var r := ProcessRequest(p, requests[0], s);
      (if r.QuiescentNoop? then [] else [r.receipt]) + Receipts(p, r.newState, requests[1..])
  }

  predicate ExecutesUnder(request: Option<Request>, quorumRequired: bool)
  {
    request.Some? && Executes(request.value, quorumRequired)
  }

  /** The requests of a run that the gate executes, given whether the quorum
      is empty. */
  function ExecutedOnly(requests: seq<Option<Request>>, quorumRequired: bool): (r: seq<Option<Request>>)
    ensures |r| <= |requests|
    ensures forall i :: 0 <= i < |r| ==> ExecutesUnder(r[i], quorumRequired)
    decreases |requests|
  {
    if |requests| == 0 then []
    else if ExecutesUnder(requests[0], quorumRequired) then
      [requests[0]] + ExecutedOnly(requests[1..], quorumRequired)
    else ExecutedOnly(requests[1..], quorumRequired)
  }

  /** No run changes the policy version or the witness quorum. */
  lemma {:induction false} RunKeepsPolicyAndQuorum(p: Primitives, s: QSState, requests: seq<Option<Request>>)
    ensures Run(p, s, requests).policyVersion == s.policyVersion
    ensures Run(p, s, requests).witnessQuorum == s.witnessQuorum
    decreases |requests|
  {
    if |requests| > 0 {
      RunKeepsPolicyAndQuorum(p, ProcessRequest(p, requests[0], s).newState, requests[1..]);
    }
  }

  /** The append count grows by exactly the number of executed requests. */
  lemma {:induction false} RunCountsExecutions(p: Primitives, s: QSState, requests: seq<Option<Request>>)
    ensures Run(p, s, requests).appendCount
            == s.appendCount + |ExecutedOnly(requests, QuorumRequired(s))|
    decreases |requests|
  {
    if |requests| > 0 {
      var next := ProcessRequest(p, requests[0], s).newState;
      assert QuorumRequired(next) == QuorumRequired(s);
      RunCountsExecutions(p, next, requests[1..]);
    }
  }

  /** Refusals and no-ops leave no trace: dropping every request the gate
      does not execute yields the same final state. */
  lemma {:induction false} RefusalsLeaveNoTrace(p: Primitives, s: QSState, requests: seq<Option<Request>>)
    ensures Run(p, s, requests) == Run(p, s, ExecutedOnly(requests, QuorumRequired(s)))
    decreases |requests|
  {
    if |requests| > 0 {
      var next := ProcessRequest(p, requests[0], s).newState;
      assert QuorumRequired(next) == QuorumRequired(s);
      var kept := ExecutedOnly(requests, QuorumRequired(s));
      RefusalsLeaveNoTrace(p, next, requests[1..]);
      if ExecutesUnder(requests[0], QuorumRequired(s)) {
        assert kept == [requests[0]] + ExecutedOnly(requests[1..], QuorumRequired(s));
        assert kept[1..] == ExecutedOnly(requests[1..], QuorumRequired(s));
      } else {
        assert next == s;
      }
    }
  }

  /** Each receipt starts from the state hash the previous one ended at. */
  predicate Chained(rs: seq<Receipt>)
  {
    forall i :: 0 <= i < |rs| - 1 ==> rs[i].stateHashAfter == rs[i + 1].stateHashBefore
  }

  lemma ChainedCons(x: Receipt, tail: seq<Receipt>)
    requires Chained(tail)
    requires |tail| > 0 ==> x.stateHashAfter == tail[0].stateHashBefore
    ensures Chained([x] + tail)
  {
  }

  /** A receipt of one step runs from the hash of the state the step received
      to the hash of the state it returned. */
  lemma StepReceiptHashes(p: Primitives, request: Option<Request>, s: QSState)
    ensures var r := ProcessRequest(p, request, s);
            !r.QuiescentNoop? ==>
              r.receipt.stateHashBefore == ComputeStateHash(p, s)
              && r.receipt.stateHashAfter == ComputeStateHash(p, r.newState)
  {
  }

  /** The receipts of a run form a chain: each starts from the state hash the
      previous one ended at. */
  lemma {:induction false} ReceiptsChain(p: Primitives, s: QSState, requests: seq<Option<Request>>)
    ensures Chained(Receipts(p, s, requests))
    decreases |requests|
  {
    if |requests| > 0 {
      var r := ProcessRequest(p, requests[0], s);
      var tail := Receipts(p, r.newState, requests[1..]);
      ReceiptsChain(p, r.newState, requests[1..]);
      if !r.QuiescentNoop? {
        StepReceiptHashes(p, requests[0], s);
        ReceiptsStart(p, r.newState, requests[1..]);
        assert Receipts(p, s, requests) == [r.receipt] + tail;
        ChainedCons(r.receipt, tail);
      }
    }
  }

  /** The first receipt of a run starts from the hash of the initial state. */
  lemma {:induction false} ReceiptsStart(p: Primitives, s: QSState, requests: seq<Option<Request>>)
    ensures var rs := Receipts(p, s, requests);
            |rs| > 0 ==> rs[0].stateHashBefore == ComputeStateHash(p, s)
    decreases |requests|
  {
    if |requests| > 0 {
      var r := ProcessRequest(p, requests[0], s);
      StepReceiptHashes(p, requests[0], s);
      if r.QuiescentNoop? {
        ReceiptsStart(p, r.newState, requests[1..]);
      }
    }
  }

  /** One step of a run: the first request issues at most one receipt, which
      ends at the hash of the state the rest of the run starts from; with no
      receipt that state is the one the step received. */
  lemma RunStep(p: Primitives, s: QSState, requests: seq<Option<Request>>)
      returns (head: seq<Receipt>, next: QSState)
    requires |requests| > 0
    ensures Receipts(p, s, requests) == head + Receipts(p, next, requests[1..])
    ensures Run(p, s, requests) == Run(p, next, requests[1..])
    ensures |head| <= 1
    ensures |head| == 1 ==> head[0].stateHashAfter == ComputeStateHash(p, next)
    ensures |head| == 0 ==> next == s
  {
    var r := ProcessRequest(p, requests[0], s);
    StepReceiptHashes(p, requests[0], s);
    head := if r.QuiescentNoop? then [] else [r.receipt];
    next := r.newState;
  }

  /** The last of the receipts, if there is one, ends at state hash `h`. */
  predicate EndsAt(rs: seq<Receipt>, h: string)
  {
    |rs| > 0 ==> rs[|rs| - 1].stateHashAfter == h
  }

  lemma EndsAtAppend(head: seq<Receipt>, tail: seq<Receipt>, h: string)
    requires EndsAt(tail, h) && |tail| > 0
    ensures EndsAt(head + tail, h)
  {
  }

  /** The last receipt of a run ends at the hash of the final state. */
  lemma {:induction false} ReceiptsEnd(p: Primitives, s: QSState, requests: seq<Option<Request>>)
    ensures EndsAt(Receipts(p, s, requests), ComputeStateHash(p, Run(p, s, requests)))
    decreases |requests|
  {
    if |requests| > 0 {
      var head, next := RunStep(p, s, requests);
      var tail := Receipts(p, next, requests[1..]);
      var final := Run(p, next, requests[1..]);
      if |tail| == 0 {
        ReceiptsEmptyRun(p, next, requests[1..]);
        assert head + tail == head;
      } else {
        ReceiptsEnd(p, next, requests[1..]);
        EndsAtAppend(head, tail, ComputeStateHash(p, final));
      }
    }
  }

  /** A run that issues no receipt consists of no-ops only and leaves the
      state as it was. */
  lemma {:induction false} ReceiptsEmptyRun(p: Primitives, s: QSState, requests: seq<Option<Request>>)
    requires Receipts(p, s, requests) == []
    ensures forall i :: 0 <= i < |requests| ==> requests[i].None?
    ensures Run(p, s, requests) == s
    decreases |requests|
  {
    if |requests| > 0 {
      var r := ProcessRequest(p, requests[0], s);
      var head, next := RunStep(p, s, requests);
      assert r.QuiescentNoop?;
      ReceiptsEmptyRun(p, next, requests[1..]);
      forall i | 1 <= i < |requests|
        ensures requests[i].None?
      {
        assert requests[i] == requests[1..][i - 1];
      }
    }
  }
}

/**
 * Outbound transfers of the faucet wallet: a cached next nonce that is
 * fetched from the node only when unknown, bumped on every send and
 * forgotten on any failure, and a chain that runs the sends one at a time in
 * call order. The node's answers for each send are inputs.
 */
module Wallet {
  import opened Wrappers

  /**
   * What the node answers during one send: whether the fee lookup succeeds,
   * what the pending-nonce query returns (None: it throws), and the
   * transaction hash if the transaction is accepted (None: it throws).
   */
  datatype Attempt = Attempt(feeData: bool, pendingNonce: Option<nat>, submission: Option<string>)

  /** One call of the drip sender: recipient and the node's answers for it. */
  datatype Request = Request(to: string, attempt: Attempt)

  datatype Failure = FeeLookupFailed | NonceQueryFailed | SubmissionFailed(nonce: nat)

  /** How one call settles: resolved with a hash, or rejected. */
  datatype Receipt = Sent(to: string, nonce: nat, hash: string) | Rejected(to: string, failure: Failure)

  /** The cache and the receipt after one link of the chain runs. */
  datatype Step = Step(cache: Option<nat>, receipt: Receipt)

  /**
   * One send with cache `cache`: the node is asked for the pending nonce only
   * when the cache is empty; a send that goes through uses the cached (or
   * fetched) nonce and leaves the cache one higher; any failure empties it.
   */
  function SendStep(cache: Option<nat>, to: string, a: Attempt): (r: Step)
    ensures r.receipt.to == to
    ensures r.receipt.Sent? <==> a.feeData && (cache.Some? || a.pendingNonce.Some?) && a.submission.Some?
    ensures r.receipt.Sent? ==>
      && r.receipt.nonce == (if cache.Some? then cache.value else a.pendingNonce.value)
      && r.receipt.hash == a.submission.value
      && r.cache == Some(r.receipt.nonce + 1)
    ensures r.receipt.Rejected? ==> r.cache == None
  {
    if !a.feeData then Step(None, Rejected(to, FeeLookupFailed))
    else if cache.None? && a.pendingNonce.None? then Step(None, Rejected(to, NonceQueryFailed))
    else
      var nonce := if cache.Some? then cache.value else a.pendingNonce.value;
      if a.submission.None? then Step(None, Rejected(to, SubmissionFailed(nonce)))
      else Step(Some(nonce + 1), Sent(to, nonce, a.submission.value))
  }

  /** With a cached nonce the node's pending-nonce answer plays no part. */
  lemma CachedNonceSkipsNode(n: nat, to: string, a: Attempt, other: Option<nat>)
    ensures SendStep(Some(n), to, a) == SendStep(Some(n), to, a.(pendingNonce := other))
  {
  }

  /** The requests of a chain served one after the other: final cache and receipts in order. */
  function Serve(cache: Option<nat>, reqs: seq<Request>): (r: (Option<nat>, seq<Receipt>))
    ensures |r.1| == |reqs|
    decreases |reqs|
  {
    if reqs == [] then (cache, [])
    else
      var prev := Serve(cache, reqs[..|reqs| - 1]);
      var step := SendStep(prev.0, reqs[|reqs| - 1].to, reqs[|reqs| - 1].attempt);
      (step.cache, prev.1 + [step.receipt])
  }

  /** Every call gets its own receipt, addressed to its own recipient. */
  lemma {:induction false} ServeRecipients(cache: Option<nat>, reqs: seq<Request>)
    ensures forall i :: 0 <= i < |reqs| ==> Serve(cache, reqs).1[i].to == reqs[i].to
    decreases |reqs|
  {
    if reqs != [] {
      var init := reqs[..|reqs| - 1];
      ServeRecipients(cache, init);
      ServeLast(cache, reqs);
    }
  }

  /** The last call of a chain runs with the cache left by the ones before it. */
  lemma ServeLast(cache: Option<nat>, reqs: seq<Request>)
    requires |reqs| >= 1
    ensures var prev := Serve(cache, reqs[..|reqs| - 1]);
      var step := SendStep(prev.0, reqs[|reqs| - 1].to, reqs[|reqs| - 1].attempt);
      Serve(cache, reqs) == (step.cache, prev.1 + [step.receipt])
  {
  }

  /** A prefix of the calls settles exactly as it does within the whole chain. */
  lemma {:induction false} ServePrefix(cache: Option<nat>, reqs: seq<Request>, j: nat)
    requires j <= |reqs|
    ensures Serve(cache, reqs[..j]).1 == Serve(cache, reqs).1[..j]
    decreases |reqs|
  {
    var n := |reqs|;
    if j == n {
      assert reqs[..j] == reqs;
    } else {
      var init := reqs[..n - 1];
      ServeLast(cache, reqs);
      var prev := Serve(cache, init).1;
      ServePrefix(cache, init, j);
      assert init[..j] == reqs[..j];
      assert Serve(cache, reqs).1[..j] == prev[..j];
    }
  }

  /**
   * FIFO: the i-th call settles as its own send does when run with the cache
   * left by the calls before it; later calls never affect it.
   */
  lemma ServeAt(cache: Option<nat>, reqs: seq<Request>, i: nat)
    requires i < |reqs|
    ensures Serve(cache, reqs).1[i] == SendStep(Serve(cache, reqs[..i]).0, reqs[i].to, reqs[i].attempt).receipt
    ensures Serve(cache, reqs[..i + 1]).0 == SendStep(Serve(cache, reqs[..i]).0, reqs[i].to, reqs[i].attempt).cache
  {
    var head := reqs[..i + 1];
    ServePrefix(cache, reqs, i + 1);
    ServeLast(cache, head);
    assert head[..i] == reqs[..i];
    assert Serve(cache, reqs).1[i] == Serve(cache, head).1[i];
  }

  /**
   * Successive sends with no failure use consecutive nonces n, n+1, ...,
   * where n is the cached nonce, or the node's answer to the first call when
   * nothing was cached; the cache ends one past the last nonce used.
   */
  lemma {:induction false} ConsecutiveNonces(cache: Option<nat>, reqs: seq<Request>, base: nat)
    requires |reqs| >= 1
    requires cache.Some? || reqs[0].attempt.pendingNonce.Some?
    requires base == if cache.Some? then cache.value else reqs[0].attempt.pendingNonce.value
    requires forall i :: 0 <= i < |reqs| ==> Serve(cache, reqs).1[i].Sent?
    ensures forall i :: 0 <= i < |reqs| ==> Serve(cache, reqs).1[i].nonce == base + i
    ensures Serve(cache, reqs).0 == Some(base + |reqs|)
    decreases |reqs|
  {
    var n := |reqs|;
    var init := reqs[..n - 1];
    var prev := Serve(cache, init);
    ServeLast(cache, reqs);
    assert Serve(cache, reqs).1[n - 1].Sent?;
    if n > 1 {
      assert init[0] == reqs[0];
      forall i | 0 <= i < n - 1
        ensures prev.1[i].Sent?
      {
        assert Serve(cache, reqs).1[i] == prev.1[i];
      }
      ConsecutiveNonces(cache, init, base);
    }
  }

  /**
   * A failure does not block the chain: the call after a rejected one
   * re-queries the node, and it goes through exactly when its own fee lookup,
   * nonce query and submission do.
   */
  lemma RequeryAfterFailure(cache: Option<nat>, reqs: seq<Request>, i: nat)
    requires i + 1 < |reqs|
    requires Serve(cache, reqs).1[i].Rejected?
    ensures Serve(cache, reqs[..i + 1]).0 == None
    ensures var a := reqs[i + 1].attempt;
      Serve(cache, reqs).1[i + 1].Sent? <==> a.feeData && a.pendingNonce.Some? && a.submission.Some?
    ensures Serve(cache, reqs).1[i + 1].Sent? ==> Serve(cache, reqs).1[i + 1].nonce == reqs[i + 1].attempt.pendingNonce.value
  {
    ServeAt(cache, reqs, i);
    ServeAt(cache, reqs, i + 1);
  }

  /** The faucet wallet's dispatch state. */
  class Dispatcher {
    /** `nextNonce`: None stands for `null`. */
    var nextNonce: Option<nat>
    /** Calls that are queued on the chain and have not run yet. */
    var txQueue: seq<Request>

    constructor ()
      ensures nextNonce == None && txQueue == []
    {
      nextNonce := None;
      txQueue := [];
    }

    /** The body of one chain link: fee lookup, nonce selection, submission, reset on failure. */
    method SendDrip(to: string, a: Attempt) returns (r: Receipt)
      modifies this`nextNonce
      ensures Step(nextNonce, r) == SendStep(old(nextNonce), to, a)
    {
      if !a.feeData {
        nextNonce := None;
        return Rejected(to, FeeLookupFailed);
      }
      if nextNonce == None {
        if a.pendingNonce == None {
          nextNonce := None;
          return Rejected(to, NonceQueryFailed);
        }
        nextNonce := a.pendingNonce;
      }
      var nonce := nextNonce.value;
      nextNonce := Some(nonce + 1);
      if a.submission == None {
        nextNonce := None;
        return Rejected(to, SubmissionFailed(nonce));
      }
      r := Sent(to, nonce, a.submission.value);
    }

    /** A call of the sender: its link is appended to the chain. */
    method Enqueue(req: Request)
      modifies this`txQueue
      ensures txQueue == old(txQueue) + [req]
    {
      txQueue := txQueue + [req];
    }

    /**
     * `await sendDrip(to)`: the call's link joins the end of the chain, and
     * the chain runs until that link has settled, so every link already
     * pending runs first and the call settles with the cache they leave.
     */
    method SendAndAwait(to: string, a: Attempt) returns (r: Receipt)
      modifies this
      ensures var step := SendStep(Serve(old(nextNonce), old(txQueue)).0, to, a);
        r == step.receipt && nextNonce == step.cache
      ensures txQueue == []
    {
      var req := Request(to, a);
      Enqueue(req);
      var receipts := Drain();
      ServeLast(old(nextNonce), old(txQueue) + [req]);
      assert (old(txQueue) + [req])[..|old(txQueue)|] == old(txQueue);
      r := receipts[|receipts| - 1];
    }

    /** The chain runs its links one at a time, oldest first, until none is left. */
    method Drain() returns (receipts: seq<Receipt>)
      modifies this
      ensures txQueue == []
      ensures (nextNonce, receipts) == Serve(old(nextNonce), old(txQueue))
    {
      receipts := [];
      ghost var i := 0;
      while txQueue != []
        invariant 0 <= i <= |old(txQueue)|
        invariant txQueue == old(txQueue)[i..]
        invariant (nextNonce, receipts) == Serve(old(nextNonce), old(txQueue)[..i])
        decreases |txQueue|
      {
        var req := txQueue[0];
        txQueue := txQueue[1..];
        var r := SendDrip(req.to, req.attempt);
        assert old(txQueue)[..i + 1][..i] == old(txQueue)[..i];
        receipts := receipts + [r];
        i := i + 1;
      }
      assert old(txQueue)[..i] == old(txQueue);
    }
  }
}

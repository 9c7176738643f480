/**
 Posting to a server that does not dedupe (omnigent/_native_post_delivery.py).
 The server is a commit log. What a failed POST means is the contract written in
 `post_may_have_been_delivered`: a status or a connection that was never
 established committed nothing; any other transport failure may have.
 */
module Delivery {
  import opened Common
  import opened Steps

  datatype TransportError =
    | ConnectError | ConnectTimeout | PoolTimeout
    | ReadTimeout | WriteTimeout | ReadError | WriteError | RemoteProtocolError | OtherError

  /** What one POST does. `reached` is the adversary's choice for a lost response. */
  datatype Outcome = Response(status: int) | Raised(error: TransportError, reached: bool)

  predicate MayHaveBeenDelivered(e: TransportError) {
    !(e.ConnectError? || e.ConnectTimeout? || e.PoolTimeout?)
  }

  /** The errors that mean no byte was sent. */
  predicate NeverConnected(e: TransportError) {
    e == ConnectError || e == ConnectTimeout || e == PoolTimeout
  }

  /** The server's side, assumed: a 2xx commits, and so may any request that was sent. */
  predicate Commits(o: Outcome) {
    match o
    case Response(status) => 200 <= status < 300
    case Raised(error, reached) => reached && !NeverConnected(error)
  }

  /** The retry loop returns after this attempt. */
  predicate Stops(isItem: bool, max: int, retry: set<int>, o: Outcome, attempt: int) {
    match o
    case Response(status) => status < 400 || status !in retry || attempt >= max
    case Raised(error, _) => (isItem && MayHaveBeenDelivered(error)) || attempt >= max
  }

  /** How often the server commits the event over attempts `attempt..max`. */
  function CommitCount(isItem: bool, max: int, retry: set<int>, net: int -> Outcome, attempt: int): (n: nat)
    decreases max - attempt
  {
    if attempt > max then 0 else
      (if Commits(net(attempt)) then 1 else 0) +
      (if Stops(isItem, max, retry, net(attempt), attempt) then 0
       else CommitCount(isItem, max, retry, net, attempt + 1))
  }

  /** A conversation item is committed at most once, whatever the network does. */
  lemma {:induction false} ItemCommittedAtMostOnce(max: int, retry: set<int>, net: int -> Outcome, attempt: int)
    ensures CommitCount(true, max, retry, net, attempt) <= 1
    decreases max - attempt
  {
    if attempt <= max {
      ItemCommittedAtMostOnce(max, retry, net, attempt + 1);
    }
  }

  /** Retrying after an ambiguous failure, as other events do, can commit twice. */
  lemma {:induction false} OtherEventsMayRepeat(max: int, retry: set<int>)
    requires max >= 2
    ensures exists net: int -> Outcome :: CommitCount(false, max, retry, net, 1) == 2
  {
    var net := (i: int) => if i == 1 then Raised(ReadTimeout, true) else Response(200);
    assert CommitCount(false, max, retry, net, 2) == 1;
    assert CommitCount(false, max, retry, net, 1) == 2;
  }

  /** An event is committed at most once on every network if and only if it is an item or is never retried. */
  lemma {:induction false} AtMostOnceIff(isItem: bool, max: int, retry: set<int>)
    ensures (forall net :: CommitCount(isItem, max, retry, net, 1) <= 1) <==> isItem || max <= 1
  {
    if isItem || max <= 1 {
      forall net: int -> Outcome ensures CommitCount(isItem, max, retry, net, 1) <= 1 {
        if isItem {
          ItemCommittedAtMostOnce(max, retry, net, 1);
        } else {
          assert CommitCount(isItem, max, retry, net, 2) == 0;
        }
      }
    } else {
      OtherEventsMayRepeat(max, retry);
    }
  }

  // ------------------------------------------------- which attempt ends a call

  /** An outcome after which the call may try again, said without the loop. */
  predicate TryAgain(isItem: bool, retry: set<int>, o: Outcome) {
    match o
    case Response(status) => status >= 400 && status in retry
    case Raised(error, _) => !isItem || NeverConnected(error)
  }

  /** Attempt `k` is the last: all earlier ones could be retried, and it cannot, or is the last allowed. */
  ghost predicate EndsAt(isItem: bool, max: int, retry: set<int>, net: int -> Outcome, k: int) {
    && 1 <= k <= max
    && (forall j :: 1 <= j < k ==> TryAgain(isItem, retry, net(j)))
    && (k == max || !TryAgain(isItem, retry, net(k)))
  }

  lemma {:induction false} StopsMeaning(isItem: bool, max: int, retry: set<int>, o: Outcome, attempt: int)
    ensures Stops(isItem, max, retry, o, attempt) <==> attempt >= max || !TryAgain(isItem, retry, o)
  {
  }

  /** Attempt `k` commits, and every one from `attempt` up to it may be retried. */
  ghost predicate LandsAt(retry: set<int>, net: int -> Outcome, attempt: int, k: int) {
    attempt <= k && Commits(net(k)) && forall j :: attempt <= j < k ==> TryAgain(true, retry, net(j))
  }

  ghost predicate CanLand(max: int, retry: set<int>, net: int -> Outcome, attempt: int) {
    exists k :: k <= max && LandsAt(retry, net, attempt, k)
  }

  lemma {:induction false} CanLandStep(max: int, retry: set<int>, net: int -> Outcome, attempt: int)
    ensures CanLand(max, retry, net, attempt) <==>
            attempt <= max && (Commits(net(attempt))
                               || (TryAgain(true, retry, net(attempt)) && CanLand(max, retry, net, attempt + 1)))
  {
    if CanLand(max, retry, net, attempt) {
      var k :| k <= max && LandsAt(retry, net, attempt, k);
      assert k > attempt ==> LandsAt(retry, net, attempt + 1, k);
    }
    if attempt <= max && Commits(net(attempt)) {
      assert LandsAt(retry, net, attempt, attempt);
    } else if TryAgain(true, retry, net(attempt)) && CanLand(max, retry, net, attempt + 1) {
      var k :| k <= max && LandsAt(retry, net, attempt + 1, k);
      assert LandsAt(retry, net, attempt, k);
    }
  }

  /** An item's attempts commit exactly when one does and every earlier one may be retried. */
  lemma {:induction false} LandsFrom(max: int, retry: set<int>, net: int -> Outcome, attempt: int)
    ensures CommitCount(true, max, retry, net, attempt) > 0 <==> CanLand(max, retry, net, attempt)
    decreases max - attempt
  {
    CanLandStep(max, retry, net, attempt);
    if attempt <= max {
      StopsMeaning(true, max, retry, net(attempt), attempt);
      LandsFrom(max, retry, net, attempt + 1);
      CanLandStep(max, retry, net, attempt + 1);
    }
  }

  /** The attempts before this one may all be retried. */
  ghost predicate Retried(isItem: bool, retry: set<int>, net: int -> Outcome, attempt: int) {
    forall j :: 1 <= j < attempt ==> TryAgain(isItem, retry, net(j))
  }

  lemma {:induction false} EndsHere(isItem: bool, max: int, retry: set<int>, net: int -> Outcome, attempt: int)
    requires 1 <= attempt <= max && Retried(isItem, retry, net, attempt)
    requires attempt == max || !TryAgain(isItem, retry, net(attempt))
    ensures forall k :: EndsAt(isItem, max, retry, net, k) ==> k == attempt
  {
  }

  /** Every call that tries at all has a last attempt. */
  lemma {:induction false} CallEnds(isItem: bool, max: int, retry: set<int>, net: int -> Outcome) returns (k: int)
    requires max >= 1
    ensures EndsAt(isItem, max, retry, net, k)
  {
    k := 1;
    while k < max && TryAgain(isItem, retry, net(k))
      invariant 1 <= k <= max && forall j :: 1 <= j < k ==> TryAgain(isItem, retry, net(j))
    {
      k := k + 1;
    }
  }

  function Repeat<T>(x: T, n: nat): (s: seq<T>)
    ensures |s| == n && forall i :: 0 <= i < n ==> s[i] == x
  {
    seq(n, _ => x)
  }

  /** A committed event, and which post of the run committed it. */
  datatype Receipt = Receipt(post: nat, event: Event)

  class Server {
    var log: seq<Receipt>

    constructor ()
      ensures log == []
    {
      log := [];
    }

    method Serve(r: Receipt, o: Outcome)
      modifies this
      ensures log == if Commits(o) then old(log) + [r] else old(log)
    {
      if Commits(o) {
        log := log + [r];
      }
    }

    method PostWithRetry(r: Receipt, max: int, retry: set<int>, net: int -> Outcome) returns (answer: Option<int>)
      modifies this
      ensures log == old(log) + Repeat(r, CommitCount(IsItem(r.event), max, retry, net, 1))
      ensures IsItem(r.event) ==> log == old(log) || log == old(log) + [r]
      ensures answer.Some? && 200 <= answer.value < 300 ==> |log| > |old(log)|
      ensures forall k :: EndsAt(IsItem(r.event), max, retry, net, k) ==>
                answer == if net(k).Response? then Some(net(k).status) else None
      ensures max < 1 ==> answer == None
    {
      ItemCommittedAtMostOnce(max, retry, net, 1);
      var attempt := 1;
      ghost var total := CommitCount(IsItem(r.event), max, retry, net, 1);
      ghost var n := 0;
      while attempt <= max
        invariant 1 <= attempt && (attempt == 1 || attempt <= max) && Retried(IsItem(r.event), retry, net, attempt)
        invariant n + CommitCount(IsItem(r.event), max, retry, net, attempt) == total
        invariant log == old(log) + Repeat(r, n)
        decreases max - attempt
      {
        var o := net(attempt);
        Serve(r, o);
        if Commits(o) {
          assert Repeat(r, n) + [r] == Repeat(r, n + 1);
          n := n + 1;
        }
        StopsMeaning(IsItem(r.event), max, retry, o, attempt);
        if Stops(IsItem(r.event), max, retry, o, attempt) {
          EndsHere(IsItem(r.event), max, retry, net, attempt);
        }
        match o {
          case Raised(error, _) =>
            if IsItem(r.event) && MayHaveBeenDelivered(error) {
              return None; // may already be committed: a retry could duplicate it
            }
            if attempt >= max {
              return None;
            }
          case Response(status) =>
            if status < 400 || status !in retry || attempt >= max {
              return Some(status);
            }
        }
        attempt := attempt + 1;
      }
      return None;
    }
  }
}

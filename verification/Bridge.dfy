/**
 The interaction bridge (omnigent/antigravity_native_interactions.py): surface a
 WAITING gate, await the verdict, deliver it, and follow agy's timeout retries at
 higher step indexes. Snapshots, verdicts and delivery results are adversarial.
 */
module Bridge {
  import opened Common
  import opened Steps

  type Snapshot = seq<Step>

  datatype Gate = Gate(trajectory: string, index: int)

  function GateOf(p: Pending): (g: Gate) {
    Gate(p.trajectory, p.index)
  }

  /** The interactions a snapshot shows as WAITING. */
  ghost function Pendings(steps: Snapshot): (r: set<Pending>) {
    set s | s in steps && PendingOf(s).Some? :: PendingOf(s).value
  }

  /** A gate is a trajectory and an index: neither alone tells two interactions apart. */
  lemma {:induction false} GatesIdentify(p: Pending, q: Pending)
    ensures GateOf(p) == GateOf(q) <==> p.trajectory == q.trajectory && p.index == q.index
    ensures GateOf(p).trajectory == p.trajectory && GateOf(p).index == p.index
  {
  }

  ghost predicate WaitsAt(seen: set<Pending>, g: Gate) {
    exists p :: p in seen && GateOf(p) == g
  }

  predicate Eligible(p: Pending, kind: InteractionKind, after: Option<int>) {
    p.kind == kind && (after.Some? ==> p.index > after.value)
  }

  /** The highest-index WAITING interaction of a kind, past `after` if given. */
  method FreshestWaiting(steps: Snapshot, kind: InteractionKind, after: Option<int>) returns (r: Option<Pending>)
    ensures r.Some? ==> r.value in Pendings(steps) && Eligible(r.value, kind, after)
    ensures r.Some? ==> forall p :: p in Pendings(steps) && Eligible(p, kind, after) ==> p.index <= r.value.index
    ensures r.None? ==> forall p :: p in Pendings(steps) ==> !Eligible(p, kind, after)
  {
    r := None;
    for i := 0 to |steps|
      invariant r.Some? ==> r.value in Pendings(steps) && Eligible(r.value, kind, after)
      invariant forall j :: 0 <= j < i && PendingOf(steps[j]).Some? ==>
                  Eligible(PendingOf(steps[j]).value, kind, after) ==>
                  r.Some? && PendingOf(steps[j]).value.index <= r.value.index
    {
      var p := PendingOf(steps[i]);
      if p.Some? && Eligible(p.value, kind, after) && (r.None? || p.value.index > r.value.index) {
        r := p;
        assert steps[i] in steps;
      }
    }
  }

  /** The WAITING interaction at an exact gate, whatever its kind. */
  method WaitingStepAt(steps: Snapshot, g: Gate) returns (r: Option<Pending>)
    ensures r.Some? ==> r.value in Pendings(steps) && GateOf(r.value) == g
    ensures r.None? ==> !WaitsAt(Pendings(steps), g)
  {
    for i := 0 to |steps|
      invariant forall j :: 0 <= j < i ==> PendingOf(steps[j]).Some? ==> GateOf(PendingOf(steps[j]).value) != g
    {
      var p := PendingOf(steps[i]);
      if p.Some? && GateOf(p.value) == g {
        assert steps[i] in steps;
        return p;
      }
    }
    r := None;
  }

  // ----------------------------------------------------------- environment

  type Verdict = string

  /** `Rejected` is any other RPC error, which is logged; `Broke` is any other exception, which escapes. */
  datatype Delivery = Accepted | NotRegistered | Rejected | Broke

  /**
   `view(0)` is what the read driver saw waiting; the bridge's reads follow in order, and
   `read(t)` says whether read `t` succeeded. Attempt `k` gets `verdict(k)`, which is absent
   when the human gave none or asking failed, and, if it delivers, `deliver(k)`.
   */
  datatype World = World(
    view: nat -> set<Pending>,
    read: nat -> bool,
    verdict: nat -> Option<Verdict>,
    deliver: nat -> Delivery)

  /** A gate seen waiting and later seen not waiting, by read `now`. */
  ghost predicate Gone(w: World, g: Gate, now: nat) {
    exists a: nat, b: nat :: a < b <= now && WaitsAt(w.view(a), g) && w.read(b) && !WaitsAt(w.view(b), g)
  }

  /** A gate seen to have stopped waiting is never seen waiting again. */
  ghost predicate NeverWaitsAgain(w: World) {
    forall g, b: nat, c: nat :: Gone(w, g, b) && b < c ==> !WaitsAt(w.view(c), g)
  }

  ghost predicate KindsFixed(w: World) {
    forall a: nat, b: nat, p, q :: p in w.view(a) && q in w.view(b) && GateOf(p) == GateOf(q) ==> p.kind == q.kind
  }

  ghost predicate Orderly(w: World, detected: Pending) {
    NeverWaitsAgain(w) && KindsFixed(w) && detected in w.view(0)
  }

  /** The world of a run: a read that raises shows nothing. */
  ghost function Observe(snapshot: nat -> Option<Snapshot>, verdict: nat -> Option<Verdict>,
                         deliver: nat -> Delivery): (w: World)
    ensures w.verdict == verdict && w.deliver == deliver
  {
    World((t: nat) => if snapshot(t).Some? then Pendings(snapshot(t).value) else {},
          (t: nat) => snapshot(t).Some?, verdict, deliver)
  }

  // ------------------------------------------------------------------ trace

  datatype BridgeEvent =
    | Surfaced(gate: Gate)
    | Delivered(gate: Gate, target: Gate, verdict: Verdict, outcome: Delivery)

  /** Where a verdict for `gate` must go: the gate itself while it waits, else the freshest of its kind. */
  ghost predicate WellTargeted(seen: set<Pending>, kind: InteractionKind, gate: Gate, target: Gate) {
    if WaitsAt(seen, gate) then target == gate
    else exists p :: p in seen && p.kind == kind && GateOf(p) == target
                     && forall q :: q in seen && q.kind == kind ==> q.index <= p.index
  }

  /** `gate` is the highest waiting gate of its kind strictly above the one that timed out. */
  ghost predicate Supersedes(seen: set<Pending>, kind: InteractionKind, timedOut: Gate, gate: Gate) {
    exists p :: p in seen && p.kind == kind && GateOf(p) == gate && gate.index > timedOut.index
                && forall q :: q in seen && q.kind == kind ==> q.index <= p.index
  }

  /** Surfacings and deliveries alternate; a delivery answers the surfacing before it. */
  ghost predicate EventOk(w: World, kind: InteractionKind, trace: seq<BridgeEvent>, i: nat)
    requires i < |trace|
  {
    var k := i / 2;
    if i == 0 then trace[i].Surfaced?
    else if i % 2 == 0 then
      && trace[i].Surfaced? && trace[i - 1].Delivered? && w.read(i)
      && Supersedes(w.view(i), kind, trace[i - 1].target, trace[i].gate)
    else
      && trace[i].Delivered? && w.read(i) && trace[i - 1] == Surfaced(trace[i].gate)
      && w.verdict(k) == Some(trace[i].verdict) && trace[i].outcome == w.deliver(k)
      && WellTargeted(w.view(i), kind, trace[i].gate, trace[i].target)
  }

  /** Only a timed-out delivery is followed by another surfacing. */
  predicate MayGoOn(e: BridgeEvent) {
    e.Delivered? ==> e.outcome == NotRegistered
  }

  ghost predicate TraceOk(w: World, kind: InteractionKind, trace: seq<BridgeEvent>) {
    && (forall i :: 0 <= i < |trace| ==> EventOk(w, kind, trace, i))
    && (forall i :: 0 <= i < |trace| - 1 ==> MayGoOn(trace[i]))
  }

  /** The run stopped for one of the reasons the bridge has for stopping. */
  ghost predicate Finished(w: World, kind: InteractionKind, trace: seq<BridgeEvent>, maxRetries: int) {
    if trace == [] then maxRetries <= 0
    else
      var last := trace[|trace| - 1];
      var k := (|trace| - 1) / 2;
      match last {
        case Surfaced(gate) =>
          || w.verdict(k).None?
          || !w.read(2 * k + 1)
          || (!WaitsAt(w.view(2 * k + 1), gate) && NoneOfKind(w.view(2 * k + 1), kind))
        case Delivered(_, target, _, outcome) =>
          || outcome != NotRegistered
          || k + 1 == maxRetries
          || !w.read(2 * k + 2)
          || NothingAbove(w.view(2 * k + 2), kind, target)
      }
  }

  ghost predicate NoneOfKind(seen: set<Pending>, kind: InteractionKind) {
    forall q :: q in seen ==> q.kind != kind
  }

  ghost predicate NothingAbove(seen: set<Pending>, kind: InteractionKind, timedOut: Gate) {
    forall q :: q in seen && q.kind == kind ==> q.index <= timedOut.index
  }

  lemma {:induction false} TraceSnoc(w: World, kind: InteractionKind, trace: seq<BridgeEvent>, e: BridgeEvent)
    requires TraceOk(w, kind, trace) && (trace != [] ==> MayGoOn(trace[|trace| - 1]))
    requires EventOk(w, kind, trace + [e], |trace|)
    ensures TraceOk(w, kind, trace + [e])
  {
    forall i | 0 <= i < |trace| ensures EventOk(w, kind, trace + [e], i) {
      assert EventOk(w, kind, trace, i);
    }
  }

  /** The last delivery timed out and `next` is where agy retries it. */
  ghost predicate TimedOut(w: World, kind: InteractionKind, trace: seq<BridgeEvent>, next: Gate) {
    && trace != [] && trace[|trace| - 1].Delivered? && trace[|trace| - 1].outcome == NotRegistered
    && w.read(|trace|) && Supersedes(w.view(|trace|), kind, trace[|trace| - 1].target, next)
  }

  lemma {:induction false} TraceSurface(w: World, kind: InteractionKind, trace: seq<BridgeEvent>, gate: Gate)
    requires TraceOk(w, kind, trace) && |trace| % 2 == 0 && (trace == [] || TimedOut(w, kind, trace, gate))
    ensures TraceOk(w, kind, trace + [Surfaced(gate)])
  {
    TraceSnoc(w, kind, trace, Surfaced(gate));
  }

  lemma {:induction false} TraceDeliver(w: World, kind: InteractionKind, trace: seq<BridgeEvent>, k: nat,
                                        event: BridgeEvent)
    requires TraceOk(w, kind, trace) && |trace| == 2 * k + 1
    requires event.Delivered? && trace[2 * k] == Surfaced(event.gate)
    requires w.verdict(k) == Some(event.verdict) && event.outcome == w.deliver(k)
    requires w.read(2 * k + 1) && WellTargeted(w.view(2 * k + 1), kind, event.gate, event.target)
    ensures TraceOk(w, kind, trace + [event])
  {
    TraceSnoc(w, kind, trace, event);
  }

  // ------------------------------------------------- no gate surfaces twice

  /** A gate seen waiting with this kind, by read `now`. */
  ghost predicate WasWaiting(w: World, kind: InteractionKind, g: Gate, now: nat) {
    exists t: nat, p :: t <= now && p in w.view(t) && GateOf(p) == g && p.kind == kind
  }

  /** A surfaced gate above the current index has already stopped waiting. */
  ghost predicate Settled(w: World, kind: InteractionKind, g: Gate, current: Gate, now: nat) {
    WasWaiting(w, kind, g, now) && (g.index > current.index ==> Gone(w, g, now))
  }

  lemma {:induction false} GoneStays(w: World, g: Gate, now: nat, later: nat)
    requires NeverWaitsAgain(w) && Gone(w, g, now) && now < later
    ensures !WaitsAt(w.view(later), g) && Gone(w, g, later)
  {
    var a: nat, b: nat :| a < b <= now && WaitsAt(w.view(a), g) && w.read(b) && !WaitsAt(w.view(b), g);
    assert a < b < later;
  }

  lemma {:induction false} WasWaitingStays(w: World, kind: InteractionKind, g: Gate, now: nat, later: nat)
    requires WasWaiting(w, kind, g, now) && now <= later
    ensures WasWaiting(w, kind, g, later)
  {
    var t: nat, p :| t <= now && p in w.view(t) && GateOf(p) == g && p.kind == kind;
    assert t <= later && p in w.view(t) && GateOf(p) == g && p.kind == kind;
  }

  /** The gate the verdict went to: the current one, or the freshest of its kind. */
  ghost predicate Target(w: World, kind: InteractionKind, current: Gate, now: nat, target: Gate) {
    w.read(now) && (target == current || forall q :: q in w.view(now) && q.kind == kind ==> q.index <= target.index)
  }

  /** No gate of the kind waits above the freshest one. */
  lemma {:induction false} NotAbove(w: World, kind: InteractionKind, p: Pending, t: nat, now: nat, target: Gate)
    requires KindsFixed(w) && p in w.view(t) && p.kind == kind && p.index > target.index
    requires forall q :: q in w.view(now) && q.kind == kind ==> q.index <= target.index
    ensures !WaitsAt(w.view(now), GateOf(p))
  {
    forall q | q in w.view(now) ensures GateOf(q) != GateOf(p) {
    }
  }

  /** A surfaced gate above the delivered-to index is gone by the read that chose it. */
  lemma {:induction false} HigherIsGone(w: World, kind: InteractionKind, g: Gate, current: Gate, now: nat, target: Gate)
    requires NeverWaitsAgain(w) && KindsFixed(w) && Settled(w, kind, g, current, now)
    requires Target(w, kind, current, now + 1, target) && g.index > target.index
    ensures Gone(w, g, now + 1)
  {
    if g.index > current.index {
      GoneStays(w, g, now, now + 1);
    } else {
      var t: nat, p :| t <= now && p in w.view(t) && GateOf(p) == g && p.kind == kind;
      NotAbove(w, kind, p, t, now + 1, target);
      assert t < now + 1 && WaitsAt(w.view(t), g) && w.read(now + 1) && !WaitsAt(w.view(now + 1), g);
    }
  }

  lemma {:induction false} AboveTarget(w: World, kind: InteractionKind, g: Gate, current: Gate, now: nat, target: Gate)
    requires NeverWaitsAgain(w) && KindsFixed(w) && Settled(w, kind, g, current, now)
             && Target(w, kind, current, now + 1, target)
    ensures g.index > target.index ==> Gone(w, g, now + 2) && !WaitsAt(w.view(now + 2), g)
  {
    if g.index > target.index {
      HigherIsGone(w, kind, g, current, now, target);
      GoneStays(w, g, now + 1, now + 2);
    }
  }

  lemma {:induction false} RetryIsNew(w: World, kind: InteractionKind, g: Gate, now: nat, target: Gate, retry: Gate)
    requires WasWaiting(w, kind, g, now) && Supersedes(w.view(now + 2), kind, target, retry)
    requires g.index > target.index ==> Gone(w, g, now + 2) && !WaitsAt(w.view(now + 2), g)
    ensures g != retry && Settled(w, kind, g, retry, now + 2)
  {
    WasWaitingStays(w, kind, g, now, now + 2);
    RetryWaits(w.view(now + 2), kind, target, retry);
  }

  lemma {:induction false} Carried(w: World, kind: InteractionKind, g: Gate, current: Gate, now: nat, target: Gate,
                                   retry: Gate)
    requires NeverWaitsAgain(w) && KindsFixed(w) && Settled(w, kind, g, current, now)
    requires Target(w, kind, current, now + 1, target) && Supersedes(w.view(now + 2), kind, target, retry)
    ensures g != retry && Settled(w, kind, g, retry, now + 2)
  {
    AboveTarget(w, kind, g, current, now, target);
    RetryIsNew(w, kind, g, now, target, retry);
  }

  lemma {:induction false} RetryWaits(seen: set<Pending>, kind: InteractionKind, target: Gate, retry: Gate)
    requires Supersedes(seen, kind, target, retry)
    ensures WaitsAt(seen, retry) && retry.index > target.index
  {
  }

  lemma {:induction false} DeliveredTo(w: World, kind: InteractionKind, now: nat, gate: Gate, target: Gate)
    requires w.read(now) && WellTargeted(w.view(now), kind, gate, target)
    ensures Target(w, kind, gate, now, target)
  {
  }

  /** What the timed-out round before surfacing `k` leaves behind. */
  ghost predicate Round(w: World, kind: InteractionKind, trace: seq<BridgeEvent>, k: nat)
    requires 0 < k && 2 * k < |trace|
  {
    && trace[2 * k - 2].Surfaced? && trace[2 * k - 1].Delivered? && trace[2 * k].Surfaced?
    && Target(w, kind, trace[2 * k - 2].gate, 2 * k - 1, trace[2 * k - 1].target)
    && Supersedes(w.view(2 * k), kind, trace[2 * k - 1].target, trace[2 * k].gate)
  }

  lemma {:induction false} TraceRound(w: World, kind: InteractionKind, trace: seq<BridgeEvent>, k: nat)
    requires TraceOk(w, kind, trace) && 0 < k && 2 * k < |trace|
    ensures Round(w, kind, trace, k)
  {
    assert EventOk(w, kind, trace, 2 * k - 1) && EventOk(w, kind, trace, 2 * k);
    DeliveredTo(w, kind, 2 * k - 1, trace[2 * k - 1].gate, trace[2 * k - 1].target);
  }

  /** Every gate surfaced so far differs from the latest, and those above it are gone. */
  lemma {:induction false} SurfacedSoFar(w: World, detected: Pending, trace: seq<BridgeEvent>, k: nat, j: nat)
    requires Orderly(w, detected) && 2 * k < |trace| && j <= k
    requires forall i: nat :: 0 < i <= k ==> Round(w, detected.kind, trace, i)
    requires trace[0] == Surfaced(GateOf(detected))
    ensures trace[2 * j].Surfaced? && trace[2 * k].Surfaced?
    ensures Settled(w, detected.kind, trace[2 * j].gate, trace[2 * k].gate, 2 * k)
    ensures j < k ==> trace[2 * j].gate != trace[2 * k].gate
  {
    var kind := detected.kind;
    if k == 0 {
      assert WasWaiting(w, kind, GateOf(detected), 0);
    } else {
      assert Round(w, kind, trace, k);
      if j == k {
        Latest(w, kind, trace[2 * k - 1].target, trace[2 * k].gate, 2 * k);
      } else {
        SurfacedSoFar(w, detected, trace, k - 1, j);
        Carried(w, kind, trace[2 * j].gate, trace[2 * k - 2].gate, 2 * k - 2, trace[2 * k - 1].target,
                trace[2 * k].gate);
      }
    }
  }

  lemma {:induction false} Latest(w: World, kind: InteractionKind, target: Gate, gate: Gate, now: nat)
    requires Supersedes(w.view(now), kind, target, gate)
    ensures Settled(w, kind, gate, gate, now)
  {
    var p :| p in w.view(now) && p.kind == kind && GateOf(p) == gate;
    assert now <= now && p in w.view(now) && GateOf(p) == gate && p.kind == kind;
  }

  /** In an orderly world no gate is put to the human twice. */
  lemma {:induction false} NoGateSurfacesTwice(w: World, detected: Pending, trace: seq<BridgeEvent>, i: nat, j: nat)
    requires Orderly(w, detected) && TraceOk(w, detected.kind, trace) && i < j < |trace|
    requires trace[0] == Surfaced(GateOf(detected))
    ensures trace[i].Surfaced? && trace[j].Surfaced? ==> trace[i].gate != trace[j].gate
  {
    assert EventOk(w, detected.kind, trace, i) && EventOk(w, detected.kind, trace, j);
    if i % 2 == 0 && j % 2 == 0 {
      forall k: nat | 0 < k <= j / 2 ensures Round(w, detected.kind, trace, k) {
        TraceRound(w, detected.kind, trace, k);
      }
      SurfacedSoFar(w, detected, trace, j / 2, i / 2);
    }
  }

  // -------------------------------------------------------------- the bridge

  /** Pin the verdict to the gate it was asked for, or fall back to agy's retry of it. */
  method ChooseTarget(steps: Snapshot, current: Pending) returns (target: Option<Pending>)
    ensures target.Some? ==> WellTargeted(Pendings(steps), current.kind, GateOf(current), GateOf(target.value))
    ensures target.None? <==> !WaitsAt(Pendings(steps), GateOf(current)) && NoneOfKind(Pendings(steps), current.kind)
  {
    target := WaitingStepAt(steps, GateOf(current));
    if target.None? {
      target := FreshestWaiting(steps, current.kind, None);
    }
  }

  /** The retry agy opened above a step that timed out. */
  method RetryAbove(steps: Snapshot, kind: InteractionKind, timedOut: Pending) returns (retry: Option<Pending>)
    ensures retry.Some? ==>
              && retry.value.kind == kind
              && Supersedes(Pendings(steps), kind, GateOf(timedOut), GateOf(retry.value))
    ensures retry.None? ==> NothingAbove(Pendings(steps), kind, GateOf(timedOut))
  {
    retry := FreshestWaiting(steps, kind, Some(timedOut.index));
  }

  /** Deliver a verdict for `current`; if the step timed out, re-read and look for agy's retry. */
  method DeliverVerdict(before: Snapshot, after: Option<Snapshot>, current: Pending, answer: Verdict, outcome: Delivery)
    returns (event: Option<BridgeEvent>, retry: Option<Pending>)
    ensures event.None? <==> !WaitsAt(Pendings(before), GateOf(current)) && NoneOfKind(Pendings(before), current.kind)
    ensures event.Some? ==>
              && event.value.Delivered? && event.value.gate == GateOf(current)
              && event.value.verdict == answer && event.value.outcome == outcome
              && WellTargeted(Pendings(before), current.kind, GateOf(current), event.value.target)
    ensures retry.Some? ==>
              && event.Some? && outcome == NotRegistered && after.Some? && retry.value.kind == current.kind
              && Supersedes(Pendings(after.value), current.kind, event.value.target, GateOf(retry.value))
    ensures retry.None? && event.Some? ==>
              outcome != NotRegistered || after.None?
              || NothingAbove(Pendings(after.value), current.kind, event.value.target)
  {
    event, retry := None, None;
    var target := ChooseTarget(before, current);
    if target.Some? {
      event := Some(Delivered(GateOf(current), GateOf(target.value), answer, outcome));
      if outcome == NotRegistered && after.Some? {
        retry := RetryAbove(after.value, current.kind, target.value);
      }
    }
  }

  /**
   One bridge run. Verdicts go to the gate they were asked for while it waits,
   nothing is delivered without a verdict, at most `maxRetries` deliveries are
   made, only a timed-out one is followed by another, and the run ends only for
   one of the reasons in `Finished`, a read that raises among them.
   */
  method BridgeInteraction(snapshot: nat -> Option<Snapshot>, verdict: nat -> Option<Verdict>, deliver: nat -> Delivery,
                           pending: Pending, maxRetries: int) returns (trace: seq<BridgeEvent>)
    ensures TraceOk(Observe(snapshot, verdict, deliver), pending.kind, trace)
    ensures Finished(Observe(snapshot, verdict, deliver), pending.kind, trace, maxRetries)
    ensures trace == [] || (trace[0] == Surfaced(GateOf(pending)) && |trace| <= 2 * maxRetries)
  {
    ghost var w := Observe(snapshot, verdict, deliver);
    trace := [];
    var current := pending;
    var k := 0;
    while k < maxRetries
      invariant 0 <= k && (k == 0 || k <= maxRetries) && |trace| == 2 * k && TraceOk(w, pending.kind, trace)
      invariant current.kind == pending.kind && (k == 0 ==> current == pending)
      invariant k > 0 ==> trace[0] == Surfaced(GateOf(pending)) && TimedOut(w, pending.kind, trace, GateOf(current))
    {
      var gate := GateOf(current);
      TraceSurface(w, pending.kind, trace, gate);
      trace := trace + [Surfaced(gate)];
      var answer := verdict(k);
      var event, retry := None, None;
      var before := snapshot(2 * k + 1);
      if answer.Some? && before.Some? {
        event, retry := DeliverVerdict(before.value, snapshot(2 * k + 2), current, answer.value, deliver(k));
      }
      if event.Some? {
        TraceDeliver(w, pending.kind, trace, k, event.value);
        trace := trace + [event.value];
      }
      if retry.None? {
        return;
      }
      current := retry.value;
      k := k + 1;
    }
  }

  /** At most one delivery succeeds, and it is the last thing the bridge does. */
  lemma {:induction false} SuccessIsLast(w: World, kind: InteractionKind, trace: seq<BridgeEvent>, i: nat)
    requires TraceOk(w, kind, trace) && i < |trace|
    ensures trace[i].Delivered? && trace[i].outcome == Accepted ==> i == |trace| - 1
  {
    assert i < |trace| - 1 ==> MayGoOn(trace[i]);
  }

  /** What a run must do when its gate vanishes for one read while a lower one waits, and then returns. */
  lemma {:induction false} ReturningGate(w: World, high: Pending, low: Pending, maxRetries: int,
                                         trace: seq<BridgeEvent>)
    requires TraceOk(w, high.kind, trace) && Finished(w, high.kind, trace, maxRetries) && maxRetries >= 2
    requires trace == [] || trace[0] == Surfaced(GateOf(high))
    requires high.kind == low.kind && high.index > low.index && w.view(1) == {low} && w.view(2) == {high}
    requires w.read(1) && w.read(2) && w.verdict(0).Some? && w.deliver(0) == NotRegistered
    ensures |trace| >= 3 && trace[2] == trace[0]
  {
    assert low in w.view(1) && high in w.view(2);
    if |trace| >= 2 {
      assert EventOk(w, high.kind, trace, 1);
      assert trace[1].target == GateOf(low);
    }
    if |trace| >= 3 {
      assert EventOk(w, high.kind, trace, 2);
    }
  }

  /**
   `NeverWaitsAgain` is needed: when a gate vanishes for one read, the verdict falls
   back to a lower gate, and the retry above that one is the first gate again.
   */
  method ReturningGateSurfacesTwice(snapshot: nat -> Option<Snapshot>, verdict: nat -> Option<Verdict>,
                                    deliver: nat -> Delivery, high: Pending, low: Pending, maxRetries: int)
    returns (trace: seq<BridgeEvent>)
    requires maxRetries >= 2 && high.kind == low.kind && high.index > low.index
    requires snapshot(1).Some? && Pendings(snapshot(1).value) == {low}
    requires snapshot(2).Some? && Pendings(snapshot(2).value) == {high}
    requires verdict(0).Some? && deliver(0) == NotRegistered
    ensures |trace| >= 3 && trace[0] == Surfaced(GateOf(high)) && trace[2] == trace[0]
  {
    trace := BridgeInteraction(snapshot, verdict, deliver, high, maxRetries);
    ReturningGate(Observe(snapshot, verdict, deliver), high, low, maxRetries, trace);
  }

  // -------------------------------------------------------------- kinds

  /** Every surfaced gate was seen waiting with the run's kind. */
  lemma {:induction false} SurfacedKind(w: World, detected: Pending, trace: seq<BridgeEvent>, k: nat)
    requires detected in w.view(0) && TraceOk(w, detected.kind, trace) && 2 * k < |trace|
    requires trace[0] == Surfaced(GateOf(detected))
    ensures trace[2 * k].Surfaced? && WasWaiting(w, detected.kind, trace[2 * k].gate, 2 * k)
  {
    if k == 0 {
      assert WasWaiting(w, detected.kind, GateOf(detected), 0);
    } else {
      TraceRound(w, detected.kind, trace, k);
      Latest(w, detected.kind, trace[2 * k - 1].target, trace[2 * k].gate, 2 * k);
    }
  }

  /** With fixed kinds, whatever waits where a verdict is delivered is of the kind the verdict was asked for. */
  lemma {:induction false} DeliveredKind(w: World, detected: Pending, trace: seq<BridgeEvent>, k: nat, p: Pending)
    requires KindsFixed(w) && detected in w.view(0) && TraceOk(w, detected.kind, trace) && 2 * k + 1 < |trace|
    requires trace[0] == Surfaced(GateOf(detected))
    ensures trace[2 * k + 1].Delivered?
    ensures p in w.view(2 * k + 1) && GateOf(p) == trace[2 * k + 1].target ==> p.kind == detected.kind
  {
    var kind := detected.kind;
    DeliveryOf(w, kind, trace, k);
    SurfacedKind(w, detected, trace, k);
    TargetKind(w, kind, trace[2 * k + 1].gate, trace[2 * k + 1].target, 2 * k, p);
  }

  lemma {:induction false} DeliveryOf(w: World, kind: InteractionKind, trace: seq<BridgeEvent>, k: nat)
    requires TraceOk(w, kind, trace) && 2 * k + 1 < |trace|
    ensures trace[2 * k + 1].Delivered? && trace[2 * k] == Surfaced(trace[2 * k + 1].gate)
    ensures WellTargeted(w.view(2 * k + 1), kind, trace[2 * k + 1].gate, trace[2 * k + 1].target)
  {
    assert EventOk(w, kind, trace, 2 * k + 1);
  }

  lemma {:induction false} TargetKind(w: World, kind: InteractionKind, gate: Gate, target: Gate, now: nat, p: Pending)
    requires KindsFixed(w) && WasWaiting(w, kind, gate, now) && WellTargeted(w.view(now + 1), kind, gate, target)
    ensures p in w.view(now + 1) && GateOf(p) == target ==> p.kind == kind
  {
    if WaitsAt(w.view(now + 1), gate) {
      var t: nat, q :| t <= now && q in w.view(t) && GateOf(q) == gate && q.kind == kind;
    } else {
      var q :| q in w.view(now + 1) && q.kind == kind && GateOf(q) == target;
    }
  }

  /** The pinned lookup ignores the kind: a gate that changes kind gets a verdict built for the other. */
  method ChangedKindMisdelivers(snapshot: nat -> Option<Snapshot>, verdict: nat -> Option<Verdict>,
                                deliver: nat -> Delivery, asked: Pending, waiting: Pending, maxRetries: int)
    returns (trace: seq<BridgeEvent>)
    requires maxRetries >= 1 && GateOf(asked) == GateOf(waiting) && asked.kind != waiting.kind
    requires snapshot(1).Some? && Pendings(snapshot(1).value) == {waiting} && verdict(0).Some?
    ensures |trace| >= 2 && trace[0] == Surfaced(GateOf(asked))
    ensures trace[1] == Delivered(GateOf(asked), GateOf(waiting), verdict(0).value, deliver(0))
  {
    trace := BridgeInteraction(snapshot, verdict, deliver, asked, maxRetries);
    ghost var w := Observe(snapshot, verdict, deliver);
    assert waiting in w.view(1) && WaitsAt(w.view(1), GateOf(asked));
    if |trace| >= 2 {
      assert EventOk(w, asked.kind, trace, 1);
    }
  }
}

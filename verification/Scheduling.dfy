/**
 Scheduling of the off-loop interaction bridge
 (omnigent/antigravity_native_reader.py): hand-over, the single-in-flight guard,
 late done-callbacks, re-scans and withdrawal. Each transition is one stretch of
 event-loop code without a suspension point, so a run is any sequence of actions.
 */
module Scheduling {
  import opened Common
  import opened Steps
  import opened Mapper

  type Task = nat

  datatype Sched = Sched(
    interacted: set<Key>,
    surfaced: map<Key, ElicitationId>,
    slot: Option<Task>,
    unfinished: set<Task>,   // bridge tasks still running
    callbacks: set<Task>,    // finished tasks whose done-callback has not run yet
    next: Task,
    handed: seq<Key>,        // keys handed to the bridge, in order
    withdrawn: seq<Key>,     // keys whose card was withdrawn, in order
    resolved: seq<ElicitationId>) // the elicitation ids those withdrawals named

  const IDLE := Sched({}, map[], None, {}, {}, 0, [], [], [])

  predicate Busy(sc: Sched) {
    sc.slot.Some? && sc.slot.value in sc.unfinished
  }

  function ElicitationOf(cascade: string, p: Pending): (id: ElicitationId) {
    ElicitationId(cascade, p.trajectory, p.index)
  }

  /** `_maybe_handle_interaction`. */
  function Handle(cascade: string, sc: Sched, s: Step): (sc': Sched) {
    var p := PendingOf(s);
    if p.None? || KeyOf(s) in sc.interacted || Busy(sc) then sc
    else sc.(
      interacted := sc.interacted + {KeyOf(s)},
      surfaced := sc.surfaced[KeyOf(s) := ElicitationOf(cascade, p.value)],
      slot := Some(sc.next),
      unfinished := sc.unfinished + {sc.next},
      next := sc.next + 1,
      handed := sc.handed + [KeyOf(s)])
  }

  predicate Withdraws(sc: Sched, s: Step) {
    KeyOf(s) in sc.surfaced && PendingOf(s).None?
  }

  /** `_maybe_withdraw_interaction`. */
  function Withdraw(sc: Sched, s: Step): (sc': Sched) {
    if !Withdraws(sc, s) then sc
    else sc.(
      surfaced := sc.surfaced - {KeyOf(s)},
      withdrawn := sc.withdrawn + [KeyOf(s)],
      resolved := sc.resolved + [sc.surfaced[KeyOf(s)]])
  }

  /** A bridge task completes; its done-callback is queued. */
  function Finish(sc: Sched, t: Task): (sc': Sched) {
    if t !in sc.unfinished then sc
    else sc.(unfinished := sc.unfinished - {t}, callbacks := sc.callbacks + {t})
  }

  /** `_clear_slot`: frees the slot only if it still holds the completed task. */
  function ClearSlot(sc: Sched, t: Task): (sc': Sched) {
    if t !in sc.callbacks then sc
    else sc.(slot := if sc.slot == Some(t) then None else sc.slot, callbacks := sc.callbacks - {t})
  }

  /** `_resurface_pending_interaction` over one snapshot. */
  function Rescan(cascade: string, sc: Sched, steps: seq<Step>): (sc': Sched)
    decreases steps
  {
    if steps == [] then sc else Rescan(cascade, Handle(cascade, sc, steps[0]), steps[1..])
  }

  datatype Action =
    | Observe(step: Step)      // the read loop sees a step
    | RescanStep(step: Step)   // a re-scan re-dispatches a step
    | BridgeDone(task: Task)
    | Callback(task: Task)

  function Act(cascade: string, sc: Sched, a: Action): (sc': Sched) {
    match a
    case Observe(s) => Withdraw(Handle(cascade, sc, s), s)
    case RescanStep(s) => Handle(cascade, sc, s)
    case BridgeDone(t) => Finish(sc, t)
    case Callback(t) => ClearSlot(sc, t)
  }

  function Run(cascade: string, actions: seq<Action>): (sc: Sched) {
    if actions == [] then IDLE
    else Act(cascade, Run(cascade, actions[..|actions| - 1]), actions[|actions| - 1])
  }

  // -------------------------------------------------------------- invariant

  ghost predicate Valid(sc: Sched) {
    && (forall t :: t in sc.unfinished ==> sc.slot == Some(t))
    && (forall t :: t in sc.unfinished || t in sc.callbacks ==> t < sc.next)
    && sc.unfinished !! sc.callbacks
    && NoDuplicates(sc.handed) && (forall k :: k in sc.interacted <==> k in sc.handed)
    && NoDuplicates(sc.withdrawn)
    && (forall k :: k in sc.interacted <==> k in sc.surfaced || k in sc.withdrawn)
    && (forall k :: k in sc.surfaced ==> k !in sc.withdrawn)
    && |sc.handed| == sc.next
  }

  lemma {:induction false} HandleValid(cascade: string, sc: Sched, s: Step)
    requires Valid(sc)
    ensures Valid(Handle(cascade, sc, s))
  {
  }

  lemma {:induction false} ActValid(cascade: string, sc: Sched, a: Action)
    requires Valid(sc)
    ensures Valid(Act(cascade, sc, a))
  {
    if a.Observe? {
      HandleValid(cascade, sc, a.step);
    } else if a.RescanStep? {
      HandleValid(cascade, sc, a.step);
    }
  }

  lemma {:induction false} RunValid(cascade: string, actions: seq<Action>)
    ensures Valid(Run(cascade, actions))
  {
    if actions != [] {
      RunValid(cascade, actions[..|actions| - 1]);
      ActValid(cascade, Run(cascade, actions[..|actions| - 1]), actions[|actions| - 1]);
    }
  }

  /** In every interleaving: one bridge at a time, each key handed over once and withdrawn at most once, after that. */
  lemma SingleInFlight(cascade: string, actions: seq<Action>)
    ensures var sc := Run(cascade, actions);
            && |sc.unfinished| <= 1
            && NoDuplicates(sc.handed) && NoDuplicates(sc.withdrawn)
            && forall k :: k in sc.withdrawn ==> k in sc.handed
  {
    RunValid(cascade, actions);
    var sc := Run(cascade, actions);
    if sc.slot.Some? {
      assert sc.unfinished <= {sc.slot.value};
      if sc.slot.value in sc.unfinished {
        assert sc.unfinished == {sc.slot.value};
      } else {
        assert sc.unfinished == {};
      }
    } else {
      assert sc.unfinished == {};
    }
  }

  // -------------------------------------------------------------- withdrawal

  predicate IsGoneSighting(a: Action, k: Key) {
    a.Observe? && KeyOf(a.step) == k && PendingOf(a.step).None?
  }

  /** Some sighting of `k` no longer waiting came after `k` was handed over. */
  ghost predicate LeftWaiting(cascade: string, actions: seq<Action>, k: Key) {
    exists i :: 0 <= i < |actions| && IsGoneSighting(actions[i], k) && k in Run(cascade, actions[..i]).handed
  }

  /** A card is withdrawn exactly when its step was seen to have left WAITING after its hand-over. */
  lemma {:induction false} WithdrawnIffLeftWaiting(cascade: string, actions: seq<Action>, k: Key)
    ensures k in Run(cascade, actions).withdrawn <==> LeftWaiting(cascade, actions, k)
  {
    if actions != [] {
      var n := |actions| - 1;
      var before, a := actions[..n], actions[n];
      WithdrawnIffLeftWaiting(cascade, before, k);
      RunValid(cascade, before);
      LeftWaitingSnoc(cascade, actions, k);
      WithdrawStep(cascade, Run(cascade, before), a, k);
    }
  }

  lemma {:induction false} WithdrawStep(cascade: string, sc: Sched, a: Action, k: Key)
    requires Valid(sc)
    ensures k in Act(cascade, sc, a).withdrawn <==>
            k in sc.withdrawn || (IsGoneSighting(a, k) && k in sc.handed)
  {
  }

  lemma {:induction false} LeftWaitingSnoc(cascade: string, actions: seq<Action>, k: Key)
    requires actions != []
    ensures var n := |actions| - 1;
            LeftWaiting(cascade, actions, k) <==>
            LeftWaiting(cascade, actions[..n], k)
                || (IsGoneSighting(actions[n], k) && k in Run(cascade, actions[..n]).handed)
  {
    var n := |actions| - 1;
    var before := actions[..n];
    forall i | 0 <= i < n ensures before[..i] == actions[..i] && before[i] == actions[i] {}
    if LeftWaiting(cascade, before, k) {
      var i :| 0 <= i < n && IsGoneSighting(before[i], k) && k in Run(cascade, before[..i]).handed;
      assert IsGoneSighting(actions[i], k) && k in Run(cascade, actions[..i]).handed;
    }
    if LeftWaiting(cascade, actions, k) {
      var i :| 0 <= i < |actions| && IsGoneSighting(actions[i], k) && k in Run(cascade, actions[..i]).handed;
      assert i < n ==> IsGoneSighting(before[i], k) && k in Run(cascade, before[..i]).handed;
    }
  }

  // ------------------------------------------------------------------- cards

  /** The card of a key: its elicitation id has no discriminator, and a missing index counts as zero. */
  function CardOf(cascade: string, k: Key): (id: ElicitationId)
    requires k.trajectory.Some?
  {
    ElicitationId(cascade, k.trajectory.value, if k.index.Some? then k.index.value else 0)
  }

  /** Every surfaced and every resolved elicitation is the card of its key. */
  ghost predicate CardsOk(cascade: string, sc: Sched) {
    && (forall k :: k in sc.surfaced ==> k.trajectory.Some? && sc.surfaced[k] == CardOf(cascade, k))
    && |sc.resolved| == |sc.withdrawn|
    && (forall i :: 0 <= i < |sc.withdrawn| ==>
          sc.withdrawn[i].trajectory.Some? && sc.resolved[i] == CardOf(cascade, sc.withdrawn[i]))
  }

  lemma {:induction false} ActCards(cascade: string, sc: Sched, a: Action)
    requires CardsOk(cascade, sc)
    ensures CardsOk(cascade, Act(cascade, sc, a))
  {
    if a.Observe? {
      WithdrawCards(cascade, Handle(cascade, sc, a.step), a.step);
    }
  }

  lemma {:induction false} WithdrawCards(cascade: string, sc: Sched, s: Step)
    requires CardsOk(cascade, sc)
    ensures CardsOk(cascade, Withdraw(sc, s))
  {
  }

  /** In every interleaving, the withdrawals posted are the cards of the withdrawn keys, in order. */
  lemma {:induction false} ResolvedAreCards(cascade: string, actions: seq<Action>)
    ensures CardsOk(cascade, Run(cascade, actions))
  {
    if actions != [] {
      ResolvedAreCards(cascade, actions[..|actions| - 1]);
      ActCards(cascade, Run(cascade, actions[..|actions| - 1]), actions[|actions| - 1]);
    }
  }

  /** Two keys that name one card. */
  predicate ShareCard(j: Key, k: Key) {
    && j.trajectory == k.trajectory
    && (if j.index.Some? then j.index.value else 0) == (if k.index.Some? then k.index.value else 0)
  }

  /** No card is withdrawn twice if and only if no two withdrawn keys share trajectory and index-or-zero. */
  lemma {:induction false} CardsWithdrawnOnceIff(cascade: string, actions: seq<Action>)
    ensures var sc := Run(cascade, actions);
            NoDuplicates(sc.resolved) <==>
            forall i, j :: 0 <= i < j < |sc.withdrawn| ==> !ShareCard(sc.withdrawn[i], sc.withdrawn[j])
  {
    ResolvedAreCards(cascade, actions);
    var sc := Run(cascade, actions);
    forall i, j | 0 <= i < j < |sc.withdrawn|
      ensures sc.resolved[i] == sc.resolved[j] <==> ShareCard(sc.withdrawn[i], sc.withdrawn[j])
    {
    }
  }

  lemma {:induction false} RunExtends(cascade: string, actions: seq<Action>, a: Action)
    ensures Run(cascade, actions + [a]) == Act(cascade, Run(cascade, actions), a)
  {
    assert (actions + [a])[..|actions|] == actions;
  }

  /** Gates whose keys differ but whose cards do not: one is asked, then the other, then both are seen settled. */
  function SharedCardRun(first: Step, second: Step): (actions: seq<Action>) {
    [] + [Observe(first)] + [BridgeDone(0)] + [Observe(second)]
    + [Observe(first.(status := Done))] + [Observe(second.(status := Done))]
  }

  /** Two gates with one card, such as index-less ones told apart by discriminator only, withdraw it twice. */
  lemma {:induction false} SharedCardWithdrawnTwice(cascade: string, first: Step, second: Step)
    requires PendingOf(first).Some? && PendingOf(second).Some?
    requires KeyOf(first) != KeyOf(second) && ShareCard(KeyOf(first), KeyOf(second))
    ensures var id := CardOf(cascade, KeyOf(first));
            Run(cascade, SharedCardRun(first, second)).resolved == [id, id]
  {
    var actions := [] + [Observe(first)];
    RunExtends(cascade, [], Observe(first));
    RunExtends(cascade, actions, BridgeDone(0));
    actions := actions + [BridgeDone(0)];
    RunExtends(cascade, actions, Observe(second));
    actions := actions + [Observe(second)];
    RunExtends(cascade, actions, Observe(first.(status := Done)));
    actions := actions + [Observe(first.(status := Done))];
    RunExtends(cascade, actions, Observe(second.(status := Done)));
  }

  // ----------------------------------------------- which gates may be watched

  /** A key some WAITING step can have: a trajectory, and a discriminator only in place of an index. */
  predicate IsGateKey(k: Key) {
    k.trajectory.Some? && (k.index.Some? ==> k.discriminator.None?)
  }

  /** The steps seen and re-scanned are of these keys. */
  ghost predicate Within(keys: iset<Key>, actions: seq<Action>) {
    forall i :: 0 <= i < |actions| && (actions[i].Observe? || actions[i].RescanStep?) ==> KeyOf(actions[i].step) in keys
  }

  lemma {:induction false} HandedWithin(cascade: string, keys: iset<Key>, actions: seq<Action>)
    requires Within(keys, actions)
    ensures forall k :: k in Run(cascade, actions).handed ==> k in keys && IsGateKey(k)
  {
    if actions != [] {
      var n := |actions| - 1;
      var before := actions[..n];
      assert Within(keys, before) by {
        assert forall i :: 0 <= i < n ==> before[i] == actions[i];
      }
      HandedWithin(cascade, keys, before);
      if actions[n].Observe? || actions[n].RescanStep? {
        assert KeyOf(actions[n].step) in keys;
      }
    }
  }

  /** A WAITING step of a given key. */
  function GateStep(k: Key): (s: Step)
    requires IsGateKey(k)
    ensures PendingOf(s).Some? && KeyOf(s) == k
  {
    Step(RunCommand, Waiting, k.trajectory, k.index, k.discriminator, "", None, None, None, None, None, None,
         PermissionRequest(""))
  }

  /** No run over these keys withdraws a card twice. */
  ghost predicate CardsUnique(cascade: string, keys: iset<Key>) {
    forall actions :: Within(keys, actions) ==> NoDuplicates(Run(cascade, actions).resolved)
  }

  /** No run withdraws a card twice if and only if no two different gates among the keys share one. */
  lemma {:induction false} CardsUniqueIff(cascade: string, keys: iset<Key>)
    ensures CardsUnique(cascade, keys) <==>
            forall j, k :: j in keys && k in keys && IsGateKey(j) && IsGateKey(k) && ShareCard(j, k) ==> j == k
  {
    if forall j, k :: j in keys && k in keys && IsGateKey(j) && IsGateKey(k) && ShareCard(j, k) ==> j == k {
      forall actions | Within(keys, actions) ensures NoDuplicates(Run(cascade, actions).resolved) {
        HandedWithin(cascade, keys, actions);
        SingleInFlight(cascade, actions);
        CardsWithdrawnOnceIff(cascade, actions);
        var sc := Run(cascade, actions);
        forall i, j | 0 <= i < j < |sc.withdrawn| ensures !ShareCard(sc.withdrawn[i], sc.withdrawn[j]) {
          assert sc.withdrawn[i] in sc.handed && sc.withdrawn[j] in sc.handed;
        }
      }
    } else {
      var j, k :| j in keys && k in keys && IsGateKey(j) && IsGateKey(k) && ShareCard(j, k) && j != k;
      SharedCardWithdrawnTwice(cascade, GateStep(j), GateStep(k));
      SharedCardWithin(keys, GateStep(j), GateStep(k));
      var resolved := Run(cascade, SharedCardRun(GateStep(j), GateStep(k))).resolved;
      assert resolved[0] == resolved[1] && !NoDuplicates(resolved);
    }
  }

  lemma {:induction false} SharedCardWithin(keys: iset<Key>, first: Step, second: Step)
    requires KeyOf(first) in keys && KeyOf(second) in keys
    ensures Within(keys, SharedCardRun(first, second))
  {
    assert KeyOf(first.(status := Done)) == KeyOf(first) && KeyOf(second.(status := Done)) == KeyOf(second);
  }

  // ------------------------------------------------------------------- drain

  /** WAITING keys of a snapshot not yet handed over. */
  function Deferred(sc: Sched, steps: seq<Step>): (keys: set<Key>) {
    set s | s in steps && PendingOf(s).Some? && KeyOf(s) !in sc.interacted :: KeyOf(s)
  }

  lemma {:induction false} BusyRescan(cascade: string, sc: Sched, steps: seq<Step>)
    requires Busy(sc)
    ensures Rescan(cascade, sc, steps) == sc
  {
    if steps != [] {
      BusyRescan(cascade, sc, steps[1..]);
    }
  }

  /** `sc'` has one more key handed over, namely `k`. */
  ghost predicate HandedOver(sc: Sched, sc': Sched, k: Key) {
    sc'.interacted == sc.interacted + {k} && sc'.handed == sc.handed + [k]
  }

  /** An idle re-scan hands over exactly one deferred gate, if there is one. */
  lemma {:induction false} IdleRescan(cascade: string, sc: Sched, steps: seq<Step>)
    requires Valid(sc) && !Busy(sc)
    ensures var sc' := Rescan(cascade, sc, steps);
            && Valid(sc')
            && (if Deferred(sc, steps) == {} then sc' == sc
                else exists k :: k in Deferred(sc, steps) && HandedOver(sc, sc', k))
  {
    if steps != [] {
      var s := steps[0];
      HandleValid(cascade, sc, s);
      if PendingOf(s).Some? && KeyOf(s) !in sc.interacted {
        var sc' := Handle(cascade, sc, s);
        BusyRescan(cascade, sc', steps[1..]);
        assert KeyOf(s) in Deferred(sc, steps) by { assert s in steps; }
        assert HandedOver(sc, sc', KeyOf(s));
      } else {
        IdleRescan(cascade, sc, steps[1..]);
        DeferredTail(sc, steps);
      }
    }
  }

  lemma {:induction false} DeferredTail(sc: Sched, steps: seq<Step>)
    requires steps != [] && !(PendingOf(steps[0]).Some? && KeyOf(steps[0]) !in sc.interacted)
    ensures Deferred(sc, steps) == Deferred(sc, steps[1..])
  {
    forall k | k in Deferred(sc, steps) ensures k in Deferred(sc, steps[1..]) {
      var s :| s in steps && PendingOf(s).Some? && KeyOf(s) !in sc.interacted && KeyOf(s) == k;
      assert s in steps[1..];
    }
  }

  /** The running bridge completes, its callback runs, and the re-scan it schedules succeeds. */
  function Round(cascade: string, sc: Sched, steps: seq<Step>): (sc': Sched) {
    if sc.slot.None? then Rescan(cascade, sc, steps)
    else Rescan(cascade, ClearSlot(Finish(sc, sc.slot.value), sc.slot.value), steps)
  }

  function Rounds(cascade: string, sc: Sched, steps: seq<Step>, n: nat): (sc': Sched)
    decreases n
  {
    if n == 0 then sc else Rounds(cascade, Round(cascade, sc, steps), steps, n - 1)
  }

  lemma {:induction false} RoundDrainsOne(cascade: string, sc: Sched, steps: seq<Step>)
    requires Valid(sc)
    ensures Valid(Round(cascade, sc, steps))
    ensures |Deferred(Round(cascade, sc, steps), steps)| ==
            if Deferred(sc, steps) == {} then 0 else |Deferred(sc, steps)| - 1
  {
    var idle := if sc.slot.None? then sc else ClearSlot(Finish(sc, sc.slot.value), sc.slot.value);
    IdleRescan(cascade, idle, steps);
    assert Deferred(idle, steps) == Deferred(sc, steps);
    if Deferred(sc, steps) != {} {
      var sc' := Round(cascade, sc, steps);
      var k :| k in Deferred(idle, steps) && HandedOver(idle, sc', k);
      HandingOver(idle, sc', steps, k);
    }
  }

  /** Handing a key over takes exactly that key off the deferred ones. */
  lemma {:induction false} HandingOver(sc: Sched, sc': Sched, steps: seq<Step>, k: Key)
    requires k in Deferred(sc, steps) && sc'.interacted == sc.interacted + {k}
    ensures Deferred(sc', steps) == Deferred(sc, steps) - {k} && |Deferred(sc', steps)| == |Deferred(sc, steps)| - 1
  {
    assert Deferred(sc', steps) == Deferred(sc, steps) - {k};
  }

  /** On a fixed snapshot, as many successful re-scans as there are deferred gates hand over all of them. */
  lemma {:induction false} RescansDrain(cascade: string, sc: Sched, steps: seq<Step>, n: nat)
    requires Valid(sc) && n >= |Deferred(sc, steps)|
    ensures Deferred(Rounds(cascade, sc, steps, n), steps) == {}
    decreases n
  {
    if n > 0 {
      RoundDrainsOne(cascade, sc, steps);
      RescansDrain(cascade, Round(cascade, sc, steps), steps, n - 1);
    }
  }
}

/**
 When a tool-call id can receive more outputs than results carry it
 (omnigent/antigravity_native_steps.py): exactly when it is one of the ids the
 run's allocator mints.
 */
module Pairing {
  import opened Common
  import opened Steps
  import opened Mapper
  import opened Mirror

  /** An id the allocator of this conversation can hand out. */
  ghost predicate IsMinted(conversation: string, id: string) {
    exists n: nat :: id == ClaimId(conversation, n) || id == OrphanId(conversation, n)
  }

  lemma {:induction false} OutputsAreMinted(conversation: string, ops: seq<AllocOp>, id: string)
    requires id in RunOps(conversation, ops).outputs
    ensures IsMinted(conversation, id)
  {
    var run := RunOps(conversation, ops);
    FifoPairing(conversation, ops);
    if LooksOrphan(conversation, id) {
      assert id in Part(conversation, true, run.outputs);
      var n :| 0 <= n < run.alloc.orphans && Orphans(conversation, run.alloc.orphans)[n] == id;
    } else {
      assert id in Part(conversation, false, run.outputs);
      var matched := run.alloc.claimed - |run.alloc.pending|;
      var n :| 0 <= n < matched && Claims(conversation, matched)[n] == id;
    }
  }

  // --------------------------------------------- runs that use a minted id

  const BLANK := Step(NoType, Done, None, None, None, "", None, None, None, None, None, None, NoRequest)

  /** A DONE planner that dispatches one call without an id of its own. */
  function CallStep(index: nat): (s: Step)
    ensures IsSettled(s) && OpsOf(s) == [ClaimOp] && KeyOf(s) == Key(None, Some(index), None)
  {
    var call := ToolCall(Some("run"), Some("{}"), None);
    var s := BLANK.(kind := PlannerResponse, index := Some(index),
                    planner := Some(Planner(None, None, None, [call], "")));
    assert ClaimOps([call]) == ClaimOps([]) + [ClaimOp];
    s
  }

  /** A DONE result, stamped with an id or not. */
  function ResultStep(index: nat, id: Option<string>): (s: Step)
    ensures IsSettled(s) && ClosesCall(s) && s.callId == id && KeyOf(s) == Key(None, Some(index), None)
    ensures OpsOf(s) == if id.None? then [MatchOp] else []
  {
    BLANK.(kind := RunCommand, index := Some(index), callId := id)
  }

  /** `n` calls without ids, each followed by its result. */
  function CallsAndResults(n: nat): (steps: seq<Step>)
    ensures |steps| == 2 * n
  {
    if n == 0 then [] else CallsAndResults(n - 1) + [CallStep(2 * n - 2)] + [ResultStep(2 * n - 1, None)]
  }

  /** `n` results without ids whose calls the run never saw. */
  function LoneResults(n: nat): (steps: seq<Step>)
    ensures |steps| == n
  {
    if n == 0 then [] else LoneResults(n - 1) + [ResultStep(n - 1, None)]
  }

  lemma {:induction false} OpsSnoc(conversation: string, steps: seq<Step>, s: Step, op: AllocOp)
    requires OpsOf(s) == [op]
    ensures RunOps(conversation, RunOpsOf(steps + [s])) == RunOp(RunOps(conversation, RunOpsOf(steps)), op)
  {
    assert (steps + [s])[..|steps|] == steps;
    RunOpsSnoc(conversation, RunOpsOf(steps), op);
  }

  /** The allocator after `n` calls with their results, or after `n` lone results. */
  ghost predicate Used(conversation: string, run: AllocRun, claims: nat, orphans: nat) {
    && run.alloc == Alloc(conversation, claims, orphans, [])
    && (orphans == 0 ==> run.outputs == Claims(conversation, claims))
    && (claims == 0 ==> run.outputs == Orphans(conversation, orphans))
  }

  lemma {:induction false} ClaimThenMatch(conversation: string, run: AllocRun, n: nat)
    requires Used(conversation, run, n, 0)
    ensures Used(conversation, RunOp(RunOp(run, ClaimOp), MatchOp), n + 1, 0)
  {
    assert [ClaimId(conversation, n)][1..] == [];
    assert Claims(conversation, n) + [ClaimId(conversation, n)] == Claims(conversation, n + 1);
  }

  lemma {:induction false} LoneMatch(conversation: string, run: AllocRun, n: nat)
    requires Used(conversation, run, 0, n)
    ensures Used(conversation, RunOp(run, MatchOp), 0, n + 1)
  {
    assert Orphans(conversation, n) + [OrphanId(conversation, n)] == Orphans(conversation, n + 1);
  }

  lemma {:induction false} CallsAndResultsRun(conversation: string, n: nat)
    ensures Used(conversation, RunOps(conversation, RunOpsOf(CallsAndResults(n))), n, 0)
  {
    if n == 0 {
      assert Claims(conversation, 0) == [] && Orphans(conversation, 0) == [];
    } else {
      CallsAndResultsRun(conversation, n - 1);
      PairSnoc(conversation, CallsAndResults(n - 1), CallStep(2 * n - 2), ResultStep(2 * n - 1, None), n - 1);
    }
  }

  lemma {:induction false} PairSnoc(conversation: string, steps: seq<Step>, call: Step, result: Step, n: nat)
    requires OpsOf(call) == [ClaimOp] && OpsOf(result) == [MatchOp]
    requires Used(conversation, RunOps(conversation, RunOpsOf(steps)), n, 0)
    ensures Used(conversation, RunOps(conversation, RunOpsOf(steps + [call] + [result])), n + 1, 0)
  {
    OpsSnoc(conversation, steps, call, ClaimOp);
    OpsSnoc(conversation, steps + [call], result, MatchOp);
    ClaimThenMatch(conversation, RunOps(conversation, RunOpsOf(steps)), n);
  }

  lemma {:induction false} LoneSnoc(conversation: string, steps: seq<Step>, result: Step, n: nat)
    requires OpsOf(result) == [MatchOp] && Used(conversation, RunOps(conversation, RunOpsOf(steps)), 0, n)
    ensures Used(conversation, RunOps(conversation, RunOpsOf(steps + [result])), 0, n + 1)
  {
    OpsSnoc(conversation, steps, result, MatchOp);
    LoneMatch(conversation, RunOps(conversation, RunOpsOf(steps)), n);
  }

  lemma {:induction false} LoneResultsRun(conversation: string, n: nat)
    ensures Used(conversation, RunOps(conversation, RunOpsOf(LoneResults(n))), 0, n)
  {
    if n == 0 {
      assert Claims(conversation, 0) == [] && Orphans(conversation, 0) == [];
    } else {
      LoneResultsRun(conversation, n - 1);
      LoneSnoc(conversation, LoneResults(n - 1), ResultStep(n - 1, None), n - 1);
    }
  }

  // ------------------------------------------------- such runs can be observed

  /** Settled steps numbered by their index: none shares a key with another. */
  ghost predicate Numbered(steps: seq<Step>) {
    forall i :: 0 <= i < |steps| ==> IsSettled(steps[i]) && KeyOf(steps[i]) == Key(None, Some(i), None)
  }

  function Snapshot(steps: seq<Step>): (h: History)
    ensures |h| == |steps| && forall i :: 0 <= i < |h| ==> h[i] == Polled(steps[i])
  {
    seq(|steps|, i requires 0 <= i < |steps| => Polled(steps[i]))
  }

  /** One poll of such steps keeps them all. */
  lemma {:induction false} SnapshotKeepsAll(steps: seq<Step>)
    requires Numbered(steps)
    ensures Kept(Snapshot(steps)) == steps
    ensures forall k :: k in SettledKeys(Snapshot(steps)) ==>
              exists i :: 0 <= i < |steps| && k == Key(None, Some(i), None)
  {
    if steps != [] {
      var n := |steps| - 1;
      var before, h := steps[..n], Snapshot(steps[..n]);
      SnapshotKeepsAll(before);
      assert Snapshot(steps) == h + [Polled(steps[n])];
      SettledKeysSnoc(h, Polled(steps[n]));
      assert KeyOf(steps[n]) !in SettledKeys(h);
    }
  }

  lemma {:induction false} CallsAndResultsNumbered(n: nat)
    ensures Numbered(CallsAndResults(n))
  {
    if n > 0 {
      CallsAndResultsNumbered(n - 1);
      NumberedSnoc(CallsAndResults(n - 1), CallStep(2 * n - 2));
      NumberedSnoc(CallsAndResults(n - 1) + [CallStep(2 * n - 2)], ResultStep(2 * n - 1, None));
    }
  }

  lemma {:induction false} LoneResultsNumbered(n: nat)
    ensures Numbered(LoneResults(n))
  {
    if n > 0 {
      LoneResultsNumbered(n - 1);
      NumberedSnoc(LoneResults(n - 1), ResultStep(n - 1, None));
    }
  }

  lemma {:induction false} NumberedSnoc(steps: seq<Step>, s: Step)
    requires Numbered(steps) && IsSettled(s) && KeyOf(s) == Key(None, Some(|steps|), None)
    ensures Numbered(steps + [s])
  {
    var all := steps + [s];
    forall i | 0 <= i < |all| ensures IsSettled(all[i]) && KeyOf(all[i]) == Key(None, Some(i), None) {
      assert i < |steps| ==> all[i] == steps[i];
    }
  }

  // -------------------------------------------------------------------- laws

  /** In this run the id gets one output per kept result that carries it. */
  ghost predicate Exact(env: Env, h: History, id: string) {
    OutputsFor(id, PostsOf(env, Kept(h))) == ResultsFor(id, Kept(h))
  }

  /** Steps whose run hands `id` to a result. */
  lemma {:induction false} StepsUsing(conversation: string, id: string) returns (steps: seq<Step>)
    requires IsMinted(conversation, id)
    ensures Numbered(steps) && id in RunOps(conversation, RunOpsOf(steps)).outputs
  {
    var n: nat :| id == ClaimId(conversation, n) || id == OrphanId(conversation, n);
    if id == ClaimId(conversation, n) {
      steps := CallsAndResults(n + 1);
      CallsAndResultsNumbered(n + 1);
      CallsAndResultsRun(conversation, n + 1);
      assert Claims(conversation, n + 1)[n] == id;
    } else {
      steps := LoneResults(n + 1);
      LoneResultsNumbered(n + 1);
      LoneResultsRun(conversation, n + 1);
      assert Orphans(conversation, n + 1)[n] == id;
    }
  }

  /** A history in which a minted id gets one output too many. */
  lemma {:induction false} MintedIdOvercounts(env: Env, id: string) returns (h: History)
    requires IsMinted(env.conversation, id)
    ensures !Exact(env, h, id)
  {
    var steps := StepsUsing(env.conversation, id);
    h := Snapshot(steps);
    SnapshotKeepsAll(steps);
    ToolCallPairing(env, steps, id);
  }

  /** The count is exact in every run if and only if the id is not one the allocator mints. */
  lemma {:induction false} ExactIffNotMinted(env: Env, id: string)
    ensures (forall h :: Exact(env, h, id)) <==> !IsMinted(env.conversation, id)
  {
    if IsMinted(env.conversation, id) {
      var h := MintedIdOvercounts(env, id);
    } else {
      forall h ensures Exact(env, h, id) {
        var outputs := RunOps(env.conversation, RunOpsOf(Kept(h))).outputs;
        ToolCallPairing(env, Kept(h), id);
        if id in outputs {
          OutputsAreMinted(env.conversation, RunOpsOf(Kept(h)), id);
        }
      }
    }
  }

  /** An id-less call, its id-less result, and a result stamped with the minted id: two outputs for one result. */
  lemma {:induction false} StampedMintedId(env: Env)
    ensures var id := ClaimId(env.conversation, 0);
            var steps := CallsAndResults(1) + [ResultStep(2, Some(id))];
            Kept(Snapshot(steps)) == steps && ResultsFor(id, steps) == 1 && OutputsFor(id, PostsOf(env, steps)) == 2
  {
    var id := ClaimId(env.conversation, 0);
    var before, s := CallsAndResults(1), ResultStep(2, Some(id));
    var steps := before + [s];
    CallsAndResultsNumbered(1);
    NumberedSnoc(before, s);
    SnapshotKeepsAll(steps);
    CallsAndResultsRun(env.conversation, 1);
    assert steps[..|before|] == before && RunOpsOf(before) + [] == RunOpsOf(before);
    ToolCallPairing(env, steps, id);
    assert Claims(env.conversation, 1) == [id];
    NoStampedResults(id, 1);
  }

  lemma {:induction false} NoStampedResults(id: string, n: nat)
    ensures ResultsFor(id, CallsAndResults(n)) == 0
  {
    if n > 0 {
      NoStampedResults(id, n - 1);
      var before := CallsAndResults(n - 1) + [CallStep(2 * n - 2)];
      assert before[..|before| - 1] == CallsAndResults(n - 1);
      assert CallsAndResults(n)[..|CallsAndResults(n)| - 1] == before;
    }
  }
}

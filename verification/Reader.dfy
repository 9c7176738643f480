/**
 The read driver's per-run state and the methods that update it
 (omnigent/antigravity_native_reader.py). `_ReaderState` is split by concern;
 each part's invariant says that what it posted is the specification of
 Mirror.dfy, Deltas.dfy or Scheduling.dfy applied to everything observed so far.
 */
module Reader {
  import opened Common
  import opened Steps
  import opened Mapper
  import opened Mirror
  import opened Deltas
  import opened Scheduling
  import opened Timeline

  // ------------------------------------------------------ committed path

  /** Items, status edges and telemetry: `seen`, the turn flag, totals, the allocator. */
  class CommittedPath {
    const env: Env
    const allocator: ToolCallIdAllocator
    var seen: set<Key>
    var turnActive: bool
    var postedModel: Option<string>
    var cumulativeInput: nat
    var cumulativeOutput: nat
    var cumulativeCacheRead: nat
    var posts: seq<Event>
    ghost var history: History

    ghost function View(): (c: Core)
      reads this, allocator
    {
      Core(turnActive, allocator.View(), cumulativeInput, cumulativeOutput, cumulativeCacheRead, postedModel)
    }

    ghost predicate Valid()
      reads this, allocator
    {
      && seen == SettledKeys(history)
      && View() == CoreAfter(env, Kept(history))
      && posts == PostsOf(env, Kept(history))
    }

    constructor (env: Env)
      ensures Valid() && history == [] && this.env == env && fresh(allocator)
    {
      this.env := env;
      allocator := new ToolCallIdAllocator(env.conversation);
      seen, turnActive, postedModel := {}, false, None;
      cumulativeInput, cumulativeOutput, cumulativeCacheRead := 0, 0, 0;
      posts, history := [], [];
    }

    method PostAll(events: seq<Event>)
      modifies `posts
      ensures posts == old(posts) + events
    {
      for i := 0 to |events|
        invariant posts == old(posts) + events[..i]
      {
        assert events[..i + 1] == events[..i] + [events[i]];
        posts := posts + [events[i]];
      }
      assert events[..|events|] == events;
    }

    method EmitStep(step: Step)
      modifies `posts, `turnActive, allocator
      ensures turnActive == ((old(turnActive) || step.kind.UserInput?) && !IsTurnClose(step))
      ensures allocator.View() == MapStep(env.conversation, step, old(allocator.View())).1
      ensures posts == old(posts) + Emitted(env.conversation, old(turnActive), old(allocator.View()), step)
    {
      ghost var before, active := posts, turnActive;
      if step.kind.UserInput? && !turnActive {
        turnActive := true;
        posts := posts + [SessionStatus(Running)];
      }
      assert posts == before + Opening(active, step);
      var events := MapStepToEvents(env.conversation, step, allocator);
      PostAll(events);
      ghost var mapped := posts;
      if IsTurnClose(step) && turnActive {
        turnActive := false;
        posts := posts + [SessionStatus(if IsErrorPlanner(step) then Failed else Idle)];
      }
      assert posts == mapped + Closing(active, step);
      Regroup(before, Opening(active, step), events, Closing(active, step));
    }

    method MaybeEmitModelChange(step: Step)
      modifies `posts, `postedModel
      ensures postedModel == if RequestedModel(step).Some? then RequestedModel(step) else old(postedModel)
      ensures posts == old(posts) + ModelEvents(env, old(postedModel), step)
    {
      var model := RequestedModel(step);
      if model.None? || model == postedModel {
        assert posts == old(posts) + [];
        return;
      }
      posts := posts + [ModelChange(DisplayName(env, model.value))];
      postedModel := model;
    }

    method MaybeEmitSessionUsage(step: Step)
      modifies `posts, `cumulativeInput, `cumulativeOutput, `cumulativeCacheRead
      ensures cumulativeInput == old(cumulativeInput) + CallUsage(step).input
      ensures cumulativeOutput == old(cumulativeOutput) + CallUsage(step).output
      ensures cumulativeCacheRead == old(cumulativeCacheRead) + CallUsage(step).cacheRead
      ensures posts == old(posts)
              + UsageEvents(env, cumulativeInput, cumulativeOutput, cumulativeCacheRead, CallUsage(step))
    {
      var call := CallUsage(step);
      if !ReportsUsage(call) {
        assert posts == old(posts) + [];
        return;
      }
      cumulativeInput := cumulativeInput + call.input;
      cumulativeOutput := cumulativeOutput + call.output;
      cumulativeCacheRead := cumulativeCacheRead + call.cacheRead;
      posts := posts + [SessionUsage(NonZero(cumulativeInput), NonZero(cumulativeOutput), NonZero(cumulativeCacheRead),
                                     if call.model.Some? then Some(DisplayName(env, call.model.value)) else None)];
    }

    /** One not-yet-seen sighting: edges and items, then model change, then usage. */
    method MirrorStep(step: Step)
      modifies `posts, `turnActive, `postedModel, `cumulativeInput, `cumulativeOutput, `cumulativeCacheRead, allocator
      ensures View() == Next(env, old(View()), step)
      ensures posts == old(posts) + Posts(env, old(View()), step)
    {
      ghost var before, core := posts, View();
      EmitStep(step);
      MaybeEmitModelChange(step);
      MaybeEmitSessionUsage(step);
      var call := CallUsage(step);
      ghost var usage := UsageEvents(env, core.input + call.input, core.output + call.output,
                                     core.cacheRead + call.cacheRead, call);
      Regroup2(before, Emitted(env.conversation, core.turnActive, core.alloc, step),
               ModelEvents(env, core.model, step), usage);
    }

    /** The dedup of `_process_committed_step`: record only settled steps, skip the recorded ones. */
    method Sight(ghost o: Observation, step: Step)
      requires Valid() && o.step == step
      modifies this, allocator
      ensures Valid() && history == old(history) + [o]
    {
      if KeyOf(step) in seen {
        SeenAgain(env, history, o);
      } else {
        NotYetSeen(env, history, o, View());
        if IsSettled(step) {
          seen := seen + {KeyOf(step)};
        }
        MirrorStep(step);
      }
      history := history + [o];
    }

    /** A GENERATING planner frame bypasses the committed path; it is unsettled, so nothing is owed. */
    ghost method Skip(o: Observation)
      requires Valid() && !IsSettled(o.step)
      modifies `history
      ensures Valid() && history == old(history) + [o]
    {
      SightingEffect(env, history, o);
      UnsettledIsInert(env, View(), o.step);
      assert posts + [] == posts;
      history := history + [o];
    }
  }

  lemma Regroup(a: seq<Event>, b: seq<Event>, c: seq<Event>, d: seq<Event>)
    ensures a + b + c + d == a + (b + c + d)
  {
  }

  lemma Regroup2(a: seq<Event>, b: seq<Event>, c: seq<Event>, d: seq<Event>)
    ensures a + b + c + d == a + (b + (c + d))
  {
  }

  // -------------------------------------------------------------- deltas

  /** The two prefix trackers of the stream path and the deltas they let through. */
  class DeltaTrackers {
    var prefixes: map<int, string>
    var reasoningPrefixes: map<int, string>
    var textPosts: seq<(int, Diff)>
    var reasoningPosts: seq<(int, Diff)>
    ghost var history: History

    ghost predicate Valid()
      reads this
    {
      && Tracking(prefixes, textPosts) == TrackAll(Text, history)
      && Tracking(reasoningPrefixes, reasoningPosts) == TrackAll(Reasoning, history)
    }

    constructor ()
      ensures Valid() && history == []
    {
      prefixes, reasoningPrefixes, textPosts, reasoningPosts, history := map[], map[], [], [], [];
    }

    method EmitPartialReasoningDelta(step: Step)
      requires IsGeneratingPlanner(step)
      modifies `reasoningPrefixes, `reasoningPosts
      ensures Tracking(reasoningPrefixes, reasoningPosts)
              == Track(old(Tracking(reasoningPrefixes, reasoningPosts)), TouchOf(Reasoning, Streamed(step)))
    {
      var partial := Partial(Reasoning, step);
      if step.index.None? || partial.None? {
        return;
      }
      var i, text := step.index.value, partial.value;
      var started := i !in reasoningPrefixes;
      var forwarded := if i in reasoningPrefixes then reasoningPrefixes[i] else "";
      if forwarded <= text && |text| > |forwarded| {
        reasoningPosts := reasoningPosts + [(i, Diff(text[|forwarded|..], started))];
      }
      reasoningPrefixes := reasoningPrefixes[i := text];
    }

    method EmitPartialDelta(step: Step)
      requires IsGeneratingPlanner(step)
      modifies `prefixes, `textPosts
      ensures Tracking(prefixes, textPosts) == Track(old(Tracking(prefixes, textPosts)), TouchOf(Text, Streamed(step)))
    {
      var partial := Partial(Text, step);
      if step.index.None? || partial.None? {
        return;
      }
      var i, text := step.index.value, partial.value;
      var forwarded := if i in prefixes then prefixes[i] else "";
      if forwarded <= text && |text| > |forwarded| {
        textPosts := textPosts + [(i, Diff(text[|forwarded|..], i !in prefixes))];
      }
      prefixes := prefixes[i := text];
    }

    /** Reasoning precedes the response within a frame. */
    method Generate(step: Step)
      requires Valid() && IsGeneratingPlanner(step)
      modifies this
      ensures Valid() && history == old(history) + [Streamed(step)]
    {
      TrackSnoc(Text, history, Streamed(step));
      TrackSnoc(Reasoning, history, Streamed(step));
      EmitPartialReasoningDelta(step);
      EmitPartialDelta(step);
      history := history + [Streamed(step)];
    }

    /** A committed stream step retires its index's live blocks. */
    method Retire(step: Step)
      requires Valid() && !IsGeneratingPlanner(step)
      modifies this
      ensures Valid() && history == old(history) + [Streamed(step)]
    {
      TrackSnoc(Text, history, Streamed(step));
      TrackSnoc(Reasoning, history, Streamed(step));
      if step.index.Some? {
        prefixes := prefixes - {step.index.value};
        reasoningPrefixes := reasoningPrefixes - {step.index.value};
      }
      history := history + [Streamed(step)];
    }

    ghost method Skip(step: Step)
      requires Valid()
      modifies `history
      ensures Valid() && history == old(history) + [Polled(step)]
    {
      TrackSnoc(Text, history, Polled(step));
      TrackSnoc(Reasoning, history, Polled(step));
      history := history + [Polled(step)];
    }
  }

  lemma {:induction false} TrackSnoc(ch: Channel, h: History, o: Observation)
    ensures TrackAll(ch, h + [o]) == Track(TrackAll(ch, h), TouchOf(ch, o))
  {
    assert (h + [o])[..|h|] == h;
  }

  // -------------------------------------------------------- interactions

  /** Hand-over and withdrawal of WAITING interactions. */
  class Interactions {
    const cascade: string
    var interacted: set<Key>
    var surfacedElicitations: map<Key, ElicitationId>
    var interactionTask: Option<Task>
    var unfinished: set<Task>
    var callbacks: set<Task>
    var nextTask: Task
    var resolved: seq<ElicitationId>
    ghost var handed: seq<Key>
    ghost var withdrawn: seq<Key>
    ghost var actions: seq<Action>

    ghost function View(): (sc: Sched)
      reads this
    {
      Sched(interacted, surfacedElicitations, interactionTask, unfinished, callbacks, nextTask, handed, withdrawn,
            resolved)
    }

    /** The state reached by every action so far; Scheduling proves what that entails. */
    ghost predicate Valid()
      reads this
    {
      View() == Run(cascade, actions)
    }

    constructor (cascade: string)
      ensures Valid() && actions == [] && this.cascade == cascade
    {
      this.cascade := cascade;
      interacted, surfacedElicitations, interactionTask := {}, map[], None;
      unfinished, callbacks, nextTask, resolved := {}, {}, 0, [];
      handed, withdrawn, actions := [], [], [];
    }

    method MaybeHandleInteraction(step: Step)
      modifies `interacted, `surfacedElicitations, `interactionTask, `unfinished, `nextTask, `handed
      ensures View() == Handle(cascade, old(View()), step)
    {
      var pending := PendingOf(step);
      if pending.None? || KeyOf(step) in interacted {
        return;
      }
      if interactionTask.Some? && interactionTask.value in unfinished {
        return; // the bridge in flight owns agy's timeout retries
      }
      interacted := interacted + {KeyOf(step)};
      surfacedElicitations := surfacedElicitations[KeyOf(step) := ElicitationOf(cascade, pending.value)];
      interactionTask := Some(nextTask);
      unfinished := unfinished + {nextTask};
      nextTask := nextTask + 1;
      handed := handed + [KeyOf(step)];
    }

    method MaybeWithdrawInteraction(step: Step)
      modifies `surfacedElicitations, `resolved, `withdrawn
      ensures View() == Withdraw(old(View()), step)
    {
      if KeyOf(step) !in surfacedElicitations || PendingOf(step).Some? {
        return;
      }
      var id := surfacedElicitations[KeyOf(step)];
      surfacedElicitations := surfacedElicitations - {KeyOf(step)};
      withdrawn, resolved := withdrawn + [KeyOf(step)], resolved + [id];
    }

    method Sight(step: Step)
      requires Valid()
      modifies this
      ensures Valid() && actions == old(actions) + [Observe(step)]
    {
      RunSnoc(cascade, actions, Observe(step));
      MaybeHandleInteraction(step);
      MaybeWithdrawInteraction(step);
      actions := actions + [Observe(step)];
    }

    /** A bridge task finishes: from now on `active.done()` is true of it. */
    method BridgeFinishes(t: Task)
      requires Valid()
      modifies this
      ensures Valid() && actions == old(actions) + [BridgeDone(t)]
    {
      RunSnoc(cascade, actions, BridgeDone(t));
      if t in unfinished {
        unfinished := unfinished - {t};
        callbacks := callbacks + {t};
      }
      actions := actions + [BridgeDone(t)];
    }

    /** The done-callback: clears the slot only if it still holds the completed task. */
    method ClearSlotCallback(t: Task)
      requires Valid()
      modifies this
      ensures Valid() && actions == old(actions) + [Callback(t)]
    {
      RunSnoc(cascade, actions, Callback(t));
      if t in callbacks {
        callbacks := callbacks - {t};
        if interactionTask == Some(t) {
          interactionTask := None;
        }
      }
      actions := actions + [Callback(t)];
    }

    /** The re-scan: every step of a snapshot is offered for hand-over again. */
    method ResurfacePendingInteraction(steps: seq<Step>)
      requires Valid()
      modifies this
      ensures Valid() && View() == Rescan(cascade, old(View()), steps)
      ensures actions == old(actions) + seq(|steps|, i requires 0 <= i < |steps| => RescanStep(steps[i]))
    {
      for i := 0 to |steps|
        invariant Valid()
        invariant actions == old(actions) + seq(i, k requires 0 <= k < i => RescanStep(steps[k]))
        invariant Rescan(cascade, View(), steps[i..]) == Rescan(cascade, old(View()), steps)
      {
        assert steps[i..][1..] == steps[i + 1..];
        RunSnoc(cascade, actions, RescanStep(steps[i]));
        MaybeHandleInteraction(steps[i]);
        actions := actions + [RescanStep(steps[i])];
      }
    }
  }

  lemma {:induction false} RunSnoc(cascade: string, actions: seq<Action>, a: Action)
    ensures Run(cascade, actions + [a]) == Act(cascade, Run(cascade, actions), a)
  {
    assert (actions + [a])[..|actions|] == actions;
  }

  // ---------------------------------------------------------- the driver

  class ReaderState {
    const committed: CommittedPath
    const deltas: DeltaTrackers
    const interactions: Interactions
    ghost var history: History

    ghost function Repr(): (objects: set<object>) {
      {committed, committed.allocator, deltas, interactions}
    }

    ghost predicate Valid()
      reads this, committed, committed.allocator, deltas, interactions
    {
      && committed.Valid() && committed.history == history
      && deltas.Valid() && deltas.history == history
      && interactions.Valid() && interactions.cascade == committed.env.conversation
    }

    constructor (env: Env)
      ensures Valid() && history == [] && committed.env == env && fresh(Repr())
    {
      var path := new CommittedPath(env);
      var trackers := new DeltaTrackers();
      var slot := new Interactions(env.conversation);
      committed, deltas, interactions, history := path, trackers, slot, [];
    }

    /** `_process_committed_step`: dedup and posts, then hand-over and withdrawal. */
    method Commit(o: Observation)
      requires Valid()
      modifies committed, committed.allocator, interactions
      ensures committed.Valid() && committed.history == history + [o]
      ensures interactions.Valid() && interactions.actions == old(interactions.actions) + [Observe(o.step)]
    {
      committed.Sight(o, o.step);
      interactions.Sight(o.step);
    }

    /** A step of a polled snapshot. */
    method PollStep(step: Step)
      requires Valid()
      modifies this, Repr()
      ensures Valid() && history == old(history) + [Polled(step)]
      ensures interactions.actions == old(interactions.actions) + [Observe(step)]
    {
      Commit(Polled(step));
      deltas.Skip(step);
      history := history + [Polled(step)];
    }

    /** The committed half of `_process_stream_step`, for a step that is not being generated. */
    method StreamCommitted(step: Step)
      requires Valid() && !IsGeneratingPlanner(step)
      modifies this, Repr()
      ensures Valid() && history == old(history) + [Streamed(step)]
      ensures interactions.actions == old(interactions.actions) + [Observe(step)]
    {
      Commit(Streamed(step));
      deltas.Retire(step);
      history := history + [Streamed(step)];
    }

    /** The live half of `_process_stream_step`: deltas while the step is being generated. */
    method StreamGenerating(step: Step)
      requires Valid() && IsGeneratingPlanner(step)
      modifies this, committed, deltas
      ensures Valid() && history == old(history) + [Streamed(step)]
    {
      deltas.Generate(step);
      committed.Skip(Streamed(step));
      history := history + [Streamed(step)];
    }

    /** `_process_stream_step`: deltas while the step generates, the committed path otherwise. */
    method StreamStep(step: Step)
      requires Valid()
      modifies this, Repr()
      ensures Valid() && history == old(history) + [Streamed(step)]
      ensures IsGeneratingPlanner(step) ==> interactions.actions == old(interactions.actions)
      ensures !IsGeneratingPlanner(step) ==> interactions.actions == old(interactions.actions) + [Observe(step)]
    {
      if IsGeneratingPlanner(step) {
        StreamGenerating(step);
      } else {
        StreamCommitted(step);
      }
    }

    method See(o: Observation)
      requires Valid()
      modifies this, Repr()
      ensures Valid() && history == old(history) + [o]
      ensures interactions.actions == old(interactions.actions) + ActionOf(o)
    {
      match o {
        case Streamed(step) =>
          StreamStep(step);
          assert IsGeneratingPlanner(step) ==> old(interactions.actions) + [] == old(interactions.actions);
        case Polled(step) => PollStep(step);
      }
    }

    /** A whole run, whatever mix of paths and replays it was seen on. */
    method ObserveAll(observations: History)
      requires Valid()
      modifies this, Repr()
      ensures Valid() && history == old(history) + observations
      ensures interactions.actions == old(interactions.actions) + ActionsOf(observations)
    {
      ghost var start, acted := history, interactions.actions;
      TakeAll(start, observations);
      assert acted + [] == acted;
      for i := 0 to |observations|
        invariant Valid() && history == start + observations[..i]
        invariant interactions.actions == acted + ActionsOf(observations[..i])
      {
        TakeSnoc(start, observations, i);
        ActionsStep(acted, observations, i);
        See(observations[i]);
      }
      assert observations[..|observations|] == observations;
    }
  }

  /** The driver with a record of everything it sends, in sending order. */
  class TracedReader {
    const state: ReaderState
    ghost var trace: seq<Sent>

    ghost predicate Valid()
      reads this, state, state.committed, state.committed.allocator, state.deltas, state.interactions
    {
      state.Valid() && trace == Trace(state.committed.env, state.history)
    }

    constructor (env: Env)
      ensures Valid() && state.history == [] && state.committed.env == env
      ensures fresh(state) && fresh(state.Repr())
    {
      state := new ReaderState(env);
      trace := [];
    }

    /** What an observation adds to the posts or the deltas goes to the end of the trace. */
    method See(o: Observation)
      requires Valid()
      modifies this, state, state.Repr()
      ensures Valid() && state.history == old(state.history) + [o]
    {
      ghost var h, env := state.history, state.committed.env;
      ghost var posts, reasoning, text := state.committed.posts, state.deltas.reasoningPosts, state.deltas.textPosts;
      state.See(o);
      SentStep(env, h, o, state.history, posts, state.committed.posts, reasoning, state.deltas.reasoningPosts,
               text, state.deltas.textPosts, trace);
      trace := trace
               + (NewPart(Reasoning, reasoning, state.deltas.reasoningPosts)
                  + NewPart(Text, text, state.deltas.textPosts)
                  + NewEvents(posts, state.committed.posts));
    }
  }

  /** The scheduling action of one observation: none while the step is being generated. */
  function ActionOf(o: Observation): (actions: seq<Action>) {
    if IsLive(o) then [] else [Observe(o.step)]
  }

  function ActionsOf(h: History): (actions: seq<Action>) {
    if h == [] then [] else ActionsOf(h[..|h| - 1]) + ActionOf(h[|h| - 1])
  }

  lemma {:induction false} ActionsStep(acted: seq<Action>, h: History, i: nat)
    requires i < |h|
    ensures acted + ActionsOf(h[..i + 1]) == acted + ActionsOf(h[..i]) + ActionOf(h[i])
  {
    assert h[..i + 1][..i] == h[..i];
    Assoc(acted, ActionsOf(h[..i]), ActionOf(h[i]));
  }

  /** A run from scratch posts exactly the specification of its sightings. */
  method MirrorPosts(env: Env, observations: History) returns (posts: seq<Event>)
    ensures posts == PostsOf(env, Kept(observations))
  {
    var state := new ReaderState(env);
    state.ObserveAll(observations);
    EmptyLeft(observations);
    posts := state.committed.posts;
  }

  lemma EmptyLeft(h: History)
    ensures [] + h == h
  {
  }
}

/**
 The committed read path as a simple specification: keep the settled
 observations, keep the first of each key, map them in order
 (omnigent/antigravity_native_reader.py). The driver of Reader.dfy is proved
 to post exactly this; the run-wide laws are proved here.
 */
module Mirror {
  import opened Common
  import opened Steps
  import opened Mapper

  /** One sighting of a step: in a stream frame or in a polled snapshot. */
  datatype Observation = Streamed(step: Step) | Polled(step: Step)

  type History = seq<Observation>

  /** What stays fixed for a run: the cascade and the model catalog it will be given. */
  datatype Env = Env(conversation: string, catalog: map<string, string>)

  // --------------------------------------------------- which steps are kept

  predicate Keeps(h: History, i: nat)
    requires i < |h|
  {
    && IsSettled(h[i].step)
    && forall j :: 0 <= j < i && IsSettled(h[j].step) ==> KeyOf(h[j].step) != KeyOf(h[i].step)
  }

  /** The first settled sighting of each key, in order of arrival. */
  function Kept(h: History): (steps: seq<Step>)
    ensures forall s :: s in steps ==> IsSettled(s)
  {
    if h == [] then [] else
      Kept(h[..|h| - 1]) + if Keeps(h, |h| - 1) then [h[|h| - 1].step] else []
  }

  function SettledKeys(h: History): (keys: set<Key>) {
    set o | o in h && IsSettled(o.step) :: KeyOf(o.step)
  }

  lemma {:induction false} SettledKeysSnoc(h: History, o: Observation)
    ensures SettledKeys(h + [o]) == SettledKeys(h) + if IsSettled(o.step) then {KeyOf(o.step)} else {}
    ensures Keeps(h + [o], |h|) <==> IsSettled(o.step) && KeyOf(o.step) !in SettledKeys(h)
    ensures Kept(h + [o]) == Kept(h) + if Keeps(h + [o], |h|) then [o.step] else []
  {
    assert (h + [o])[..|h|] == h;
    forall j | 0 <= j < |h| ensures (h + [o])[j] == h[j] && h[j] in h {}
  }

  lemma {:induction false} KeptKeys(h: History)
    ensures forall k :: k in SettledKeys(h) <==> exists s :: s in Kept(h) && KeyOf(s) == k
    ensures forall i, j :: 0 <= i < j < |Kept(h)| ==> KeyOf(Kept(h)[i]) != KeyOf(Kept(h)[j])
  {
    if h != [] {
      var before, o := h[..|h| - 1], h[|h| - 1];
      assert h == before + [o];
      KeptKeys(before);
      SettledKeysSnoc(before, o);
    }
  }

  /** Re-reading anything already settled, or anything unsettled, keeps nothing new. */
  lemma {:induction false} ReplayKeepsNothing(h: History, replay: History)
    requires forall o :: o in replay ==> IsSettled(o.step) ==> KeyOf(o.step) in SettledKeys(h)
    ensures Kept(h + replay) == Kept(h) && SettledKeys(h + replay) == SettledKeys(h)
  {
    if replay == [] {
      assert h + replay == h;
    } else {
      var before, o := replay[..|replay| - 1], replay[|replay| - 1];
      assert h + replay == (h + before) + [o];
      ReplayKeepsNothing(h, before);
      SettledKeysSnoc(h + before, o);
    }
  }

  // ------------------------------------------------ what a kept step posts

  datatype Core = Core(turnActive: bool, alloc: Alloc, input: nat, output: nat, cacheRead: nat, model: Option<string>)

  function Start(env: Env): (c: Core) {
    Core(false, FreshAlloc(env.conversation), 0, 0, 0, None)
  }

  function DisplayName(env: Env, model: string): (name: string) {
    if model in env.catalog then env.catalog[model] else model
  }

  function Positive(n: int): (r: nat) {
    if n > 0 then n else 0
  }

  /** Per-call counts of a DONE planner; anything else counts for nothing. */
  function CallUsage(s: Step): (u: Usage)
    ensures u.input >= 0 && u.output >= 0 && u.cacheRead >= 0
  {
    if s.kind.PlannerResponse? && s.status.Done? && s.usage.Some? then
      var u := s.usage.value;
      Usage(Positive(u.input), Positive(u.output), Positive(u.cacheRead), if HasText(u.model) then u.model else None)
    else Usage(0, 0, 0, None)
  }

  predicate ReportsUsage(u: Usage) {
    u.input > 0 || u.output > 0 || u.cacheRead > 0 || u.model.Some?
  }

  function NonZero(n: nat): (r: Option<nat>) {
    if n > 0 then Some(n) else None
  }

  function UsageEvents(env: Env, input: nat, output: nat, cacheRead: nat, u: Usage): (events: seq<Event>)
    ensures |events| <= 1 && forall e :: e in events ==> e.SessionUsage?
  {
    if !ReportsUsage(u) then [] else
      [SessionUsage(NonZero(input), NonZero(output), NonZero(cacheRead),
                    if u.model.Some? then Some(DisplayName(env, u.model.value)) else None)]
  }

  function RequestedModel(s: Step): (m: Option<string>) {
    if s.kind.UserInput? then s.requestedModel else None
  }

  function ModelEvents(env: Env, posted: Option<string>, s: Step): (events: seq<Event>)
    ensures forall e :: e in events ==> e.ModelChange?
  {
    var m := RequestedModel(s);
    if m.Some? && m != posted then [ModelChange(DisplayName(env, m.value))] else []
  }

  function Opening(active: bool, s: Step): (events: seq<Event>)
    ensures forall e :: e in events ==> e.SessionStatus?
  {
    if s.kind.UserInput? && !active then [SessionStatus(Running)] else []
  }

  function Closing(active: bool, s: Step): (events: seq<Event>)
    ensures forall e :: e in events ==> e.SessionStatus?
  {
    if IsTurnClose(s) && active then [SessionStatus(if IsErrorPlanner(s) then Failed else Idle)] else []
  }

  /** A step's status edges around its mapped items. */
  function Emitted(conversation: string, active: bool, a: Alloc, s: Step): (events: seq<Event>) {
    Opening(active, s) + MapStep(conversation, s, a).0 + Closing(active, s)
  }

  function Next(env: Env, c: Core, s: Step): (c': Core) {
    var u := CallUsage(s);
    var m := RequestedModel(s);
    Core((c.turnActive || s.kind.UserInput?) && !IsTurnClose(s),
         MapStep(env.conversation, s, c.alloc).1,
         c.input + u.input, c.output + u.output, c.cacheRead + u.cacheRead,
         if m.Some? then m else c.model)
  }

  function TelemetryEvents(env: Env, c: Core, s: Step): (events: seq<Event>)
    ensures forall e :: e in events ==> ClassOf(e) == Telemetry
  {
    var u := CallUsage(s);
    ModelEvents(env, c.model, s)
        + UsageEvents(env, c.input + u.input, c.output + u.output, c.cacheRead + u.cacheRead, u)
  }

  function Posts(env: Env, c: Core, s: Step): (events: seq<Event>) {
    Emitted(env.conversation, c.turnActive, c.alloc, s) + TelemetryEvents(env, c, s)
  }

  function CoreAfter(env: Env, steps: seq<Step>): (c: Core) {
    if steps == [] then Start(env) else Next(env, CoreAfter(env, steps[..|steps| - 1]), steps[|steps| - 1])
  }

  /** Everything the committed path posts for the kept steps. */
  function PostsOf(env: Env, steps: seq<Step>): (events: seq<Event>) {
    if steps == [] then [] else
      PostsOf(env, steps[..|steps| - 1]) + Posts(env, CoreAfter(env, steps[..|steps| - 1]), steps[|steps| - 1])
  }

  lemma Snoc(env: Env, steps: seq<Step>, s: Step)
    ensures CoreAfter(env, steps + [s]) == Next(env, CoreAfter(env, steps), s)
    ensures PostsOf(env, steps + [s]) == PostsOf(env, steps) + Posts(env, CoreAfter(env, steps), s)
  {
    assert (steps + [s])[..|steps|] == steps;
  }

  /** The lemma dedup rests on: an unsettled sighting posts nothing and changes nothing. */
  lemma UnsettledIsInert(env: Env, c: Core, s: Step)
    requires !IsSettled(s)
    ensures Posts(env, c, s) == [] && Next(env, c, s) == c
  {
    UnsettledMapsToNothing(env.conversation, s, c.alloc);
  }

  /** One more sighting, whichever path it came on. */
  lemma {:induction false} SightingEffect(env: Env, h: History, o: Observation)
    ensures var c := CoreAfter(env, Kept(h));
            && SettledKeys(h + [o]) == SettledKeys(h) + (if IsSettled(o.step) then {KeyOf(o.step)} else {})
            && (if KeyOf(o.step) in SettledKeys(h) then
                  CoreAfter(env, Kept(h + [o])) == c && PostsOf(env, Kept(h + [o])) == PostsOf(env, Kept(h))
                else
                  && CoreAfter(env, Kept(h + [o])) == Next(env, c, o.step)
                  && PostsOf(env, Kept(h + [o])) == PostsOf(env, Kept(h)) + Posts(env, c, o.step))
  {
    SettledKeysSnoc(h, o);
    assert Kept(h) + [] == Kept(h);
    if IsSettled(o.step) {
      Snoc(env, Kept(h), o.step);
    } else {
      UnsettledIsInert(env, CoreAfter(env, Kept(h)), o.step);
      assert PostsOf(env, Kept(h)) + [] == PostsOf(env, Kept(h));
    }
  }

  /** A key already recorded: nothing changes. */
  lemma {:induction false} SeenAgain(env: Env, h: History, o: Observation)
    requires KeyOf(o.step) in SettledKeys(h)
    ensures SettledKeys(h + [o]) == SettledKeys(h)
    ensures CoreAfter(env, Kept(h + [o])) == CoreAfter(env, Kept(h))
            && PostsOf(env, Kept(h + [o])) == PostsOf(env, Kept(h))
  {
    SightingEffect(env, h, o);
  }

  /** A key not recorded yet: one more step of the specification. */
  lemma {:induction false} NotYetSeen(env: Env, h: History, o: Observation, c: Core)
    requires KeyOf(o.step) !in SettledKeys(h) && c == CoreAfter(env, Kept(h))
    ensures SettledKeys(h + [o]) == if IsSettled(o.step) then SettledKeys(h) + {KeyOf(o.step)} else SettledKeys(h)
    ensures CoreAfter(env, Kept(h + [o])) == Next(env, c, o.step)
    ensures PostsOf(env, Kept(h + [o])) == PostsOf(env, Kept(h)) + Posts(env, c, o.step)
  {
    SightingEffect(env, h, o);
  }

  // ------------------------------------------------------------ status edges

  /** User input `j` opened a turn that no later step of `steps` closed. */
  predicate StillOpen(steps: seq<Step>, j: int) {
    0 <= j < |steps| && steps[j].kind.UserInput? && forall k :: j < k < |steps| ==> !IsTurnClose(steps[k])
  }

  ghost predicate TurnOpen(steps: seq<Step>) {
    exists j :: StillOpen(steps, j)
  }

  /** The edges a reader of the kept steps would expect, without any running state. */
  ghost function ExpectedEdges(steps: seq<Step>): (edges: seq<Event>) {
    if steps == [] then [] else
      var before, s := steps[..|steps| - 1], steps[|steps| - 1];
      ExpectedEdges(before) +
      (if s.kind.UserInput? && !TurnOpen(before) then [SessionStatus(Running)]
       else if IsTurnClose(s) && TurnOpen(before) then [SessionStatus(if s.status.Error? then Failed else Idle)]
       else [])
  }

  lemma {:induction false} SelectFour(k: EventClass, a: seq<Event>, b: seq<Event>, d: seq<Event>, e: seq<Event>)
    ensures Select(k, a + b + d + e) == Select(k, a) + Select(k, b) + Select(k, d) + Select(k, e)
  {
    SelectConcat(k, a + b + d, e);
    SelectConcat(k, a + b, d);
    SelectConcat(k, a, b);
  }

  /** Statuses and items of four consecutive parts, the items being the second. */
  lemma {:induction false} SelectParts(opening: seq<Event>, items: seq<Event>, closing: seq<Event>, rest: seq<Event>)
    requires forall e :: e in opening || e in closing ==> ClassOf(e) == Status
    requires forall e :: e in items ==> ClassOf(e) == Item
    requires forall e :: e in rest ==> ClassOf(e) == Telemetry
    ensures Select(Status, opening + items + closing + rest) == opening + closing
    ensures Select(Item, opening + items + closing + rest) == items
  {
    StatusParts(opening, items, closing, rest);
    ItemParts(opening, items, closing, rest);
  }

  lemma {:induction false} StatusParts(opening: seq<Event>, items: seq<Event>, closing: seq<Event>, rest: seq<Event>)
    requires forall e :: e in opening || e in closing ==> ClassOf(e) == Status
    requires forall e :: e in items ==> ClassOf(e) == Item
    requires forall e :: e in rest ==> ClassOf(e) == Telemetry
    ensures Select(Status, opening + items + closing + rest) == opening + closing
  {
    SelectFour(Status, opening, items, closing, rest);
    SelectUniform(Status, opening, Status);
    SelectUniform(Status, items, Item);
    SelectUniform(Status, closing, Status);
    SelectUniform(Status, rest, Telemetry);
    Thin(opening, closing);
  }

  lemma {:induction false} ItemParts(opening: seq<Event>, items: seq<Event>, closing: seq<Event>, rest: seq<Event>)
    requires forall e :: e in opening || e in closing ==> ClassOf(e) == Status
    requires forall e :: e in items ==> ClassOf(e) == Item
    requires forall e :: e in rest ==> ClassOf(e) == Telemetry
    ensures Select(Item, opening + items + closing + rest) == items
  {
    SelectFour(Item, opening, items, closing, rest);
    SelectUniform(Item, opening, Status);
    SelectUniform(Item, items, Item);
    SelectUniform(Item, closing, Status);
    SelectUniform(Item, rest, Telemetry);
    Thin([], items);
  }

  lemma Thin(a: seq<Event>, b: seq<Event>)
    ensures a + [] + b + [] == a + b
    ensures a + b + [] + [] == a + b
    ensures [] + b == b
  {
  }

  /** A step's conversation items are the mapper's output; its statuses are the two edges. */
  lemma {:induction false} ClassesOfPosts(env: Env, c: Core, s: Step)
    ensures Select(Status, Posts(env, c, s)) == Opening(c.turnActive, s) + Closing(c.turnActive, s)
    ensures Select(Item, Posts(env, c, s)) == MapStep(env.conversation, s, c.alloc).0
  {
    SelectParts(Opening(c.turnActive, s), MapStep(env.conversation, s, c.alloc).0, Closing(c.turnActive, s),
                TelemetryEvents(env, c, s));
  }

  lemma {:induction false} EdgesSnoc(env: Env, steps: seq<Step>)
    requires steps != []
    ensures var before, s := steps[..|steps| - 1], steps[|steps| - 1];
            var c := CoreAfter(env, before);
            Select(Status, PostsOf(env, steps)) == Select(Status, PostsOf(env, before))
                + (Opening(c.turnActive, s) + Closing(c.turnActive, s))
  {
    var before, s := steps[..|steps| - 1], steps[|steps| - 1];
    var c := CoreAfter(env, before);
    ClassesOfPosts(env, c, s);
    SelectConcat(Status, PostsOf(env, before), Posts(env, c, s));
  }

  lemma {:induction false} TurnOpenSnoc(steps: seq<Step>)
    requires steps != []
    ensures var s := steps[|steps| - 1];
            TurnOpen(steps) <==> (s.kind.UserInput? || TurnOpen(steps[..|steps| - 1])) && !IsTurnClose(s)
  {
    var n := |steps| - 1;
    forall j ensures StillOpen(steps, j) <==>
        (if j == n then steps[n].kind.UserInput? else StillOpen(steps[..n], j) && !IsTurnClose(steps[n])) {}
    assert TurnOpen(steps) <==> StillOpen(steps, n) || exists j :: StillOpen(steps[..n], j) && !IsTurnClose(steps[n]);
  }

  /** `turn_active` holds exactly when a user input is still unanswered by a close. */
  lemma {:induction false} TurnActiveMeaning(env: Env, steps: seq<Step>)
    ensures CoreAfter(env, steps).turnActive <==> TurnOpen(steps)
  {
    if steps != [] {
      TurnActiveMeaning(env, steps[..|steps| - 1]);
      TurnOpenSnoc(steps);
    }
  }

  predicate Alternates(edges: seq<Event>) {
    forall i :: 0 <= i < |edges| ==> edges[i].SessionStatus? && (edges[i].status == Running <==> i % 2 == 0)
  }

  /** Expected edges strictly alternate from running, and a turn is open iff the last is running. */
  lemma {:induction false} ExpectedEdgesAlternate(steps: seq<Step>)
    ensures Alternates(ExpectedEdges(steps))
    ensures TurnOpen(steps) <==> |ExpectedEdges(steps)| % 2 == 1
  {
    if steps != [] {
      ExpectedEdgesAlternate(steps[..|steps| - 1]);
      TurnOpenSnoc(steps);
    }
  }

  /** In every run the statuses posted are exactly the expected ones. */
  lemma {:induction false} StatusEdges(env: Env, steps: seq<Step>)
    ensures Select(Status, PostsOf(env, steps)) == ExpectedEdges(steps)
  {
    if steps != [] {
      var before := steps[..|steps| - 1];
      StatusEdges(env, before);
      TurnActiveMeaning(env, before);
      EdgesSnoc(env, steps);
    }
  }

  // ------------------------------------------------------------------ usage

  function Sum(f: Step -> nat, steps: seq<Step>): (n: nat) {
    if steps == [] then 0 else Sum(f, steps[..|steps| - 1]) + f(steps[|steps| - 1])
  }

  /** Tokens count for a DONE planner only, and only when positive. */
  function InputOf(s: Step): (n: nat) {
    if s.kind.PlannerResponse? && s.status.Done? && s.usage.Some? && s.usage.value.input > 0 then s.usage.value.input
    else 0
  }

  function OutputOf(s: Step): (n: nat) {
    if s.kind.PlannerResponse? && s.status.Done? && s.usage.Some? && s.usage.value.output > 0 then s.usage.value.output
    else 0
  }

  function CacheOf(s: Step): (n: nat) {
    if s.kind.PlannerResponse? && s.status.Done? && s.usage.Some? && s.usage.value.cacheRead > 0
    then s.usage.value.cacheRead
    else 0
  }

  function Posted(n: Option<nat>): (r: nat) {
    if n.Some? then n.value else 0
  }

  /** `d`'s totals are no smaller than `e`'s, when both report usage. */
  predicate NoDrop(e: Event, d: Event) {
    e.SessionUsage? && d.SessionUsage? ==>
      Posted(e.input) <= Posted(d.input) && Posted(e.outputs) <= Posted(d.outputs)
          && Posted(e.cacheRead) <= Posted(d.cacheRead)
  }

  ghost predicate UsageMonotone(events: seq<Event>) {
    forall i, j :: 0 <= i < j < |events| ==> NoDrop(events[i], events[j])
  }

  ghost predicate UsageBelow(events: seq<Event>, c: Core) {
    forall e :: e in events && e.SessionUsage? ==>
      Posted(e.input) <= c.input && Posted(e.outputs) <= c.output && Posted(e.cacheRead) <= c.cacheRead
  }

  lemma {:induction false} MonotoneSnoc(events: seq<Event>, rest: seq<Event>, last: seq<Event>)
    requires UsageMonotone(events) && |last| <= 1
    requires forall e :: e in rest ==> !e.SessionUsage?
    requires forall e, d :: e in events && d in last ==> NoDrop(e, d)
    ensures UsageMonotone(events + (rest + last))
  {
    var all := events + (rest + last);
    forall i, j | 0 <= i < j < |all| ensures NoDrop(all[i], all[j]) {
      if j < |events| {
        assert all[i] == events[i] && all[j] == events[j];
      } else if j < |events| + |rest| {
        assert all[j] == rest[j - |events|];
      } else if i >= |events| {
        assert all[i] == rest[i - |events|];
      } else {
        assert all[i] == events[i] && all[j] == last[0];
      }
    }
  }

  /** Totals are sums over the kept steps, and posted totals never decrease. */
  lemma {:induction false} UsageConservation(env: Env, steps: seq<Step>)
    ensures CoreAfter(env, steps).input == Sum(InputOf, steps)
    ensures CoreAfter(env, steps).output == Sum(OutputOf, steps)
    ensures CoreAfter(env, steps).cacheRead == Sum(CacheOf, steps)
  {
    if steps != [] {
      UsageConservation(env, steps[..|steps| - 1]);
    }
  }

  /** Posted totals never decrease and never exceed the running totals. */
  lemma {:induction false} PostedUsageGrows(env: Env, steps: seq<Step>)
    ensures UsageMonotone(PostsOf(env, steps)) && UsageBelow(PostsOf(env, steps), CoreAfter(env, steps))
  {
    if steps != [] {
      var before, s := steps[..|steps| - 1], steps[|steps| - 1];
      var c := CoreAfter(env, before);
      PostedUsageGrows(env, before);
      var rest, last := UsageIsLast(env, c, s);
      UsageStep(PostsOf(env, before), rest, last, c, Next(env, c, s));
    }
  }

  lemma {:induction false} UsageStep(events: seq<Event>, rest: seq<Event>, last: seq<Event>, c: Core, c': Core)
    requires UsageMonotone(events) && UsageBelow(events, c)
    requires |last| <= 1 && forall e :: e in rest ==> !e.SessionUsage?
    requires c.input <= c'.input && c.output <= c'.output && c.cacheRead <= c'.cacheRead
    requires forall e :: e in last ==>
               && e.SessionUsage? && Posted(e.input) == c'.input
               && Posted(e.outputs) == c'.output && Posted(e.cacheRead) == c'.cacheRead
    ensures UsageMonotone(events + (rest + last)) && UsageBelow(events + (rest + last), c')
  {
    MonotoneSnoc(events, rest, last);
  }

  /** A step's posts split into events without totals and at most one total. */
  lemma {:induction false} UsageIsLast(env: Env, c: Core, s: Step) returns (rest: seq<Event>, last: seq<Event>)
    ensures |last| <= 1 && forall e :: e in rest ==> !e.SessionUsage?
    ensures forall e :: e in last ==>
              && e.SessionUsage? && Posted(e.input) == c.input + CallUsage(s).input
              && Posted(e.outputs) == c.output + CallUsage(s).output
                  && Posted(e.cacheRead) == c.cacheRead + CallUsage(s).cacheRead
    ensures Posts(env, c, s) == rest + last
  {
    var u := CallUsage(s);
    rest := Emitted(env.conversation, c.turnActive, c.alloc, s) + ModelEvents(env, c.model, s);
    last := UsageEvents(env, c.input + u.input, c.output + u.output, c.cacheRead + u.cacheRead, u);
    Assoc(Emitted(env.conversation, c.turnActive, c.alloc, s), ModelEvents(env, c.model, s), last);
  }

  // ------------------------------------------------------- tool-call pairing

  function OutputsFor(id: string, events: seq<Event>): (n: nat) {
    if events == [] then 0 else
      var e := events[|events| - 1];
      OutputsFor(id, events[..|events| - 1]) + if e.FunctionCallOutput? && e.callId == id then 1 else 0
  }

  /** Kept result steps stamped with the real id `id`, of any type, DONE or ERROR. */
  function ResultsFor(id: string, steps: seq<Step>): (n: nat) {
    if steps == [] then 0 else
      var s := steps[|steps| - 1];
      ResultsFor(id, steps[..|steps| - 1]) + if ClosesCall(s) && s.callId == Some(id) then 1 else 0
  }

  function RunOpsOf(steps: seq<Step>): (ops: seq<AllocOp>) {
    if steps == [] then [] else RunOpsOf(steps[..|steps| - 1]) + OpsOf(steps[|steps| - 1])
  }

  lemma {:induction false} OutputsForConcat(id: string, a: seq<Event>, b: seq<Event>)
    ensures OutputsFor(id, a + b) == OutputsFor(id, a) + OutputsFor(id, b)
  {
    if b == [] {
      assert a + b == a;
    } else {
      OutputsForConcat(id, a, b[..|b| - 1]);
      assert (a + b)[..|a + b| - 1] == a + b[..|b| - 1];
    }
  }

  lemma {:induction false} OutputsForNone(id: string, events: seq<Event>)
    requires forall e :: e in events ==> !e.FunctionCallOutput?
    ensures OutputsFor(id, events) == 0
  {
    if events != [] {
      OutputsForNone(id, events[..|events| - 1]);
    }
  }

  lemma {:induction false} OutputsOfParts(id: string, opening: seq<Event>, items: seq<Event>, closing: seq<Event>,
                                          rest: seq<Event>)
    requires forall e :: e in opening || e in closing || e in rest ==> !e.FunctionCallOutput?
    ensures OutputsFor(id, opening + items + closing + rest) == OutputsFor(id, items)
  {
    OutputsForConcat(id, opening + items + closing, rest);
    OutputsForConcat(id, opening + items, closing);
    OutputsForConcat(id, opening, items);
    OutputsForNone(id, opening);
    OutputsForNone(id, closing);
    OutputsForNone(id, rest);
  }

  lemma {:induction false} OutputsSnoc(env: Env, steps: seq<Step>, id: string)
    requires steps != []
    ensures var before, s := steps[..|steps| - 1], steps[|steps| - 1];
            OutputsFor(id, PostsOf(env, steps)) ==
            OutputsFor(id, PostsOf(env, before))
                + OutputsFor(id, MapStep(env.conversation, s, CoreAfter(env, before).alloc).0)
  {
    var before, s := steps[..|steps| - 1], steps[|steps| - 1];
    var c := CoreAfter(env, before);
    OutputsOfParts(id, Opening(c.turnActive, s), MapStep(env.conversation, s, c.alloc).0, Closing(c.turnActive, s),
                   TelemetryEvents(env, c, s));
    OutputsForConcat(id, PostsOf(env, before), Posts(env, c, s));
  }

  lemma {:induction false} OutputsOfMap(conversation: string, s: Step, a: Alloc, id: string)
    ensures OutputsFor(id, MapStep(conversation, s, a).0) ==
            (if ClosesCall(s) && s.callId == Some(id) then 1 else 0)
            + (if TakesFallbackId(s) && a.Match().1 == id then 1 else 0)
  {
    if !IsToolResult(s) {
      OutputsForNone(id, MapStep(conversation, s, a).0);
    }
  }

  lemma {:induction false} CountSnoc(s: seq<string>, x: string, id: string)
    ensures multiset(s + [x])[id] == multiset(s)[id] + if x == id then 1 else 0
  {
    assert multiset(s + [x]) == multiset(s) + multiset{x};
  }

  /** The run's allocator is the one reached by the kept steps' operations. */
  lemma {:induction false} AllocFollowsOps(env: Env, steps: seq<Step>)
    ensures CoreAfter(env, steps).alloc == RunOps(env.conversation, RunOpsOf(steps)).alloc
  {
    if steps != [] {
      AllocFollowsOps(env, steps[..|steps| - 1]);
      MapFollowsOps(env.conversation, RunOpsOf(steps[..|steps| - 1]), steps[|steps| - 1]);
    }
  }

  /**
   Every result is paired: an id receives one output per kept result step that
   carries it, plus one if the allocator handed it to an id-less result.
   */
  lemma {:induction false} ToolCallPairing(env: Env, steps: seq<Step>, id: string)
    ensures OutputsFor(id, PostsOf(env, steps)) ==
            ResultsFor(id, steps) + multiset(RunOps(env.conversation, RunOpsOf(steps)).outputs)[id]
  {
    if steps != [] {
      var before, s := steps[..|steps| - 1], steps[|steps| - 1];
      var run := RunOps(env.conversation, RunOpsOf(before));
      ToolCallPairing(env, before, id);
      AllocFollowsOps(env, before);
      MapFollowsOps(env.conversation, RunOpsOf(before), s);
      OutputsSnoc(env, steps, id);
      OutputsOfMap(env.conversation, s, run.alloc, id);
      CountSnoc(run.outputs, run.alloc.Match().1, id);
    }
  }

  /** An id outside the minted namespace gets exactly one output per kept result carrying it. */
  lemma {:induction false} RealIdPairing(env: Env, steps: seq<Step>, id: string)
    ensures ResultsFor(id, steps) <= OutputsFor(id, PostsOf(env, steps)) <= ResultsFor(id, steps) + 1
    ensures !(IdPrefix(env.conversation) <= id) ==> OutputsFor(id, PostsOf(env, steps)) == ResultsFor(id, steps)
  {
    ToolCallPairing(env, steps, id);
    OutputIdsDistinct(env.conversation, RunOpsOf(steps));
    AtMostOnce(RunOps(env.conversation, RunOpsOf(steps)).outputs, id);
  }

  lemma {:induction false} AtMostOnce(s: seq<string>, x: string)
    requires NoDuplicates(s)
    ensures multiset(s)[x] == if x in s then 1 else 0
  {
    if s != [] {
      var before := s[..|s| - 1];
      AtMostOnce(before, x);
      assert s == before + [s[|s| - 1]];
      CountSnoc(before, s[|s| - 1], x);
    }
  }
}

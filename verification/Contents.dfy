/**
 What a reader run posts, said from the fields of the steps it saw and nothing else
 (omnigent/antigravity_native_reader.py, omnigent/antigravity_native_steps.py): which
 sightings count, which texts, calls, results, edges, models and totals they give, and
 in which order.
 */
module Contents {
  import opened Common
  import opened Steps
  import opened Mapper
  import opened Mirror

  // ------------------------------------------------------ which sightings count

  /** Nothing more will come of the step: a user input, or any step that is DONE or ERROR. */
  predicate IsFinal(s: Step) {
    s.kind == UserInput || s.status == Done || s.status == Error
  }

  /** Two sightings of one step: same trajectory, and same index, or same discriminator without one. */
  predicate SameStep(s: Step, t: Step) {
    s.trajectory == t.trajectory && s.index == t.index && (s.index == None ==> s.discriminator == t.discriminator)
  }

  lemma {:induction false} KeysIdentifySteps(s: Step, t: Step)
    ensures KeyOf(s) == KeyOf(t) <==> SameStep(s, t)
  {
  }

  /** No final sighting of the step came before. */
  predicate IsNew(before: History, s: Step) {
    forall j :: 0 <= j < |before| && IsFinal(before[j].step) ==> !SameStep(before[j].step, s)
  }

  /** The first final sighting of each step, in order of arrival. */
  function Firsts(h: History): (steps: seq<Step>) {
    if h == [] then [] else
      var before, s := h[..|h| - 1], h[|h| - 1].step;
      Firsts(before) + if IsFinal(s) && IsNew(before, s) then [s] else []
  }

  lemma {:induction false} KeepsMeaning(h: History, n: nat)
    requires n < |h|
    ensures Keeps(h, n) <==> IsFinal(h[n].step) && IsNew(h[..n], h[n].step)
  {
    forall j | 0 <= j < n
      ensures h[..n][j] == h[j] && (KeyOf(h[j].step) == KeyOf(h[n].step) <==> SameStep(h[j].step, h[n].step))
    {
      KeysIdentifySteps(h[j].step, h[n].step);
    }
  }

  /** A run keeps exactly the first final sighting of each step, whatever other sightings of it came before. */
  lemma {:induction false} KeptAreFirsts(h: History)
    ensures Kept(h) == Firsts(h)
  {
    if h != [] {
      KeptAreFirsts(h[..|h| - 1]);
      KeepsMeaning(h, |h| - 1);
    }
  }

  // ------------------------------------------------------------- what they give

  /** One post as a reader of the conversation sees it, without its ids. */
  datatype Shown =
    | Edge(status: TurnStatus)
    | Said(role: Role, text: string)
    | Called(name: string, arguments: string)
    | Returned(text: string)
    | Model(name: string)
    | Totals(input: Option<nat>, output: Option<nat>, cacheRead: Option<nat>, model: Option<string>)

  function Show(e: Event): (s: Shown) {
    match e
    case Message(role, text, _) => Said(role, text)
    case FunctionCall(name, arguments, _, _) => Called(name, arguments)
    case FunctionCallOutput(_, output, _) => Returned(output)
    case SessionStatus(status) => Edge(status)
    case ModelChange(model) => Model(model)
    case SessionUsage(input, output, cacheRead, name) => Totals(input, output, cacheRead, name)
  }

  function ShowAll(events: seq<Event>): (r: seq<Shown>)
    ensures |r| == |events| && forall i :: 0 <= i < |r| ==> r[i] == Show(events[i])
  {
    seq(|events|, i requires 0 <= i < |events| => Show(events[i]))
  }

  lemma {:induction false} ShowConcat(a: seq<Event>, b: seq<Event>)
    ensures ShowAll(a + b) == ShowAll(a) + ShowAll(b)
  {
  }

  predicate NonEmpty(t: Option<string>) {
    t.Some? && t.value != ""
  }

  /** The calls of a planner that name a tool and whose arguments parse. */
  function CallsOf(calls: seq<ToolCall>): (r: seq<Shown>) {
    if calls == [] then [] else
      var c := calls[|calls| - 1];
      CallsOf(calls[..|calls| - 1]) +
      if c.ToolCall? && NonEmpty(c.name) && c.arguments.Some? then [Called(c.name.value, c.arguments.value)] else []
  }

  /** What a planner says: its moderated text if there is any, else its response. */
  function Answer(p: Planner): (r: seq<Shown>) {
    if NonEmpty(p.modified) then [Said(Assistant, p.modified.value)]
    else if NonEmpty(p.response) then [Said(Assistant, p.response.value)]
    else []
  }

  function Failure(p: Option<Planner>): (r: seq<Shown>) {
    if p.Some? && p.value.error != "" then
      [Said(Assistant, "[antigravity: the model did not complete this turn (status ERROR): " + p.value.error + "]")]
    else [Said(Assistant, "[antigravity: the model did not complete this turn (status ERROR)]")]
  }

  predicate HasExtractor(s: Step) {
    s.kind == RunCommand || s.kind == ListDirectory || s.kind == AskQuestion
  }

  /** The text a finished tool step returns: its output, an error marker, or nothing. */
  function Result(s: Step): (text: string) {
    if HasExtractor(s) && s.output.Some? then s.output.value
    else if s.status != Error then ""
    else if NonEmpty(s.toolName) then "[antigravity: " + s.toolName.value + " did not complete (status ERROR)]"
    else "[antigravity: tool did not complete (status ERROR)]"
  }

  /** The conversation items of one step: a message comes before the calls it announces. */
  function ItemsOf(s: Step): (r: seq<Shown>) {
    match s.kind
    case UserInput => if s.userText == "" then [] else [Said(User, s.userText)]
    case PlannerResponse =>
      if s.status == Error then Failure(s.planner)
      else if s.status == Done && s.planner.Some? then Answer(s.planner.value) + CallsOf(s.planner.value.toolCalls)
      else []
    case NoType => []
    case _ => if (HasExtractor(s) || s.callId.Some?)
        && (s.status == Done || s.status == Error) then [Returned(Result(s))] else []
  }

  lemma {:induction false} CallsShown(response: ResponseId, calls: seq<ToolCall>, a: Alloc)
    ensures ShowAll(FunctionCalls(response, calls, a).0) == CallsOf(calls)
  {
    if calls != [] {
      CallsShown(response, calls[..|calls| - 1], a);
      var events := FunctionCalls(response, calls[..|calls| - 1], a).0;
      var all := FunctionCalls(response, calls, a).0;
      if IsValidCall(calls[|calls| - 1]) {
        ShowConcat(events, [all[|all| - 1]]);
        assert all == events + [all[|all| - 1]];
      }
    }
  }

  /** The mapper gives exactly the items the step's fields call for, in their order. */
  lemma {:induction false} StepShown(conversation: string, s: Step, a: Alloc)
    ensures ShowAll(MapStep(conversation, s, a).0) == ItemsOf(s)
  {
    if s.kind.PlannerResponse? && s.status.Done? && s.planner.Some? {
      var response := ResponseId(conversation, IndexOrZero(s));
      var calls := FunctionCalls(response, s.planner.value.toolCalls, a).0;
      CallsShown(response, s.planner.value.toolCalls, a);
      var text := PlannerText(s.planner.value);
      ShowConcat(if HasText(text) then [Message(Assistant, text.value, Some(response))] else [], calls);
    } else if s.kind.PlannerResponse? && s.status.Error? {
      MarkerText(s.planner);
    }
  }

  lemma {:induction false} MarkerText(p: Option<Planner>)
    ensures [Said(Assistant, ErrorText(p))] == Failure(p)
  {
    var head := "[antigravity: the model did not complete this turn (status ERROR)";
    if p.Some? && p.value.error != "" {
      assert head + (": " + p.value.error) + "]" ==
             "[antigravity: the model did not complete this turn (status ERROR): " + p.value.error + "]";
    } else {
      assert head + "" + "]" == "[antigravity: the model did not complete this turn (status ERROR)]";
    }
  }

  // ------------------------------------------------------ edges, models, totals

  /** A turn opens on a user input when none is open, and closes on a planner that failed or called no tool. */
  ghost function Opened(before: seq<Step>, s: Step): (r: seq<Shown>) {
    if s.kind == UserInput && !TurnOpen(before) then [Edge(Running)] else []
  }

  ghost function Closed(before: seq<Step>, s: Step): (r: seq<Shown>) {
    if s.kind != PlannerResponse || !TurnOpen(before) then []
    else if s.status == Error then [Edge(Failed)]
    else if s.status == Done && (s.planner.Some? ==> s.planner.value.toolCalls == []) then [Edge(Idle)]
    else []
  }

  function Named(env: Env, model: string): (name: string) {
    if model in env.catalog then env.catalog[model] else model
  }

  /** The model last asked for. */
  function LastAsked(steps: seq<Step>): (m: Option<string>) {
    if steps == [] then None
    else if steps[|steps| - 1].kind == UserInput
        && steps[|steps| - 1].requestedModel.Some? then steps[|steps| - 1].requestedModel
    else LastAsked(steps[..|steps| - 1])
  }

  /** A user input that asks for another model than the last one asked for. */
  function ModelOf(env: Env, before: seq<Step>, s: Step): (r: seq<Shown>) {
    if s.kind == UserInput && s.requestedModel.Some? && s.requestedModel != LastAsked(before)
    then [Model(Named(env, s.requestedModel.value))] else []
  }

  function Positive(n: nat): (r: Option<nat>) {
    if n == 0 then None else Some(n)
  }

  /** A DONE planner that reports tokens or a model gives the totals so far, its own included. */
  function TotalsOf(env: Env, before: seq<Step>, s: Step): (r: seq<Shown>) {
    if s.kind != PlannerResponse || s.status != Done || s.usage.None? then []
    else
      var u := s.usage.value;
      if u.input <= 0 && u.output <= 0 && u.cacheRead <= 0 && !NonEmpty(u.model) then []
      else [Totals(Positive(Sum(InputOf, before) + InputOf(s)), Positive(Sum(OutputOf, before) + OutputOf(s)),
                   Positive(Sum(CacheOf, before) + CacheOf(s)),
                   if NonEmpty(u.model) then Some(Named(env, u.model.value)) else None)]
  }

  /** Everything one step gives after the steps before it, in posting order. */
  ghost function Gives(env: Env, before: seq<Step>, s: Step): (r: seq<Shown>) {
    Opened(before, s) + ItemsOf(s) + Closed(before, s) + (ModelOf(env, before, s) + TotalsOf(env, before, s))
  }

  ghost function GivesAll(env: Env, steps: seq<Step>): (r: seq<Shown>) {
    if steps == [] then [] else
      GivesAll(env, steps[..|steps| - 1]) + Gives(env, steps[..|steps| - 1], steps[|steps| - 1])
  }

  lemma {:induction false} ModelMeaning(env: Env, steps: seq<Step>)
    ensures CoreAfter(env, steps).model == LastAsked(steps)
  {
    if steps != [] {
      ModelMeaning(env, steps[..|steps| - 1]);
    }
  }

  lemma {:induction false} EdgesShown(active: bool, before: seq<Step>, s: Step)
    requires active <==> TurnOpen(before)
    ensures ShowAll(Opening(active, s)) == Opened(before, s) && ShowAll(Closing(active, s)) == Closed(before, s)
  {
    TurnCloseMeaning(s);
  }

  lemma {:induction false} TelemetryShown(env: Env, c: Core, before: seq<Step>, s: Step)
    requires c.model == LastAsked(before) && c.input == Sum(InputOf, before)
    requires c.output == Sum(OutputOf, before) && c.cacheRead == Sum(CacheOf, before)
    ensures ShowAll(TelemetryEvents(env, c, s)) == ModelOf(env, before, s) + TotalsOf(env, before, s)
  {
    var u := CallUsage(s);
    assert u.input == InputOf(s) && u.output == OutputOf(s) && u.cacheRead == CacheOf(s);
    var model := ModelEvents(env, c.model, s);
    var totals := UsageEvents(env, c.input + u.input, c.output + u.output, c.cacheRead + u.cacheRead, u);
    ShowConcat(model, totals);
    assert ShowAll(model) == ModelOf(env, before, s);
    assert ShowAll(totals) == TotalsOf(env, before, s);
  }

  lemma {:induction false} PostsShown(env: Env, before: seq<Step>, s: Step)
    ensures ShowAll(Posts(env, CoreAfter(env, before), s)) == Gives(env, before, s)
  {
    var c := CoreAfter(env, before);
    TurnActiveMeaning(env, before);
    ModelMeaning(env, before);
    UsageConservation(env, before);
    EdgesShown(c.turnActive, before, s);
    StepShown(env.conversation, s, c.alloc);
    TelemetryShown(env, c, before, s);
    var items := MapStep(env.conversation, s, c.alloc).0;
    ShowConcat(Opening(c.turnActive, s) + items + Closing(c.turnActive, s), TelemetryEvents(env, c, s));
    ShowConcat(Opening(c.turnActive, s) + items, Closing(c.turnActive, s));
    ShowConcat(Opening(c.turnActive, s), items);
  }

  lemma {:induction false} RunShown(env: Env, steps: seq<Step>)
    ensures ShowAll(PostsOf(env, steps)) == GivesAll(env, steps)
  {
    if steps != [] {
      var before, s := steps[..|steps| - 1], steps[|steps| - 1];
      RunShown(env, before);
      PostsShown(env, before, s);
      ShowConcat(PostsOf(env, before), Posts(env, CoreAfter(env, before), s));
    }
  }

  /**
   Everything a run posts, in order and read without ids, is what the first final sighting
   of each step gives by its fields.
   */
  lemma {:induction false} RunContents(env: Env, h: History)
    ensures ShowAll(PostsOf(env, Kept(h))) == GivesAll(env, Firsts(h))
  {
    KeptAreFirsts(h);
    RunShown(env, Firsts(h));
  }

  // ----------------------------------------------------------- one step of a run

  lemma {:induction false} FirstsExtend(h: History, i: nat)
    requires i < |h|
    ensures Firsts(h[..i + 1]) <= Firsts(h)
    decreases |h|
  {
    var n := |h| - 1;
    if i == n {
      assert h[..i + 1] == h;
    } else {
      FirstsExtend(h[..n], i);
      assert h[..n][..i + 1] == h[..i + 1];
    }
  }

  lemma {:induction false} GivesExtend(env: Env, steps: seq<Step>, n: nat)
    requires n <= |steps|
    ensures GivesAll(env, steps[..n]) <= GivesAll(env, steps)
    decreases |steps|
  {
    if n == |steps| {
      assert steps[..n] == steps;
    } else {
      GivesExtend(env, steps[..|steps| - 1], n);
      assert steps[..|steps| - 1][..n] == steps[..n];
    }
  }

  lemma {:induction false} FirstsAt(h: History, i: nat)
    requires i < |h| && IsFinal(h[i].step) && IsNew(h[..i], h[i].step)
    ensures Firsts(h[..i + 1]) == Firsts(h[..i]) + [h[i].step]
  {
    assert h[..i + 1][..i] == h[..i];
  }

  lemma {:induction false} GivesSnoc(env: Env, before: seq<Step>, s: Step)
    ensures GivesAll(env, before + [s]) == GivesAll(env, before) + Gives(env, before, s)
  {
    assert (before + [s])[..|before|] == before;
  }

  lemma {:induction false} GivesSplit(env: Env, steps: seq<Step>, before: seq<Step>, s: Step)
    returns (pre: seq<Shown>, post: seq<Shown>)
    requires before + [s] <= steps
    ensures GivesAll(env, steps) == pre + ItemsOf(s) + post
  {
    assert steps[..|before| + 1] == before + [s];
    GivesExtend(env, steps, |before| + 1);
    GivesSnoc(env, before, s);
    pre, post := Cut(GivesAll(env, steps), GivesAll(env, before), Opened(before, s), ItemsOf(s), Closed(before, s),
                     ModelOf(env, before, s) + TotalsOf(env, before, s));
  }

  lemma {:induction false} Cut(all: seq<Shown>, a: seq<Shown>, b: seq<Shown>, c: seq<Shown>, d: seq<Shown>,
                               e: seq<Shown>)
    returns (pre: seq<Shown>, post: seq<Shown>)
    requires a + (b + c + d + e) <= all
    ensures all == pre + c + post
  {
    pre := a + b;
    post := all[|pre| + |c|..];
    assert (a + (b + c + d + e))[..|pre| + |c|] == pre + c;
  }

  /** The items of the first final sighting of a step are posted, whatever other sightings came before or after. */
  lemma {:induction false} FirstFinalIsPosted(env: Env, h: History, i: nat) returns (pre: seq<Shown>, post: seq<Shown>)
    requires i < |h| && IsFinal(h[i].step) && IsNew(h[..i], h[i].step)
    ensures ShowAll(PostsOf(env, Kept(h))) == pre + ItemsOf(h[i].step) + post
  {
    FirstsAt(h, i);
    FirstsExtend(h, i);
    RunContents(env, h);
    pre, post := GivesSplit(env, Firsts(h), Firsts(h[..i]), h[i].step);
  }

  /** A user message carries no response id; every other item is filed under its step's index, or zero without one. */
  lemma {:induction false} ResponseIds(conversation: string, s: Step, a: Alloc, e: Event)
    requires e in MapStep(conversation, s, a).0
    ensures e.response ==
            if s.kind == UserInput then None
            else Some(ResponseId(conversation, if s.index.Some? then s.index.value else 0))
  {
    if s.kind.PlannerResponse? && s.status.Done? && s.planner.Some? {
      CallResponses(ResponseId(conversation, IndexOrZero(s)), s.planner.value.toolCalls, a);
    }
  }

  lemma {:induction false} CallResponses(response: ResponseId, calls: seq<ToolCall>, a: Alloc)
    ensures forall e :: e in FunctionCalls(response, calls, a).0 ==> e.response == Some(response)
  {
    if calls != [] {
      CallResponses(response, calls[..|calls| - 1], a);
    }
  }
}

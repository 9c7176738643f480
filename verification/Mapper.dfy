/**
 `map_step_to_events` and the step predicates the read driver keys on
 (omnigent/antigravity_native_steps.py, omnigent/antigravity_native_reader.py).
 */
module Mapper {
  import opened Common
  import opened Steps

  // ------------------------------------------------------------ the mapping

  predicate IsKnownResult(kind: StepType) {
    kind.RunCommand? || kind.ListDirectory? || kind.AskQuestion?
  }

  /** Steps that close a tool call once they are terminal. */
  predicate IsToolResult(s: Step) {
    && !s.kind.NoType? && !s.kind.UserInput? && !s.kind.PlannerResponse?
    && (IsKnownResult(s.kind) || s.callId.Some?)
  }

  predicate IsTerminal(status: StepStatus) {
    status.Done? || status.Error?
  }

  predicate ClosesCall(s: Step) {
    IsToolResult(s) && IsTerminal(s.status)
  }

  /** A result step without agy's own call id: paired by the allocator instead. */
  predicate TakesFallbackId(s: Step) {
    ClosesCall(s) && s.callId.None?
  }

  predicate HasText(t: Option<string>) {
    t.Some? && t.value != ""
  }

  function PlannerText(p: Planner): (t: Option<string>) {
    if HasText(p.modified) then p.modified else p.response
  }

  function ErrorText(p: Option<Planner>): (t: string) {
    "[antigravity: the model did not complete this turn (status ERROR)" +
    (if p.Some? && p.value.error != "" then ": " + p.value.error else "") + "]"
  }

  function ToolErrorText(name: Option<string>): (t: string) {
    if HasText(name) then "[antigravity: " + name.value + " did not complete (status ERROR)]"
    else "[antigravity: tool did not complete (status ERROR)]"
  }

  predicate IsValidCall(c: ToolCall) {
    c.ToolCall? && HasText(c.name) && c.arguments.Some?
  }

  /** Function-call items of a DONE planner, threading the allocator through id-less calls. */
  function FunctionCalls(response: ResponseId, calls: seq<ToolCall>, a: Alloc): (r: (seq<Event>, Alloc))
    ensures forall e :: e in r.0 ==> e.FunctionCall?
  {
    if calls == [] then ([], a) else
      var (events, b) := FunctionCalls(response, calls[..|calls| - 1], a);
      var c := calls[|calls| - 1];
      if !IsValidCall(c) then (events, b)
      else if HasText(c.id) then
        (events + [FunctionCall(c.name.value, c.arguments.value, c.id.value, Some(response))], b)
      else
        var (b', id) := b.Claim();
        (events + [FunctionCall(c.name.value, c.arguments.value, id, Some(response))], b')
  }

  function ResultText(s: Step): (t: string) {
    if IsKnownResult(s.kind) && s.output.Some? then s.output.value
    else if s.status.Error? then ToolErrorText(s.toolName)
    else ""
  }

  function PlannerEvents(conversation: string, s: Step, a: Alloc): (r: (seq<Event>, Alloc))
    ensures forall e :: e in r.0 ==> e.Message? || e.FunctionCall?
  {
    var response := ResponseId(conversation, IndexOrZero(s));
    if s.status.Error? then ([Message(Assistant, ErrorText(s.planner), Some(response))], a)
    else if !s.status.Done? || s.planner.None? then ([], a)
    else
      var text := PlannerText(s.planner.value);
      var message := if HasText(text) then [Message(Assistant, text.value, Some(response))] else [];
      var (calls, b) := FunctionCalls(response, s.planner.value.toolCalls, a);
      (message + calls, b)
  }

  /** What one step contributes to the transcript, and the allocator afterwards. */
  function MapStep(conversation: string, s: Step, a: Alloc): (r: (seq<Event>, Alloc))
    ensures forall e :: e in r.0 ==> IsItem(e)
    ensures forall e :: e in r.0 && e.FunctionCallOutput? ==> IsToolResult(s)
  {
    if s.kind.UserInput? then
      (if s.userText == "" then [] else [Message(User, s.userText, None)], a)
    else if s.kind.PlannerResponse? then PlannerEvents(conversation, s, a)
    else if ClosesCall(s) then
      var (b, id) := if s.callId.Some? then (a, s.callId.value) else a.Match();
      ([FunctionCallOutput(id, ResultText(s), Some(ResponseId(conversation, IndexOrZero(s))))], b)
    else ([], a)
  }

  method FunctionCallEvents(response: ResponseId, calls: seq<ToolCall>, allocator: ToolCallIdAllocator)
    returns (events: seq<Event>)
    modifies allocator
    ensures (events, allocator.View()) == FunctionCalls(response, calls, old(allocator.View()))
  {
    events := [];
    for i := 0 to |calls|
      invariant (events, allocator.View()) == FunctionCalls(response, calls[..i], old(allocator.View()))
    {
      assert calls[..i + 1][..i] == calls[..i];
      var c := calls[i];
      if !IsValidCall(c) {
        continue;
      }
      var id;
      if HasText(c.id) {
        id := c.id.value;
      } else {
        id := allocator.ClaimCallId();
      }
      events := events + [FunctionCall(c.name.value, c.arguments.value, id, Some(response))];
    }
    assert calls[..|calls|] == calls;
  }

  /** The mapper as it runs: it mutates the run's single allocator. */
  method MapStepToEvents(conversation: string, s: Step, allocator: ToolCallIdAllocator) returns (events: seq<Event>)
    modifies allocator
    ensures (events, allocator.View()) == MapStep(conversation, s, old(allocator.View()))
  {
    if s.kind.NoType? {
      return [];
    }
    var response := ResponseId(conversation, IndexOrZero(s));
    if s.kind.UserInput? {
      return if s.userText == "" then [] else [Message(User, s.userText, None)];
    }
    if s.kind.PlannerResponse? {
      if s.status.Error? {
        return [Message(Assistant, ErrorText(s.planner), Some(response))];
      }
      events := [];
      if s.status.Done? && s.planner.Some? {
        var text := PlannerText(s.planner.value);
        if HasText(text) {
          events := [Message(Assistant, text.value, Some(response))];
        }
        var calls := FunctionCallEvents(response, s.planner.value.toolCalls, allocator);
        events := events + calls;
      }
      return;
    }
    if !(IsKnownResult(s.kind) || s.callId.Some?) || !IsTerminal(s.status) {
      return [];
    }
    var id;
    if s.callId.Some? {
      id := s.callId.value;
    } else {
      id := allocator.MatchOutputId();
    }
    events := [FunctionCallOutput(id, ResultText(s), Some(response))];
  }

  // ------------------------------------------------------- step predicates

  /** Identity of a step within one run (`_step_key`). */
  datatype Key = Key(trajectory: Option<string>, index: Option<int>, discriminator: Option<string>)

  function KeyOf(s: Step): (k: Key) {
    Key(s.trajectory, s.index, if s.index.Some? then None else s.discriminator)
  }

  /** Safe to record as seen: nothing more will come of this step. */
  predicate IsSettled(s: Step) {
    s.kind.UserInput? || IsTerminal(s.status)
  }

  predicate IsSpace(c: char) {
    || '\t' <= c <= '\r' || '\U{1c}' <= c <= ' ' || c == '\U{85}' || c == '\U{a0}' || c == '\U{1680}'
    || '\U{2000}' <= c <= '\U{200a}' || '\U{2028}' <= c <= '\U{2029}' || c == '\U{202f}'
    || c == '\U{205f}' || c == '\U{3000}'
  }

  /** Python's `not text.strip()`. */
  predicate IsBlank(t: string) {
    forall c :: c in t ==> IsSpace(c)
  }

  predicate IsAssistantTextClose(s: Step) {
    && s.status.Done? && s.kind.PlannerResponse? && s.planner.Some?
    && PlannerText(s.planner.value).Some? && !IsBlank(PlannerText(s.planner.value).value)
    && s.planner.value.toolCalls == []
  }

  predicate IsErrorPlanner(s: Step) {
    s.kind.PlannerResponse? && s.status.Error?
  }

  predicate IsTurnClose(s: Step) {
    if IsAssistantTextClose(s) then true
    else if !s.kind.PlannerResponse? then false
    else if s.status.Error? then true
    else if !s.status.Done? then false
    else !(s.planner.Some? && s.planner.value.toolCalls != [])
  }

  /** A turn closes on a planner that failed, or that finished without dispatching a tool. */
  lemma TurnCloseMeaning(s: Step)
    ensures IsTurnClose(s) <==>
            && s.kind.PlannerResponse?
            && (s.status.Error? || (s.status.Done? && (s.planner.Some? ==> s.planner.value.toolCalls == [])))
  {
  }

  /** An unsettled step contributes no item and touches no allocator state. */
  lemma UnsettledMapsToNothing(conversation: string, s: Step, a: Alloc)
    requires !IsSettled(s)
    ensures MapStep(conversation, s, a) == ([], a)
    ensures !IsTurnClose(s)
  {
  }

  // -------------------------------------------------- allocator use per step

  predicate ClaimsId(c: ToolCall) {
    IsValidCall(c) && !HasText(c.id)
  }

  function ClaimOps(calls: seq<ToolCall>): (ops: seq<AllocOp>) {
    if calls == [] then [] else
      ClaimOps(calls[..|calls| - 1]) + if ClaimsId(calls[|calls| - 1]) then [ClaimOp] else []
  }

  /** The allocator operations one step performs. */
  function OpsOf(s: Step): (ops: seq<AllocOp>) {
    if s.kind.PlannerResponse? && s.status.Done? && s.planner.Some? then ClaimOps(s.planner.value.toolCalls)
    else if TakesFallbackId(s) then [MatchOp]
    else []
  }

  lemma RunOpsSnoc(conversation: string, ops: seq<AllocOp>, op: AllocOp)
    ensures RunOps(conversation, ops + [op]) == RunOp(RunOps(conversation, ops), op)
  {
    assert (ops + [op])[..|ops + [op]| - 1] == ops;
  }

  lemma {:induction false} CallsFollowOps(conversation: string, ops: seq<AllocOp>, response: ResponseId,
                                          calls: seq<ToolCall>)
    ensures var before, after := RunOps(conversation, ops), RunOps(conversation, ops + ClaimOps(calls));
            && FunctionCalls(response, calls, before.alloc).1 == after.alloc
            && after.outputs == before.outputs
  {
    if calls == [] {
      assert ops + ClaimOps(calls) == ops;
    } else {
      var shorter := calls[..|calls| - 1];
      CallsFollowOps(conversation, ops, response, shorter);
      if ClaimsId(calls[|calls| - 1]) {
        RunOpsSnoc(conversation, ops + ClaimOps(shorter), ClaimOp);
        assert ops + ClaimOps(calls) == ops + ClaimOps(shorter) + [ClaimOp];
      } else {
        assert ops + ClaimOps(calls) == ops + ClaimOps(shorter);
      }
    }
  }

  /** Mapping a step advances the allocator by exactly that step's operations. */
  lemma {:induction false} MapFollowsOps(conversation: string, ops: seq<AllocOp>, s: Step)
    ensures var before, after := RunOps(conversation, ops), RunOps(conversation, ops + OpsOf(s));
            && MapStep(conversation, s, before.alloc).1 == after.alloc
            && after.outputs == if TakesFallbackId(s) then before.outputs + [before.alloc.Match().1] else before.outputs
  {
    if s.kind.PlannerResponse? && s.status.Done? && s.planner.Some? {
      CallsFollowOps(conversation, ops, ResponseId(conversation, IndexOrZero(s)), s.planner.value.toolCalls);
    } else if TakesFallbackId(s) {
      RunOpsSnoc(conversation, ops, MatchOp);
    } else {
      assert ops + OpsOf(s) == ops;
    }
  }

  // ------------------------------------------------- the calls, one by one

  function ValidCalls(calls: seq<ToolCall>): (r: seq<ToolCall>)
    ensures forall c :: c in r ==> IsValidCall(c)
  {
    if calls == [] then [] else
      ValidCalls(calls[..|calls| - 1]) + if IsValidCall(calls[|calls| - 1]) then [calls[|calls| - 1]] else []
  }

  /** How many of the calls have no id of their own. */
  function Idless(calls: seq<ToolCall>): (n: nat) {
    if calls == [] then 0 else Idless(calls[..|calls| - 1]) + if ClaimsId(calls[|calls| - 1]) then 1 else 0
  }

  /** The item of the `i`-th valid call: its own name and arguments, and its own id or the next claim. */
  ghost predicate CallItem(response: ResponseId, valid: seq<ToolCall>, a: Alloc, i: nat, e: Event)
    requires i < |valid| && IsValidCall(valid[i])
  {
    e == FunctionCall(valid[i].name.value, valid[i].arguments.value,
                      if HasText(valid[i].id) then valid[i].id.value
                          else ClaimId(a.conversation, a.claimed + Idless(valid[..i])),
                      Some(response))
  }

  ghost predicate CallItemsOk(response: ResponseId, valid: seq<ToolCall>, a: Alloc, events: seq<Event>)
    requires forall c :: c in valid ==> IsValidCall(c)
  {
    |events| == |valid| && forall i :: 0 <= i < |valid| ==> CallItem(response, valid, a, i, events[i])
  }

  /** One item per valid call, in order; id-less calls are numbered among themselves, invalid ones leave no trace. */
  lemma {:induction false} CallItems(response: ResponseId, calls: seq<ToolCall>, a: Alloc)
    ensures CallItemsOk(response, ValidCalls(calls), a, FunctionCalls(response, calls, a).0)
    ensures var b := FunctionCalls(response, calls, a).1;
            b.conversation == a.conversation && b.claimed == a.claimed + Idless(ValidCalls(calls))
  {
    if calls != [] {
      var before, c := calls[..|calls| - 1], calls[|calls| - 1];
      var (events, b) := FunctionCalls(response, before, a);
      CallItems(response, before, a);
      if IsValidCall(c) {
        var id := if HasText(c.id) then c.id.value else b.Claim().1;
        CallItemsSnoc(response, ValidCalls(before), c, a, events,
                      FunctionCall(c.name.value, c.arguments.value, id, Some(response)));
      } else {
        assert ValidCalls(before) + [] == ValidCalls(before);
      }
    }
  }

  lemma {:induction false} CallItemsSnoc(response: ResponseId, valid: seq<ToolCall>, c: ToolCall, a: Alloc,
                                         events: seq<Event>, e: Event)
    requires (forall v :: v in valid ==> IsValidCall(v)) && IsValidCall(c) && CallItemsOk(response, valid, a, events)
    requires e == FunctionCall(c.name.value, c.arguments.value,
                               if HasText(c.id) then c.id.value
                                   else ClaimId(a.conversation, a.claimed + Idless(valid)), Some(response))
    ensures CallItemsOk(response, valid + [c], a, events + [e])
    ensures Idless(valid + [c]) == Idless(valid) + if ClaimsId(c) then 1 else 0
  {
    var all := valid + [c];
    assert all[..|valid|] == valid;
    forall i | 0 <= i < |all| ensures CallItem(response, all, a, i, (events + [e])[i]) {
      if i < |valid| {
        assert all[..i] == valid[..i] && CallItem(response, valid, a, i, events[i]);
      }
    }
  }
}

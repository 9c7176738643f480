/**
 The step-to-item mapper and its FIFO tool-call id allocator
 (omnigent/antigravity_native_steps.py).

 A step is a parsed RPC dictionary: every field below is the value the source's
 extractors would return, so a field of the wrong JSON type is simply absent.
 */
module Steps {
  import opened Common

  datatype StepType =
    | UserInput
    | PlannerResponse
    | RunCommand
    | ListDirectory
    | AskQuestion
    | OtherType(name: string)
    | NoType // `type` missing or not a string

  datatype StepStatus = Done | Waiting | Error | Generating | OtherStatus(name: string)

  /** One `toolCalls` entry; `arguments` is None when `argumentsJson` does not parse. */
  datatype ToolCall = NotADict | ToolCall(name: Option<string>, arguments: Option<string>, id: Option<string>)

  datatype Planner = Planner(
    modified: Option<string>,
    response: Option<string>,
    thinking: Option<string>,
    toolCalls: seq<ToolCall>,
    error: string) // stripped error text, empty when there is none

  datatype Requested = NoRequest | AskRequest(spec: string) | PermissionRequest(spec: string) | UnknownRequest

  datatype Usage = Usage(input: int, output: int, cacheRead: int, model: Option<string>)

  datatype Step = Step(
    kind: StepType,
    status: StepStatus,
    trajectory: Option<string>,
    index: Option<int>,
    discriminator: Option<string>,
    userText: string,
    requestedModel: Option<string>,
    planner: Option<Planner>,
    callId: Option<string>,
    toolName: Option<string>,
    output: Option<string>,
    usage: Option<Usage>,
    requested: Requested)

  datatype ResponseId = ResponseId(conversation: string, step: int)
  datatype Role = User | Assistant
  datatype TurnStatus = Running | Idle | Failed
  datatype ElicitationId = ElicitationId(cascade: string, trajectory: string, index: int)

  datatype Event =
    | Message(role: Role, text: string, response: Option<ResponseId>)
    | FunctionCall(name: string, arguments: string, callId: string, response: Option<ResponseId>)
    | FunctionCallOutput(callId: string, output: string, response: Option<ResponseId>)
    | SessionStatus(status: TurnStatus)
    | ModelChange(model: string)
    | SessionUsage(input: Option<nat>, outputs: Option<nat>, cacheRead: Option<nat>, displayName: Option<string>)

  /** Which session-event endpoint payload an event is. */
  datatype EventClass = Item | Status | Telemetry

  function ClassOf(e: Event): (c: EventClass) {
    match e
    case Message(_, _, _) => Item
    case FunctionCall(_, _, _, _) => Item
    case FunctionCallOutput(_, _, _) => Item
    case SessionStatus(_) => Status
    case ModelChange(_) => Telemetry
    case SessionUsage(_, _, _, _) => Telemetry
  }

  /** `external_conversation_item` events, the ones the server never dedupes. */
  predicate IsItem(e: Event) {
    ClassOf(e) == Item
  }

  /** The events of one class, in posting order. */
  function Select(c: EventClass, events: seq<Event>): (r: seq<Event>) {
    if events == [] then [] else
      var e := events[|events| - 1];
      Select(c, events[..|events| - 1]) + if ClassOf(e) == c then [e] else []
  }

  lemma {:induction false} SelectConcat(c: EventClass, a: seq<Event>, b: seq<Event>)
    ensures Select(c, a + b) == Select(c, a) + Select(c, b)
  {
    if b == [] {
      assert a + b == a;
    } else {
      SelectConcat(c, a, b[..|b| - 1]);
      assert (a + b)[..|a + b| - 1] == a + b[..|b| - 1];
    }
  }

  lemma {:induction false} SelectUniform(c: EventClass, events: seq<Event>, other: EventClass)
    requires forall e :: e in events ==> ClassOf(e) == other
    ensures Select(c, events) == if c == other then events else []
  {
    if events != [] {
      var before := events[..|events| - 1];
      SelectUniform(c, before, other);
      assert events == before + [events[|events| - 1]];
    }
  }

  datatype InteractionKind = Question | Permission
  datatype Pending = Pending(kind: InteractionKind, trajectory: string, index: int, spec: string)

  function IndexOrZero(s: Step): (i: int) {
    if s.index.Some? then s.index.value else 0
  }

  /** A WAITING step's interaction; keyed on status, never on the request block alone. */
  function PendingOf(s: Step): (p: Option<Pending>)
    ensures p.Some? <==>
              && s.status.Waiting? && s.trajectory.Some?
              && (s.requested.AskRequest? || s.requested.PermissionRequest?)
    ensures p.Some? ==>
              && s.trajectory == Some(p.value.trajectory) && p.value.index == IndexOrZero(s)
              && s.requested.spec == p.value.spec && (p.value.kind.Question? <==> s.requested.AskRequest?)
  {
    if s.status != Waiting || s.trajectory.None? then None
    else match s.requested
      case AskRequest(spec) => Some(Pending(Question, s.trajectory.value, IndexOrZero(s), spec))
      case PermissionRequest(spec) => Some(Pending(Permission, s.trajectory.value, IndexOrZero(s), spec))
      case NoRequest => None
      case UnknownRequest => None
  }

  // ---------------------------------------------------------------- call ids

  function Digits(n: nat): (s: string)
    ensures |s| > 0 && forall c :: c in s ==> '0' <= c <= '9'
  {
    if n < 10 then [('0' as int + n) as char]
    else Digits(n / 10) + [('0' as int + n % 10) as char]
  }

  lemma {:induction false} DigitsInjective(m: nat, n: nat)
    ensures Digits(m) == Digits(n) ==> m == n
  {
    if m >= 10 && n >= 10 {
      var a, b := Digits(m / 10), Digits(n / 10);
      assert Digits(m)[..|a|] == a && Digits(n)[..|b|] == b;
      assert Digits(m)[|a|] == ('0' as int + m % 10) as char && Digits(n)[|b|] == ('0' as int + n % 10) as char;
      DigitsInjective(m / 10, n / 10);
    } else if m >= 10 {
      assert |Digits(n)| == 1 < |Digits(m)|;
    } else if n >= 10 {
      assert |Digits(m)| == 1 < |Digits(n)|;
    } else {
      assert Digits(m) == Digits(n) ==> Digits(m)[0] == Digits(n)[0];
    }
  }

  function IdPrefix(conversation: string): (s: string) {
    "agy_call_" + conversation + "_"
  }

  function ClaimId(conversation: string, n: nat): (s: string)
    ensures IdPrefix(conversation) <= s
  {
    IdPrefix(conversation) + Digits(n)
  }

  function OrphanId(conversation: string, n: nat): (s: string)
    ensures IdPrefix(conversation) <= s
  {
    IdPrefix(conversation) + ("orphan_" + Digits(n))
  }

  /** The first character after the minted prefix tells an orphan from a claim. */
  predicate LooksOrphan(conversation: string, id: string) {
    var k := |IdPrefix(conversation)|;
    |id| > k && id[k] == 'o'
  }

  lemma {:induction false} IdShapes(conversation: string, n: nat)
    ensures !LooksOrphan(conversation, ClaimId(conversation, n))
    ensures LooksOrphan(conversation, OrphanId(conversation, n))
  {
    var k := |IdPrefix(conversation)|;
    var digits := Digits(n);
    assert ClaimId(conversation, n)[k] == digits[0] && digits[0] in digits;
    assert OrphanId(conversation, n)[k] == ("orphan_" + digits)[0];
  }

  /** Minted ids never collide: not two claims, not two orphans, not one of each. */
  lemma {:induction false} MintedIdsDistinct(conversation: string, m: nat, n: nat)
    ensures ClaimId(conversation, m) == ClaimId(conversation, n) ==> m == n
    ensures OrphanId(conversation, m) == OrphanId(conversation, n) ==> m == n
    ensures ClaimId(conversation, m) != OrphanId(conversation, n)
  {
    var k := |IdPrefix(conversation)|;
    assert ClaimId(conversation, m)[k..] == Digits(m) && ClaimId(conversation, n)[k..] == Digits(n);
    assert OrphanId(conversation, m)[k..] == "orphan_" + Digits(m)
           && OrphanId(conversation, n)[k..] == "orphan_" + Digits(n);
    assert ("orphan_" + Digits(m))[7..] == Digits(m) && ("orphan_" + Digits(n))[7..] == Digits(n);
    DigitsInjective(m, n);
    IdShapes(conversation, m);
    IdShapes(conversation, n);
  }

  /** Abstract value of the allocator. */
  datatype Alloc = Alloc(conversation: string, claimed: nat, orphans: nat, pending: seq<string>) {

    /** The waiting ids are exactly the newest claims, oldest first. */
    ghost predicate Valid() {
      && |pending| <= claimed
      && forall i :: 0 <= i < |pending| ==> pending[i] == ClaimId(conversation, claimed - |pending| + i)
    }

    function Claim(): (r: (Alloc, string))
      ensures Valid() ==> r.0.Valid()
    {
      var id := ClaimId(conversation, claimed);
      (this.(claimed := claimed + 1, pending := pending + [id]), id)
    }

    function Match(): (r: (Alloc, string))
      ensures Valid() ==> r.0.Valid()
    {
      if pending != [] then (this.(pending := pending[1..]), pending[0])
      else (this.(orphans := orphans + 1), OrphanId(conversation, orphans))
    }
  }

  function FreshAlloc(conversation: string): (a: Alloc)
    ensures a.Valid()
  {
    Alloc(conversation, 0, 0, [])
  }

  class ToolCallIdAllocator {
    const conversationId: string
    var invocationCount: nat
    var orphanOutputCount: nat
    var pendingCallIds: seq<string>

    ghost function View(): (a: Alloc)
      reads this
    {
      Alloc(conversationId, invocationCount, orphanOutputCount, pendingCallIds)
    }

    constructor (conversationId: string)
      ensures View() == FreshAlloc(conversationId)
    {
      this.conversationId := conversationId;
      invocationCount := 0;
      orphanOutputCount := 0;
      pendingCallIds := [];
    }

    method ClaimCallId() returns (id: string)
      modifies this
      ensures (View(), id) == old(View()).Claim()
      ensures old(View().Valid()) ==> View().Valid()
    {
      id := ClaimId(conversationId, invocationCount);
      invocationCount := invocationCount + 1;
      pendingCallIds := pendingCallIds + [id];
    }

    method MatchOutputId() returns (id: string)
      modifies this
      ensures (View(), id) == old(View()).Match()
      ensures old(View().Valid()) ==> View().Valid()
    {
      if pendingCallIds != [] {
        id := pendingCallIds[0];
        pendingCallIds := pendingCallIds[1..];
      } else {
        id := OrphanId(conversationId, orphanOutputCount);
        orphanOutputCount := orphanOutputCount + 1;
      }
    }
  }

  // ----------------------------------------------------- allocator histories

  datatype AllocOp = ClaimOp | MatchOp

  /** Allocator state, ids handed to invocations and ids handed to results. */
  datatype AllocRun = AllocRun(alloc: Alloc, claims: seq<string>, outputs: seq<string>)

  function RunOp(before: AllocRun, op: AllocOp): (r: AllocRun) {
    match op
    case ClaimOp => var (a, id) := before.alloc.Claim(); AllocRun(a, before.claims + [id], before.outputs)
    case MatchOp => var (a, id) := before.alloc.Match(); AllocRun(a, before.claims, before.outputs + [id])
  }

  function RunOps(conversation: string, ops: seq<AllocOp>): (r: AllocRun) {
    if ops == [] then AllocRun(FreshAlloc(conversation), [], [])
    else RunOp(RunOps(conversation, ops[..|ops| - 1]), ops[|ops| - 1])
  }

  function Claims(conversation: string, n: nat): (s: seq<string>)
    ensures |s| == n && forall i :: 0 <= i < n ==> s[i] == ClaimId(conversation, i)
  {
    seq(n, i requires 0 <= i < n => ClaimId(conversation, i))
  }

  function Orphans(conversation: string, n: nat): (s: seq<string>)
    ensures |s| == n && forall i :: 0 <= i < n ==> s[i] == OrphanId(conversation, i)
  {
    seq(n, i requires 0 <= i < n => OrphanId(conversation, i))
  }

  /** The handed-out ids that are orphans (or that are not), in order. */
  function Part(conversation: string, orphan: bool, ids: seq<string>): (r: seq<string>)
    ensures forall id :: id in r <==> id in ids && LooksOrphan(conversation, id) == orphan
  {
    if ids == [] then [] else
      var rest := Part(conversation, orphan, ids[..|ids| - 1]);
      var id := ids[|ids| - 1];
      if LooksOrphan(conversation, id) == orphan then rest + [id] else rest
  }

  ghost predicate Fifo(conversation: string, r: AllocRun) {
    && r.alloc.Valid() && r.alloc.conversation == conversation
    && r.claims == Claims(conversation, r.alloc.claimed)
    && Part(conversation, false, r.outputs) == Claims(conversation, r.alloc.claimed - |r.alloc.pending|)
    && Part(conversation, true, r.outputs) == Orphans(conversation, r.alloc.orphans)
  }

  /**
   FIFO pairing over every history: claims are numbered in order; results take
   claimed ids in claim order, each once; the rest are orphans numbered in order.
   */
  lemma {:induction false} FifoPairing(conversation: string, ops: seq<AllocOp>)
    ensures Fifo(conversation, RunOps(conversation, ops))
  {
    if ops != [] {
      FifoPairing(conversation, ops[..|ops| - 1]);
      FifoStep(conversation, RunOps(conversation, ops[..|ops| - 1]), ops[|ops| - 1]);
    }
  }

  lemma {:induction false} FifoStep(conversation: string, before: AllocRun, op: AllocOp)
    requires Fifo(conversation, before)
    ensures Fifo(conversation, RunOp(before, op))
  {
    if op.ClaimOp? {
      FifoClaim(conversation, before);
    } else {
      FifoMatch(conversation, before);
    }
  }

  lemma {:induction false} FifoClaim(conversation: string, before: AllocRun)
    requires Fifo(conversation, before)
    ensures Fifo(conversation, RunOp(before, ClaimOp))
  {
    var r := RunOp(before, ClaimOp);
    assert r.claims == Claims(conversation, r.alloc.claimed);
  }

  lemma {:induction false} FifoMatch(conversation: string, before: AllocRun)
    requires Fifo(conversation, before)
    ensures Fifo(conversation, RunOp(before, MatchOp))
  {
    var r := RunOp(before, MatchOp);
    var id := before.alloc.Match().1;
    NextOutput(conversation, before);
    PartSnoc(conversation, before.outputs, id);
  }

  lemma {:induction false} PartSnoc(conversation: string, ids: seq<string>, id: string)
    ensures Part(conversation, false, ids + [id]) ==
            Part(conversation, false, ids) + if LooksOrphan(conversation, id) then [] else [id]
    ensures Part(conversation, true, ids + [id]) ==
            Part(conversation, true, ids) + if LooksOrphan(conversation, id) then [id] else []
  {
    assert (ids + [id])[..|ids|] == ids;
  }

  /** One more result extends exactly one of the two numbered id sequences. */
  lemma {:induction false} NextOutput(conversation: string, before: AllocRun)
    requires Fifo(conversation, before)
    ensures var (after, id) := before.alloc.Match();
            var matched := before.alloc.claimed - |before.alloc.pending|;
            if before.alloc.pending != [] then
              !LooksOrphan(conversation, id)
                  && Claims(conversation, matched + 1) == Claims(conversation, matched) + [id]
            else
              LooksOrphan(conversation, id)
                  && Orphans(conversation, after.orphans) == Orphans(conversation, before.alloc.orphans) + [id]
  {
    IdShapes(conversation, before.alloc.claimed - |before.alloc.pending|);
    IdShapes(conversation, before.alloc.orphans);
  }

  /** No id is handed to two results, and every id handed out is a minted one. */
  lemma {:induction false} OutputIdsDistinct(conversation: string, ops: seq<AllocOp>)
    ensures NoDuplicates(RunOps(conversation, ops).outputs)
    ensures forall id :: id in RunOps(conversation, ops).outputs ==> IdPrefix(conversation) <= id
  {
    if ops != [] {
      var before := RunOps(conversation, ops[..|ops| - 1]);
      OutputIdsDistinct(conversation, ops[..|ops| - 1]);
      FifoPairing(conversation, ops[..|ops| - 1]);
      NextOutputFresh(conversation, before);
      var id := before.alloc.Match().1;
      assert IdPrefix(conversation) <= id;
      assert RunOps(conversation, ops).outputs == before.outputs
             || RunOps(conversation, ops).outputs == before.outputs + [id];
    }
  }

  /** The id the next result takes has not been handed to a result before. */
  lemma {:induction false} NextOutputFresh(conversation: string, before: AllocRun)
    requires Fifo(conversation, before)
    ensures before.alloc.Match().1 !in before.outputs
  {
    var id := before.alloc.Match().1;
    var matched := before.alloc.claimed - |before.alloc.pending|;
    NextOutput(conversation, before);
    if before.alloc.pending != [] {
      forall j | 0 <= j < matched ensures Claims(conversation, matched)[j] != id {
        MintedIdsDistinct(conversation, j, matched);
      }
      assert id !in Part(conversation, false, before.outputs);
    } else {
      forall j | 0 <= j < before.alloc.orphans ensures Orphans(conversation, before.alloc.orphans)[j] != id {
        MintedIdsDistinct(conversation, j, before.alloc.orphans);
      }
      assert id !in Part(conversation, true, before.outputs);
    }
  }

  /** The formats of the two kinds of ids, and where their numbering starts. */
  lemma {:induction false} IdFormats(conversation: string, n: nat)
    ensures ClaimId(conversation, n) == "agy_call_" + conversation + "_" + Digits(n)
    ensures OrphanId(conversation, n) == "agy_call_" + conversation + "_orphan_" + Digits(n)
    ensures FreshAlloc(conversation).Claim().1 == "agy_call_" + conversation + "_0"
    ensures FreshAlloc(conversation).Match().1 == "agy_call_" + conversation + "_orphan_0"
  {
    assert Digits(0) == "0";
    assert OrphanId(conversation, n) == "agy_call_" + conversation + "_orphan_" + Digits(n);
    assert OrphanId(conversation, 0) == "agy_call_" + conversation + "_orphan_" + Digits(0);
  }
}

/**
 Cascade rotation (omnigent/antigravity_native_reader.py): choosing a newer root
 conversation from agy's summaries, the detector that polls for one, and the loop
 that adopts it or moves to a new Omnigent session. Timestamps are already parsed to
 integers; creating, binding and transferring a session is one step that may fail.
 */
module Rotation {
  import opened Common

  type Cascade = string
  type Session = string

  /** One `trajectorySummaries` value. A time is `None` when missing or unparseable. */
  datatype Summary = NotADict | Summary(root: bool, lastUserInput: Option<int>, lastModified: Option<int>)

  datatype Entry = Entry(id: Cascade, summary: Summary)

  /** A dictionary in insertion order: no id appears twice. */
  ghost predicate IsDict(entries: seq<Entry>) {
    forall i, j :: 0 <= i < j < |entries| ==> entries[i].id != entries[j].id
  }

  function SummaryActivity(s: Summary): (r: Option<int>)
    requires s.Summary?
  {
    if s.lastUserInput.Some? then s.lastUserInput else s.lastModified
  }

  // ---------------------------------------------------------------- detection

  /** A root cascade other than the bound one that has been used. */
  predicate Sibling(e: Entry, bound: Cascade) {
    e.summary.Summary? && e.summary.root && e.id != bound && SummaryActivity(e.summary).Some?
  }

  function ActivityOf(e: Entry): (a: int)
    requires e.summary.Summary? && SummaryActivity(e.summary).Some?
  {
    SummaryActivity(e.summary).value
  }

  /** The bound cascade is listed, and was last used before `a` if at all. */
  ghost predicate BoundOlder(entries: seq<Entry>, bound: Cascade, a: int) {
    exists i :: 0 <= i < |entries| && entries[i].id == bound && entries[i].summary.Summary?
                && (SummaryActivity(entries[i].summary).Some? ==> ActivityOf(entries[i]) < a)
  }

  /** Entry `k` is a sibling no sibling is newer than, the first of its equals. */
  ghost predicate Newest(entries: seq<Entry>, bound: Cascade, k: nat) {
    && k < |entries| && Sibling(entries[k], bound)
    && (forall j :: 0 <= j < |entries| && Sibling(entries[j], bound) ==>
        ActivityOf(entries[j]) <= ActivityOf(entries[k]))
    && (forall j :: 0 <= j < k && Sibling(entries[j], bound) ==> ActivityOf(entries[j]) < ActivityOf(entries[k]))
  }

  ghost predicate Rotated(entries: seq<Entry>, bound: Cascade, id: Cascade) {
    exists k: nat :: Newest(entries, bound, k) && entries[k].id == id
        && BoundOlder(entries, bound, ActivityOf(entries[k]))
  }

  /** What detection must return, without saying how. */
  ghost predicate Detects(entries: seq<Entry>, bound: Cascade, r: Option<Cascade>) {
    match r
    case Some(id) => Rotated(entries, bound, id)
    case None => forall j :: 0 <= j < |entries| && Sibling(entries[j], bound) ==>
        !BoundOlder(entries, bound, ActivityOf(entries[j]))
  }

  /** `summaries.get(id)`. */
  method Lookup(entries: seq<Entry>, id: Cascade) returns (r: Option<Summary>)
    ensures r.Some? ==> exists i :: 0 <= i < |entries| && entries[i] == Entry(id, r.value)
    ensures r.None? ==> forall i :: 0 <= i < |entries| ==> entries[i].id != id
  {
    for i := 0 to |entries|
      invariant forall j :: 0 <= j < i ==> entries[j].id != id
    {
      if entries[i].id == id {
        return Some(entries[i].summary);
      }
    }
    r := None;
  }

  /** The newest sibling, by a strict running maximum. */
  method NewestSibling(entries: seq<Entry>, bound: Cascade) returns (best: Option<nat>)
    ensures best.Some? ==> Newest(entries, bound, best.value)
    ensures best.None? ==> forall j :: 0 <= j < |entries| ==> !Sibling(entries[j], bound)
  {
    best := None;
    for i := 0 to |entries|
      invariant best.Some? ==> best.value < i && Sibling(entries[best.value], bound)
      invariant forall j :: 0 <= j < i && Sibling(entries[j], bound) ==>
                  best.Some? && ActivityOf(entries[j]) <= ActivityOf(entries[best.value])
                  && (j < best.value ==> ActivityOf(entries[j]) < ActivityOf(entries[best.value]))
    {
      if Sibling(entries[i], bound) && (best.None? || ActivityOf(entries[i]) > ActivityOf(entries[best.value])) {
        best := Some(i);
      }
    }
  }

  method DetectRotatedCascade(entries: seq<Entry>, bound: Cascade) returns (r: Option<Cascade>)
    requires IsDict(entries)
    ensures Detects(entries, bound, r)
  {
    r := None;
    var boundSummary := Lookup(entries, bound);
    if boundSummary.None? || boundSummary.value.NotADict? {
      return;
    }
    ghost var b :| 0 <= b < |entries| && entries[b] == Entry(bound, boundSummary.value);
    var boundActivity := SummaryActivity(boundSummary.value);
    var best := NewestSibling(entries, bound);
    if best.Some? {
      var newest := entries[best.value];
      if boundActivity.None? || ActivityOf(newest) > boundActivity.value {
        assert BoundOlder(entries, bound, ActivityOf(newest));
        r := Some(newest.id);
      }
    }
  }

  /** Detection is a function of the summaries. */
  lemma {:induction false} DetectionUnique(entries: seq<Entry>, bound: Cascade, r: Option<Cascade>, s: Option<Cascade>)
    requires Detects(entries, bound, r) && Detects(entries, bound, s)
    ensures r == s
  {
    if r.Some? && s.Some? {
      var k: nat :| Newest(entries, bound, k) && entries[k].id == r.value;
      var m: nat :| Newest(entries, bound, m) && entries[m].id == s.value;
      assert k == m;
    }
  }

  lemma {:induction false} BoundOlderAt(entries: seq<Entry>, k: nat, a: int)
    requires IsDict(entries) && k < |entries| && entries[k].summary.Summary?
    ensures BoundOlder(entries, entries[k].id, a) <==>
            (SummaryActivity(entries[k].summary).Some? ==> ActivityOf(entries[k]) < a)
  {
    if BoundOlder(entries, entries[k].id, a) {
      var i :| 0 <= i < |entries| && entries[i].id == entries[k].id && entries[i].summary.Summary?
               && (SummaryActivity(entries[i].summary).Some? ==> ActivityOf(entries[i]) < a);
      assert i == k;
    }
  }

  /** Nothing listed, the old bound cascade included, is newer than the detected one. */
  lemma {:induction false} DetectedDominates(entries: seq<Entry>, bound: Cascade, k: nat, j: nat)
    requires IsDict(entries) && Newest(entries, bound, k) && BoundOlder(entries, bound, ActivityOf(entries[k]))
    requires j < |entries| && Sibling(entries[j], entries[k].id)
    ensures ActivityOf(entries[j]) <= ActivityOf(entries[k])
  {
    if entries[j].id == bound {
      BoundOlderAt(entries, j, ActivityOf(entries[k]));
    }
  }

  /** Once bound to the detected cascade, the same summaries call for no further rotation. */
  lemma {:induction false} RedetectionIsStable(entries: seq<Entry>, bound: Cascade, id: Cascade)
    requires IsDict(entries) && Detects(entries, bound, Some(id))
    ensures Detects(entries, id, None) && id != bound
  {
    var k: nat :| Newest(entries, bound, k) && entries[k].id == id
        && BoundOlder(entries, bound, ActivityOf(entries[k]));
    forall j | 0 <= j < |entries| && Sibling(entries[j], id) ensures !BoundOlder(entries, id, ActivityOf(entries[j])) {
      DetectedDominates(entries, bound, k, j);
      BoundOlderAt(entries, k, ActivityOf(entries[j]));
    }
  }

  // -------------------------------------------- a bound cascade without activity

  /** An unused bound cascade does not block rotation: any used sibling wins, however old. */
  lemma {:induction false} UnusedBoundRotates(bound: Cascade, x: Cascade, t: int)
    requires x != bound
    ensures Detects([Entry(bound, Summary(true, None, None)), Entry(x, Summary(true, None, Some(t)))], bound, Some(x))
  {
    var entries := [Entry(bound, Summary(true, None, None)), Entry(x, Summary(true, None, Some(t)))];
    assert entries[0].id == bound && BoundOlder(entries, bound, t);
    assert Newest(entries, bound, 1);
  }

  /** For an unused bound cascade, nothing is detected if and only if no sibling was ever used. */
  lemma {:induction false} UnusedBoundBlocksIff(entries: seq<Entry>, b: nat)
    requires b < |entries| && entries[b].summary.Summary? && SummaryActivity(entries[b].summary).None?
    ensures Detects(entries, entries[b].id, None) <==>
            forall j :: 0 <= j < |entries| ==> !Sibling(entries[j], entries[b].id)
  {
    assert forall a :: BoundOlder(entries, entries[b].id, a);
  }

  /** Both were used, and the detected cascade strictly later. */
  ghost predicate StrictlyNewer(entries: seq<Entry>, b: nat, id: Cascade)
    requires b < |entries| && entries[b].summary.Summary?
  {
    SummaryActivity(entries[b].summary).Some? &&
    exists k :: 0 <= k < |entries| && entries[k].id == id && Sibling(entries[k], entries[b].id)
                && ActivityOf(entries[b]) < ActivityOf(entries[k])
  }

  /** A detected cascade is strictly newer than the bound one if and only if the bound one has an activity time. */
  lemma {:induction false} StrictlyNewerIff(entries: seq<Entry>, b: nat, id: Cascade)
    requires IsDict(entries) && b < |entries| && entries[b].summary.Summary?
    requires Detects(entries, entries[b].id, Some(id))
    ensures StrictlyNewer(entries, b, id) <==> SummaryActivity(entries[b].summary).Some?
  {
    var bound := entries[b].id;
    var k: nat :| Newest(entries, bound, k) && entries[k].id == id
        && BoundOlder(entries, bound, ActivityOf(entries[k]));
    BoundOlderAt(entries, b, ActivityOf(entries[k]));
  }

  // ---------------------------------------------------- detection on the fields

  /** When a summary was last used: by the user's last input if that is known, else by its last change. */
  function LastUsed(s: Summary): (t: Option<int>) {
    match s
    case NotADict => None
    case Summary(_, Some(t), _) => Some(t)
    case Summary(_, None, modified) => modified
  }

  /** Entry `k` is a used root conversation other than the bound one. */
  predicate IsRival(entries: seq<Entry>, bound: Cascade, k: int) {
    0 <= k < |entries| && entries[k].id != bound && entries[k].summary.Summary? && entries[k].summary.root
    && LastUsed(entries[k].summary).Some?
  }

  /** Entry `k` wins: a rival no rival was used after, and none listed earlier was used at the same time. */
  ghost predicate Wins(entries: seq<Entry>, bound: Cascade, k: int) {
    && IsRival(entries, bound, k)
    && forall j :: IsRival(entries, bound, j) ==>
         var t, u := LastUsed(entries[k].summary).value, LastUsed(entries[j].summary).value;
         u <= t && (j < k ==> u < t)
  }

  lemma {:induction false} RivalMeaning(entries: seq<Entry>, bound: Cascade, k: int)
    requires 0 <= k < |entries|
    ensures IsRival(entries, bound, k) <==> Sibling(entries[k], bound)
    ensures IsRival(entries, bound, k) ==> ActivityOf(entries[k]) == LastUsed(entries[k].summary).value
  {
  }

  lemma {:induction false} WinsMeaning(entries: seq<Entry>, bound: Cascade, k: nat)
    ensures Wins(entries, bound, k) <==> Newest(entries, bound, k)
  {
    forall j | 0 <= j < |entries|
      ensures IsRival(entries, bound, j) <==> Sibling(entries[j], bound)
      ensures IsRival(entries, bound, j) ==> ActivityOf(entries[j]) == LastUsed(entries[j].summary).value
    {
      RivalMeaning(entries, bound, j);
    }
  }

  /**
   Detection, by the fields: the bound conversation is listed, the detected one wins, and the
   bound one was never used or was used strictly earlier.
   */
  lemma {:induction false} DetectsMeaning(entries: seq<Entry>, b: nat, id: Cascade)
    requires IsDict(entries) && b < |entries| && entries[b].summary.Summary?
    ensures Detects(entries, entries[b].id, Some(id)) <==>
            exists k: nat :: Wins(entries, entries[b].id, k) && entries[k].id == id && UsedBefore(entries, b, k)
  {
    var bound := entries[b].id;
    forall k: nat
      ensures Wins(entries, bound, k) && UsedBefore(entries, b, k) <==>
              Newest(entries, bound, k) && BoundOlder(entries, bound, ActivityOf(entries[k]))
    {
      WinsMeaning(entries, bound, k);
      if Newest(entries, bound, k) {
        RivalMeaning(entries, bound, k);
        BoundOlderAt(entries, b, ActivityOf(entries[k]));
      }
    }
  }

  /** Entry `b` was never used, or strictly before entry `k`. */
  predicate UsedBefore(entries: seq<Entry>, b: nat, k: nat) {
    b < |entries| && k < |entries| && LastUsed(entries[k].summary).Some?
    && (LastUsed(entries[b].summary).Some? ==> LastUsed(entries[b].summary).value < LastUsed(entries[k].summary).value)
  }

  // ------------------------------------------------------------- the detector

  datatype Poll = FetchFailed | NoSummaries | Fetched(entries: seq<Entry>)

  ghost predicate WellFormed(polls: seq<Poll>) {
    forall i :: 0 <= i < |polls| && polls[i].Fetched? ==> IsDict(polls[i].entries)
  }

  /** This poll calls for a rotation to `id`. */
  ghost predicate Calls(p: Poll, bound: Cascade, skip: set<Cascade>, id: Cascade) {
    p.Fetched? && Detects(p.entries, bound, Some(id)) && id !in skip
  }

  /** The first poll that calls for a rotation decides; none, if none does. */
  ghost predicate Signals(polls: seq<Poll>, bound: Cascade, skip: set<Cascade>, r: Option<Cascade>) {
    match r
    case Some(id) => exists k :: 0 <= k < |polls| && Calls(polls[k], bound, skip, id) && Quiet(polls[..k], bound, skip)
    case None => Quiet(polls, bound, skip)
  }

  ghost predicate Quiet(polls: seq<Poll>, bound: Cascade, skip: set<Cascade>) {
    forall k, id :: 0 <= k < |polls| ==> !Calls(polls[k], bound, skip, id)
  }

  /** Polls until a rotation is signalled or the detector is cancelled. */
  method WatchForRotation(polls: seq<Poll>, bound: Cascade, skip: set<Cascade>) returns (r: Option<Cascade>)
    requires WellFormed(polls)
    ensures Signals(polls, bound, skip, r)
  {
    for k := 0 to |polls|
      invariant Quiet(polls[..k], bound, skip)
    {
      if polls[k].Fetched? {
        var detected := DetectRotatedCascade(polls[k].entries, bound);
        if detected.Some? && detected.value !in skip {
          assert Calls(polls[k], bound, skip, detected.value);
          return detected;
        }
        forall id ensures !Calls(polls[k], bound, skip, id) {
          if Detects(polls[k].entries, bound, Some(id)) {
            DetectionUnique(polls[k].entries, bound, detected, Some(id));
          }
        }
      }
      assert polls[..k + 1] == polls[..k] + [polls[k]];
    }
    assert polls[..|polls|] == polls;
    r := None;
  }

  // ----------------------------------------------------------------- the loop

  /**
   One `supervise_reader` pass: whether discovery resolved, the polls seen before the
   body ended, the committed steps it reports, and how a session rotation would go.
   */
  datatype Pass = Pass(discovered: bool, polls: seq<Poll>, committed: nat, rotation: Option<Session>)

  datatype Loop = Loop(current: Session, bridgeSession: Session, conversation: Cascade, failed: set<Cascade>)

  datatype Action =
    | Stop
    | Adopt(cascade: Cascade)
    | Rotate(cascade: Cascade, session: Session)
    | RotationFails(cascade: Cascade)

  /** What an action leaves behind in the loop's variables and the bridge state. */
  function Apply(l: Loop, a: Action): (r: Loop) {
    match a
    case Stop => l
    case Adopt(x) => l.(bridgeSession := l.current, conversation := x)
    case Rotate(x, s) => Loop(s, s, x, l.failed)
    case RotationFails(x) => l.(failed := l.failed + {x})
  }

  ghost predicate Signalled(p: Pass, l: Loop, r: Option<Cascade>) {
    p.discovered && Signals(p.polls, l.conversation, l.failed, r)
  }

  /** When a pass takes an action: adoption if nothing was committed, else a rotation that succeeds or fails. */
  ghost predicate Justifies(p: Pass, l: Loop, a: Action) {
    match a
    case Stop => !p.discovered || Signalled(p, l, None)
    case Adopt(x) => Signalled(p, l, Some(x)) && p.committed == 0
    case Rotate(x, s) => Signalled(p, l, Some(x)) && p.committed > 0 && p.rotation == Some(s)
    case RotationFails(x) => Signalled(p, l, Some(x)) && p.committed > 0 && p.rotation.None?
  }

  /** The state after a log of actions, one per pass. */
  function After(start: Loop, log: seq<Action>): (l: Loop) {
    if log == [] then start else Apply(After(start, log[..|log| - 1]), log[|log| - 1])
  }

  /** Each pass justifies its action in the state it found, and nothing follows a stop. */
  ghost predicate Justified(start: Loop, passes: seq<Pass>, log: seq<Action>) {
    log != [] ==>
      var before := log[..|log| - 1];
      && Justified(start, passes, before) && Stop !in before && |before| < |passes|
      && Justifies(passes[|before|], After(start, before), log[|before|])
  }

  /** The bridge state file. */
  class BridgeDir {
    var session: Session
    var conversation: Cascade

    constructor (session: Session, conversation: Cascade)
      ensures this.session == session && this.conversation == conversation
    {
      this.session, this.conversation := session, conversation;
    }
  }

  lemma {:induction false} JustifiedSnoc(start: Loop, passes: seq<Pass>, log: seq<Action>, a: Action)
    requires Justified(start, passes, log) && Stop !in log && |log| < |passes|
    requires Justifies(passes[|log|], After(start, log), a)
    ensures Justified(start, passes, log + [a]) && After(start, log + [a]) == Apply(After(start, log), a)
  {
    assert (log + [a])[..|log|] == log;
  }

  /** One pass of the loop, up to what it writes. */
  method OnePass(dir: BridgeDir, current: Session, failed: set<Cascade>, p: Pass)
    returns (current': Session, failed': set<Cascade>, a: Action)
    requires WellFormed(p.polls)
    modifies dir
    ensures Justifies(p, Loop(current, old(dir.session), old(dir.conversation), failed), a)
    ensures Loop(current', dir.session, dir.conversation, failed') ==
            Apply(Loop(current, old(dir.session), old(dir.conversation), failed), a)
  {
    current', failed', a := current, failed, Stop;
    if !p.discovered {
      return;
    }
    var signal := WatchForRotation(p.polls, dir.conversation, failed);
    if signal.None? {
      return;
    }
    var x := signal.value;
    if p.committed == 0 {
      dir.session, dir.conversation := current, x;
      a := Adopt(x);
    } else if p.rotation.Some? {
      current' := p.rotation.value;
      dir.session, dir.conversation := current', x;
      a := Rotate(x, current');
    } else {
      failed' := failed + {x};
      a := RotationFails(x);
    }
  }

  /** `run_reader_with_bridge`, up to any point: `passes` is a finite beginning of its life. */
  method RunReaderWithBridge(dir: BridgeDir, session: Session, passes: seq<Pass>)
    returns (current: Session, failed: set<Cascade>, log: seq<Action>)
    requires forall i :: 0 <= i < |passes| ==> WellFormed(passes[i].polls)
    modifies dir
    ensures Justified(Loop(session, old(dir.session), old(dir.conversation), {}), passes, log)
    ensures Loop(current, dir.session, dir.conversation, failed) ==
            After(Loop(session, old(dir.session), old(dir.conversation), {}), log)
    ensures |log| == |passes| || Stop in log
  {
    ghost var start := Loop(session, dir.session, dir.conversation, {});
    current, failed, log := session, {}, [];
    for i := 0 to |passes|
      invariant |log| == i && Justified(start, passes, log) && Stop !in log
      invariant Loop(current, dir.session, dir.conversation, failed) == After(start, log)
    {
      var a;
      current, failed, a := OnePass(dir, current, failed, passes[i]);
      JustifiedSnoc(start, passes, log, a);
      log := log + [a];
      if a.Stop? {
        return;
      }
    }
  }

  // ------------------------------------------------------------------ the laws

  /** At every loop head the bridge state names the session the loop serves. */
  lemma {:induction false} BridgeStateFollows(start: Loop, log: seq<Action>)
    requires start.bridgeSession == start.current
    ensures After(start, log).bridgeSession == After(start, log).current
  {
    if log != [] {
      BridgeStateFollows(start, log[..|log| - 1]);
    }
  }

  lemma {:induction false} FailedStays(start: Loop, log: seq<Action>, x: Cascade)
    requires RotationFails(x) in log
    ensures x in After(start, log).failed
  {
    var before, last := log[..|log| - 1], log[|log| - 1];
    assert log == before + [last];
    if last != RotationFails(x) {
      FailedStays(start, before, x);
    }
  }

  /** A cascade whose rotation failed is never attempted again, in any way. */
  lemma {:induction false} FailedRotationIsFinal(start: Loop, passes: seq<Pass>, log: seq<Action>, x: Cascade)
    requires Justified(start, passes, log) && log != [] && RotationFails(x) in log[..|log| - 1]
    ensures !log[|log| - 1].Stop? ==> log[|log| - 1].cascade != x
  {
    var before, last := log[..|log| - 1], log[|log| - 1];
    FailedStays(start, before, x);
    if !last.Stop? {
      NewTarget(passes[|before|], After(start, before), last);
    }
  }

  /** Whatever is adopted or rotated to is neither the bound cascade nor one that failed. */
  lemma {:induction false} NewTarget(p: Pass, l: Loop, a: Action)
    requires Justifies(p, l, a) && !a.Stop?
    ensures a.cascade != l.conversation && a.cascade !in l.failed
  {
    SignalNotSkipped(p.polls, l.conversation, l.failed, a.cascade);
  }

  lemma {:induction false} SignalNotSkipped(polls: seq<Poll>, bound: Cascade, skip: set<Cascade>, id: Cascade)
    requires Signals(polls, bound, skip, Some(id))
    ensures id !in skip && id != bound
  {
    var k :| 0 <= k < |polls| && Calls(polls[k], bound, skip, id);
    var m: nat :| Newest(polls[k].entries, bound, m) && polls[k].entries[m].id == id;
  }

  /** While a failed cascade stays the newest sibling, the reader keeps its binding. */
  lemma {:induction false} FailedNewestKeepsBinding(polls: seq<Poll>, bound: Cascade, skip: set<Cascade>)
    requires forall k :: 0 <= k < |polls| && polls[k].Fetched? ==>
               exists x :: x in skip && Detects(polls[k].entries, bound, Some(x))
    ensures Signals(polls, bound, skip, None)
  {
    forall k, id | 0 <= k < |polls| ensures !Calls(polls[k], bound, skip, id) {
      if Calls(polls[k], bound, skip, id) {
        var x :| x in skip && Detects(polls[k].entries, bound, Some(x));
        DetectionUnique(polls[k].entries, bound, Some(x), Some(id));
      }
    }
  }
}

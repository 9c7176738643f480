/**
 Dead-letter records over a forwarder's whole life: appends, rotations and any
 number of finished startup replays (omnigent/_native_post_delivery.py), with the
 re-POST of omnigent/codex_native_forwarder.py.
 */
module Startups {
  import opened Common
  import opened Delivery
  import opened DeadLetter

  predicate IsItemRecord(r: Record) {
    r.eventType == Some("external_conversation_item")
  }

  /** The forwarder's `_repost`: one attempt, classified for the record. */
  function ResultOf(isItem: bool, o: Outcome): (res: RepostResult) {
    match o
    case Response(status) =>
      if status < 400 then RepostResult(true, false, None) else RepostResult(false, false, Some(status))
    case Raised(error, _) => RepostResult(false, isItem && MayHaveBeenDelivered(error), None)
  }

  /** The attempt proves the server did not commit, and leaves the record worth retrying. */
  predicate Undelivered(retry: set<int>, o: Outcome) {
    match o
    case Response(status) => status >= 400 && status in retry
    case Raised(error, _) => NeverConnected(error)
  }

  /** A record after one re-POST: removed, or kept with its new classification. */
  function RecordFate(r: Record, o: Outcome): (rs: seq<Record>) {
    var res := ResultOf(IsItemRecord(r), o);
    if res.delivered then [] else [r.(ambiguous := Some(res.ambiguous), httpStatus := res.httpStatus)]
  }

  /** An item record stays replayable exactly after an attempt proven undelivered. */
  lemma FateReplayable(retry: set<int>, r: Record, o: Outcome)
    requires RecordReplayable(retry, r) && r.eventType == Some("external_conversation_item")
    ensures (exists r' :: RecordFate(r, o) == [r'] && RecordReplayable(retry, r')) <==> Undelivered(retry, o)
    ensures Undelivered(retry, o) ==> !Commits(o)
  {
    var res := ResultOf(true, o);
    if Undelivered(retry, o) {
      assert RecordFate(r, o) == [r.(ambiguous := Some(res.ambiguous), httpStatus := res.httpStatus)];
      assert RecordReplayable(retry, RecordFate(r, o)[0]);
    }
  }

  /** A re-POSTed record is dropped although nothing was committed exactly on a status below 400 outside 2xx. */
  lemma {:induction false} LostIff(r: Record, o: Outcome)
    ensures RecordFate(r, o) == [] && !Commits(o) <==> o.Response? && o.status < 400 && !(200 <= o.status < 300)
  {
  }

  /** A redirect loses the record. */
  lemma {:induction false} RedirectLosesRecord(r: Record)
    ensures RecordFate(r, Response(302)) == [] && !Commits(Response(302))
  {
    LostIff(r, Response(302));
  }

  // ---------------------------------------------------- one startup's effect

  /** One re-POST of a run: which event, and what happened to it. */
  datatype Try = Try(event: nat, outcome: Outcome)

  function TriesIn(retry: set<int>, entries: seq<Entry>, outs: seq<Outcome>): (tries: seq<Try>) {
    if entries == [] then [] else
      var before, e := entries[..|entries| - 1], entries[|entries| - 1];
      var j := Count(retry, before);
      TriesIn(retry, before, outs) + if Replayable(retry, e) && j < |outs| then [Try(e.record.event, outs[j])] else []
  }

  function Objects(rs: seq<Record>): (es: seq<Entry>)
    ensures |es| == |rs| && forall i :: 0 <= i < |es| ==> es[i] == Object(rs[i])
  {
    seq(|rs|, i requires 0 <= i < |rs| => Object(rs[i]))
  }

  /** The entries after a startup whose first re-POSTs went as `outs` says. */
  function Survivors(retry: set<int>, entries: seq<Entry>, outs: seq<Outcome>): (es: seq<Entry>) {
    if entries == [] then [] else
      var before, e := entries[..|entries| - 1], entries[|entries| - 1];
      var j := Count(retry, before);
      Survivors(retry, before, outs) +
      if Replayable(retry, e) && j < |outs| then Objects(RecordFate(e.record, outs[j])) else [e]
  }

  /** The re-POSTs made, with what happened to each. */
  function Tries(posted: seq<Record>, outs: seq<Outcome>): (tries: seq<Try>)
    requires |outs| == |posted|
    ensures |tries| == |posted| && forall j :: 0 <= j < |posted| ==> tries[j] == Try(posted[j].event, outs[j])
  {
    seq(|posted|, j requires 0 <= j < |posted| => Try(posted[j].event, outs[j]))
  }

  /** Re-POSTing a prefix of the replayable records makes exactly the tries of the specification. */
  lemma {:induction false} TriesMade(retry: set<int>, entries: seq<Entry>, outs: seq<Outcome>, n: nat)
    requires n == if Count(retry, entries) <= |outs| then Count(retry, entries) else |outs|
    ensures TriesIn(retry, entries, outs) == Tries(Candidates(retry, entries)[..n], outs[..n])
  {
    if entries != [] {
      var before, e := entries[..|entries| - 1], entries[|entries| - 1];
      var m := Count(retry, before);
      TriesMade(retry, before, outs, if m <= |outs| then m else |outs|);
      if Replayable(retry, e) && m < |outs| {
        var posted := Candidates(retry, before);
        assert posted[..m] == posted && (posted + [e.record])[..n] == posted + [e.record];
        assert outs[..n] == outs[..m] + [outs[m]];
        TriesSnoc(posted, outs[..m], e.record, outs[m]);
      } else {
        assert Candidates(retry, entries)[..n] == Candidates(retry, before)[..n];
      }
    }
  }

  lemma {:induction false} TriesSnoc(posted: seq<Record>, outs: seq<Outcome>, r: Record, o: Outcome)
    requires |outs| == |posted|
    ensures Tries(posted + [r], outs + [o]) == Tries(posted, outs) + [Try(r.event, o)]
  {
  }

  /** `results` are the forwarder's classification of re-POSTing `posted`. */
  ghost predicate Answers(posted: seq<Record>, outs: seq<Outcome>, results: seq<RepostResult>) {
    && |results| == |outs| == |posted|
    && forall j :: 0 <= j < |outs| ==> results[j] == ResultOf(IsItemRecord(posted[j]), outs[j])
  }

  /** Entries after re-POSTing a prefix of their replayable records are the survivors of its outcomes. */
  lemma {:induction false} ReplayLeavesSurvivors(retry: set<int>, entries: seq<Entry>, all: seq<Record>,
                                                 posted: seq<Record>, outs: seq<Outcome>, results: seq<RepostResult>)
    requires Answers(posted, outs, results) && Candidates(retry, entries) <= all && posted <= all
    ensures After(retry, entries, 0, results) == Survivors(retry, entries, outs)
  {
    if entries != [] {
      var before, e := entries[..|entries| - 1], entries[|entries| - 1];
      var n := Count(retry, before);
      ReplayLeavesSurvivors(retry, before, all, posted, outs, results);
      if Replayable(retry, e) && n < |outs| {
        assert Candidates(retry, entries)[n] == e.record == all[n] == posted[n];
        assert Fate(retry, e, n, results) == Objects(RecordFate(e.record, outs[n]));
      }
    }
  }

  /** A finished replay is one startup: the files are the survivors, the re-POSTs its tries. */
  lemma {:induction false} ReplayIsStartup(retry: set<int>, env: Surroundings, backup: seq<Entry>, current: seq<Entry>,
                                           backup': seq<Entry>, current': seq<Entry>, replayed: nat,
                                           posted: seq<Record>, outs: seq<Outcome>)
    requires Replayed(retry, env, backup, current, backup', current', replayed, posted)
    requires Answers(posted, outs, env.Results(posted))
    ensures backup' + current' == Survivors(retry, backup + current, outs)
    ensures Tries(posted, outs) == TriesIn(retry, backup + current, outs)
    ensures |outs| <= Count(retry, backup + current)
  {
    var both := backup + current;
    AfterConcat(retry, backup, current, both, 0, Count(retry, backup), env.Results(posted));
    ReplayLeavesSurvivors(retry, both, Candidates(retry, both), posted, outs, env.Results(posted));
    TriesMade(retry, both, outs, |outs|);
    assert Candidates(retry, both)[..|outs|] == posted && outs[..|outs|] == outs;
  }

  /** The forwarder's startup replay against a network: `net(j)` is what happens to its `j`-th re-POST. */
  method RunStartup(dir: DeadLetterDir, retry: set<int>, net: nat -> Outcome, late: nat -> bool,
                    maxRecords: Option<int>)
    returns (replayed: nat, tries: seq<Try>, ghost outs: seq<Outcome>)
    modifies dir
    ensures |outs| == |tries| && forall j :: 0 <= j < |outs| ==> outs[j] == tries[j].outcome == net(j)
    ensures var entries := EntriesOf(old(dir.backup)) + EntriesOf(old(dir.current));
            && EntriesOf(dir.backup) + EntriesOf(dir.current) == Survivors(retry, entries, outs)
            && tries == TriesIn(retry, entries, outs) && |outs| <= Count(retry, entries)
  {
    var env := Surroundings((j: nat, r: Record) => ResultOf(IsItemRecord(r), net(j)), late, maxRecords);
    ghost var b, c := EntriesOf(dir.backup), EntriesOf(dir.current);
    var posted;
    replayed, posted := dir.ReplayDeadLetters(retry, env);
    outs := seq(|posted|, j requires 0 <= j < |posted| => net(j));
    tries := seq(|posted|, j requires 0 <= j < |posted| => Try(posted[j].event, net(j)));
    ReplayIsStartup(retry, env, b, c, EntriesOf(dir.backup), EntriesOf(dir.current), replayed, posted, outs);
    assert tries == Tries(posted, outs);
  }

  // ------------------------------------------------------ one event's records

  function RecordsOf(entries: seq<Entry>, event: nat): (rs: seq<Record>) {
    if entries == [] then [] else
      var e := entries[|entries| - 1];
      RecordsOf(entries[..|entries| - 1], event) + if e.Object? && e.record.event == event then [e.record] else []
  }

  function OutcomesOf(tries: seq<Try>, event: nat): (outs: seq<Outcome>) {
    if tries == [] then [] else
      var last := tries[|tries| - 1];
      OutcomesOf(tries[..|tries| - 1], event) + if last.event == event then [last.outcome] else []
  }

  function CommitsIn(outs: seq<Outcome>): (n: nat) {
    if outs == [] then 0 else CommitsIn(outs[..|outs| - 1]) + if Commits(outs[|outs| - 1]) then 1 else 0
  }

  lemma {:induction false} RecordsConcat(a: seq<Entry>, b: seq<Entry>, event: nat)
    ensures RecordsOf(a + b, event) == RecordsOf(a, event) + RecordsOf(b, event)
  {
    if b == [] {
      assert a + b == a;
    } else {
      RecordsConcat(a, b[..|b| - 1], event);
      assert (a + b)[..|a + b| - 1] == a + b[..|b| - 1];
    }
  }

  lemma {:induction false} OutcomesConcat(a: seq<Try>, b: seq<Try>, event: nat)
    ensures OutcomesOf(a + b, event) == OutcomesOf(a, event) + OutcomesOf(b, event)
  {
    if b == [] {
      assert a + b == a;
    } else {
      OutcomesConcat(a, b[..|b| - 1], event);
      assert (a + b)[..|a + b| - 1] == a + b[..|b| - 1];
    }
  }

  lemma {:induction false} RecordsOfFate(r: Record, o: Outcome, event: nat)
    ensures RecordsOf(Objects(RecordFate(r, o)), event) == if r.event == event then RecordFate(r, o) else []
  {
  }

  /** What one startup does to one event: nothing, or one re-POST of its one record. */
  ghost predicate OneStartup(retry: set<int>, before: seq<Record>, outs: seq<Outcome>, after: seq<Record>) {
    || (outs == [] && after == before)
    || (|before| == 1 && RecordReplayable(retry, before[0]) && |outs| == 1 && after == RecordFate(before[0], outs[0]))
  }

  /** The last entry's share in what a startup does to one event. */
  lemma {:induction false} LastEntry(retry: set<int>, entries: seq<Entry>, outs: seq<Outcome>, event: nat)
    requires entries != []
    ensures var before, e := entries[..|entries| - 1], entries[|entries| - 1];
            var j := Count(retry, before);
            var own := if e.Object? && e.record.event == event then [e.record] else [];
            var tried := Replayable(retry, e) && j < |outs|;
            && RecordsOf(entries, event) == RecordsOf(before, event) + own
            && OutcomesOf(TriesIn(retry, entries, outs), event) ==
                 OutcomesOf(TriesIn(retry, before, outs), event) + (if tried && own != [] then [outs[j]] else [])
            && RecordsOf(Survivors(retry, entries, outs), event) ==
                 RecordsOf(Survivors(retry, before, outs), event)
                     + (if tried && own != [] then RecordFate(own[0], outs[j]) else own)
  {
    var before, e := entries[..|entries| - 1], entries[|entries| - 1];
    var j := Count(retry, before);
    if Replayable(retry, e) && j < |outs| {
      OutcomesConcat(TriesIn(retry, before, outs), [Try(e.record.event, outs[j])], event);
      RecordsConcat(Survivors(retry, before, outs), Objects(RecordFate(e.record, outs[j])), event);
      RecordsOfFate(e.record, outs[j], event);
    } else {
      assert TriesIn(retry, before, outs) + [] == TriesIn(retry, before, outs);
      RecordsConcat(Survivors(retry, before, outs), [e], event);
    }
  }

  lemma {:induction false} StartupPerEvent(retry: set<int>, entries: seq<Entry>, outs: seq<Outcome>, event: nat)
    requires |RecordsOf(entries, event)| <= 1
    ensures OneStartup(retry, RecordsOf(entries, event), OutcomesOf(TriesIn(retry, entries, outs), event),
                       RecordsOf(Survivors(retry, entries, outs), event))
  {
    if entries != [] {
      LastEntry(retry, entries, outs, event);
      StartupPerEvent(retry, entries[..|entries| - 1], outs, event);
    }
  }

  // -------------------------------------------------------- a forwarder's life

  /**
   Dead-letter entries (backup then current), the events dead-lettered so far
   (true for conversation items), every re-POST, and the server's commits.
   */
  datatype World = World(entries: seq<Entry>, known: map<nat, bool>, tries: seq<Try>, live: set<nat>)

  datatype Life =
    | Startup(outs: seq<Outcome>)
    | Letter(record: Record, committed: bool, rotatedOut: nat) // a live POST gave up on this event

  /** Appends name fresh events, and the record of an item the live POST committed does not say it was undelivered. */
  ghost predicate Honest(retry: set<int>, w: World, l: Life) {
    match l
    case Startup(outs) => |outs| <= Count(retry, w.entries)
    case Letter(r, committed, rotatedOut) =>
      && r.event !in w.known && rotatedOut <= |w.entries|
      && (committed && r.eventType == Some("external_conversation_item") ==> r.ambiguous != Some(false))
  }

  function Live(retry: set<int>, w: World, l: Life): (w': World) {
    match l
    case Startup(outs) =>
      w.(entries := Survivors(retry, w.entries, outs), tries := w.tries + TriesIn(retry, w.entries, outs))
    case Letter(r, committed, rotatedOut) =>
      w.(entries := (if rotatedOut <= |w.entries| then w.entries[rotatedOut..] else []) + [Object(r)],
         known := w.known[r.event := IsItemRecord(r)],
         live := if committed then w.live + {r.event} else w.live)
  }

  /** The replay method run as one startup of a life: the world's entries and tries follow what it does. */
  method ReplayInLife(dir: DeadLetterDir, retry: set<int>, net: nat -> Outcome, late: nat -> bool,
                      maxRecords: Option<int>,
                      ghost w: World)
    returns (tries: seq<Try>, ghost l: Life)
    requires w.entries == EntriesOf(dir.backup) + EntriesOf(dir.current)
    modifies dir
    ensures l.Startup? && Honest(retry, w, l) && forall j :: 0 <= j < |tries| ==> tries[j].outcome == net(j)
    ensures Live(retry, w, l) == w.(entries := EntriesOf(dir.backup) + EntriesOf(dir.current), tries := w.tries + tries)
  {
    var _, made, outcomes := RunStartup(dir, retry, net, late, maxRecords);
    tries, l := made, Startup(outcomes);
  }

  const BIRTH := World([], map[], [], {})

  function LiveAll(retry: set<int>, life: seq<Life>): (w: World) {
    if life == [] then BIRTH else Live(retry, LiveAll(retry, life[..|life| - 1]), life[|life| - 1])
  }

  ghost predicate HonestLife(retry: set<int>, life: seq<Life>) {
    life == [] || (HonestLife(retry, life[..|life| - 1])
                   && Honest(retry, LiveAll(retry, life[..|life| - 1]), life[|life| - 1]))
  }

  /** How often the server committed an event: once live if at all, and on replay. */
  function CommitsOf(w: World, event: nat): (n: nat) {
    (if event in w.live then 1 else 0) + CommitsIn(OutcomesOf(w.tries, event))
  }

  ghost predicate EventOk(retry: set<int>, w: World, event: nat) {
    var rs, outs := RecordsOf(w.entries, event), OutcomesOf(w.tries, event);
    && |rs| <= 1
    && (event !in w.known ==> rs == [] && outs == [] && event !in w.live)
    && (rs != [] ==> event in w.known && w.known[event] == IsItemRecord(rs[0]))
    && (event in w.known && w.known[event] ==> ItemOk(retry, rs, outs, CommitsOf(w, event)))
  }

  /** Only the last attempt may be anything but proven undelivered, and then nothing replayable is left. */
  ghost predicate ItemOk(retry: set<int>, rs: seq<Record>, outs: seq<Outcome>, commits: nat) {
    && commits <= 1
    && (forall i :: 0 <= i < |outs| - 1 ==> Undelivered(retry, outs[i]))
    && (rs != [] && RecordReplayable(retry, rs[0]) ==>
          commits == 0 && forall i :: 0 <= i < |outs| ==> Undelivered(retry, outs[i]))
  }

  lemma {:induction false} ItemStartup(retry: set<int>, rs: seq<Record>, outs: seq<Outcome>, commits: nat,
                                       more: seq<Outcome>, rs': seq<Record>)
    requires ItemOk(retry, rs, outs, commits) && |rs| <= 1 && (rs != [] ==> IsItemRecord(rs[0]))
    requires OneStartup(retry, rs, more, rs')
    ensures ItemOk(retry, rs', outs + more, commits + CommitsIn(more))
  {
    if more == [] {
      assert outs + more == outs;
    } else {
      FateReplayable(retry, rs[0], more[0]);
      assert CommitsIn(more) == if Commits(more[0]) then 1 else 0;
      assert rs' != [] && RecordReplayable(retry, rs'[0]) ==> RecordFate(rs[0], more[0]) == [rs'[0]];
    }
  }

  lemma {:induction false} CommitsConcat(a: seq<Outcome>, b: seq<Outcome>)
    ensures CommitsIn(a + b) == CommitsIn(a) + CommitsIn(b)
  {
    if b == [] {
      assert a + b == a;
    } else {
      CommitsConcat(a, b[..|b| - 1]);
      assert (a + b)[..|a + b| - 1] == a + b[..|b| - 1];
    }
  }

  lemma {:induction false} StartupOk(retry: set<int>, w: World, outs: seq<Outcome>, event: nat)
    requires EventOk(retry, w, event)
    ensures EventOk(retry, Live(retry, w, Startup(outs)), event)
  {
    var more := OutcomesOf(TriesIn(retry, w.entries, outs), event);
    StartupPerEvent(retry, w.entries, outs, event);
    OutcomesConcat(w.tries, TriesIn(retry, w.entries, outs), event);
    CommitsConcat(OutcomesOf(w.tries, event), more);
    if event in w.known && w.known[event] {
      ItemStartup(retry, RecordsOf(w.entries, event), OutcomesOf(w.tries, event), CommitsOf(w, event),
                  more, RecordsOf(Survivors(retry, w.entries, outs), event));
    }
  }

  lemma {:induction false} RotateOut(entries: seq<Entry>, n: nat, event: nat)
    requires n <= |entries| && |RecordsOf(entries, event)| <= 1
    ensures RecordsOf(entries[n..], event) == [] || RecordsOf(entries[n..], event) == RecordsOf(entries, event)
  {
    assert entries == entries[..n] + entries[n..];
    RecordsConcat(entries[..n], entries[n..], event);
    assert RecordsOf(entries[..n], event) == [] ==>
           [] + RecordsOf(entries[n..], event) == RecordsOf(entries[n..], event);
  }

  lemma {:induction false} AddRecord(entries: seq<Entry>, r: Record, event: nat)
    ensures RecordsOf(entries + [Object(r)], event) == RecordsOf(entries, event) + if r.event == event then [r] else []
  {
    assert (entries + [Object(r)])[..|entries|] == entries;
  }

  /** The state of every event but the new one is as it was, save for what rotation dropped. */
  lemma {:induction false} OtherLetter(retry: set<int>, w: World, w': World, event: nat)
    requires EventOk(retry, w, event) && w'.tries == w.tries
    requires event in w'.known <==> event in w.known
    requires event in w.known ==> w'.known[event] == w.known[event]
    requires event in w'.live <==> event in w.live
    requires RecordsOf(w'.entries, event) == [] || RecordsOf(w'.entries, event) == RecordsOf(w.entries, event)
    ensures EventOk(retry, w', event)
  {
  }

  lemma {:induction false} OwnLetter(retry: set<int>, w: World, w': World, r: Record, committed: bool)
    requires EventOk(retry, w, r.event) && r.event !in w.known && w'.tries == w.tries
    requires r.event in w'.known && w'.known[r.event] == IsItemRecord(r)
    requires r.event in w'.live <==> committed
    requires RecordsOf(w'.entries, r.event) == [r] && (committed && IsItemRecord(r) ==> !RecordReplayable(retry, r))
    ensures EventOk(retry, w', r.event)
  {
    assert OutcomesOf(w'.tries, r.event) == [];
  }

  lemma {:induction false} LetterOk(retry: set<int>, w: World, l: Life, event: nat)
    requires l.Letter? && Honest(retry, w, l) && EventOk(retry, w, event)
    ensures EventOk(retry, Live(retry, w, l), event)
  {
    RotateOut(w.entries, l.rotatedOut, event);
    AddRecord(w.entries[l.rotatedOut..], l.record, event);
    if l.record.event == event {
      OwnLetter(retry, w, Live(retry, w, l), l.record, l.committed);
    } else {
      OtherLetter(retry, w, Live(retry, w, l), event);
    }
  }

  lemma {:induction false} LifeOk(retry: set<int>, life: seq<Life>, event: nat)
    requires HonestLife(retry, life)
    ensures EventOk(retry, LiveAll(retry, life), event)
  {
    if life != [] {
      var before, l := life[..|life| - 1], life[|life| - 1];
      LifeOk(retry, before, event);
      if l.Startup? {
        StartupOk(retry, LiveAll(retry, before), l.outs, event);
      } else {
        LetterOk(retry, LiveAll(retry, before), l, event);
      }
    }
  }

  /**
   Over any number of finished startups, appends and rotations: a dead-lettered
   conversation item is committed at most once, and it is re-POSTed only while
   every earlier attempt was proven undelivered, so an ambiguous failure, a
   permanent rejection or a success is always the last attempt.
   */
  lemma {:induction false} ReplayAtMostOnce(retry: set<int>, life: seq<Life>, event: nat)
    requires HonestLife(retry, life)
    ensures var w := LiveAll(retry, life);
            var outs := OutcomesOf(w.tries, event);
            event in w.known && w.known[event] ==>
              && CommitsOf(w, event) <= 1
              && forall i :: 0 <= i < |outs| - 1 ==> Undelivered(retry, outs[i])
  {
    LifeOk(retry, life, event);
  }

  // ------------------------------------------------- records of other events

  lemma {:induction false} LiveSnoc(retry: set<int>, life: seq<Life>, l: Life)
    ensures LiveAll(retry, life + [l]) == Live(retry, LiveAll(retry, life), l)
    ensures HonestLife(retry, life) && Honest(retry, LiveAll(retry, life), l) ==> HonestLife(retry, life + [l])
  {
    assert (life + [l])[..|life|] == life;
  }

  lemma {:induction false} OneRecord(retry: set<int>, r: Record, o: Outcome)
    requires RecordReplayable(retry, r)
    ensures Count(retry, [Object(r)]) == 1
    ensures Survivors(retry, [Object(r)], [o]) == Objects(RecordFate(r, o))
    ensures TriesIn(retry, [Object(r)], [o]) == [Try(r.event, o)]
  {
    var e: Entry := Object(r);
    assert [e][..0] == [] && Count(retry, []) == 0;
    assert Survivors(retry, [], [o]) + Objects(RecordFate(r, o)) == Objects(RecordFate(r, o));
  }

  /** One startup of a world whose only entry is a replayable record. */
  lemma {:induction false} OneStep(retry: set<int>, w: World, r: Record, o: Outcome)
    requires w.entries == [Object(r)] && RecordReplayable(retry, r)
    ensures Honest(retry, w, Startup([o]))
    ensures Live(retry, w, Startup([o])) ==
            w.(entries := Objects(RecordFate(r, o)), tries := w.tries + [Try(r.event, o)])
  {
    OneRecord(retry, r, o);
  }

  lemma {:induction false} OneTry(event: nat, o: Outcome)
    ensures OutcomesOf([Try(event, o)], event) == [o] && CommitsIn([o]) == if Commits(o) then 1 else 0
  {
    assert OutcomesOf([], event) + [o] == [o];
  }

  lemma {:induction false} TwoTries(event: nat, first: Outcome, second: Outcome)
    ensures CommitsIn(OutcomesOf([Try(event, first)] + [Try(event, second)], event)) ==
            (if Commits(first) then 1 else 0) + if Commits(second) then 1 else 0
  {
    OneTry(event, first);
    OneTry(event, second);
    OutcomesConcat([Try(event, first)], [Try(event, second)], event);
    CommitsConcat([first], [second]);
  }

  /** A lost answer that did reach the server, and then a successful re-POST. */
  function LostThenAnswered(r: Record): (life: seq<Life>) {
    [] + [Letter(r, false, 0)] + [Startup([Raised(ReadTimeout, true)])] + [Startup([Response(200)])]
  }

  /** The world along that life. */
  lemma {:induction false} LostThenAnsweredWorld(retry: set<int>, r: Record)
    requires RecordReplayable(retry, r) && !IsItemRecord(r)
    ensures HonestLife(retry, LostThenAnswered(r))
    ensures var lost, answered := Raised(ReadTimeout, true), Response(200);
            LiveAll(retry, LostThenAnswered(r)) ==
            World([], map[r.event := false], [Try(r.event, lost)] + [Try(r.event, answered)], {})
  {
    var lost, answered := Raised(ReadTimeout, true), Response(200);
    var letter, first, second := Letter(r, false, 0), Startup([lost]), Startup([answered]);
    var kept := r.(ambiguous := Some(false), httpStatus := None);
    var w := World([Object(r)], map[r.event := false], [], {});
    var w' := World([Object(kept)], map[r.event := false], [Try(r.event, lost)], {});
    LiveSnoc(retry, [], letter);
    assert Live(retry, BIRTH, letter) == w;
    LiveSnoc(retry, [] + [letter], first);
    OneStep(retry, w, r, lost);
    assert Objects(RecordFate(r, lost)) == [Object(kept)] && w.tries + [Try(r.event, lost)] == w'.tries;
    LiveSnoc(retry, [] + [letter] + [first], second);
    OneStep(retry, w', kept, answered);
    assert Objects(RecordFate(kept, answered)) == [];
  }

  /** Every replayable record of another event can be committed twice: its ambiguous failure is not recorded. */
  lemma {:induction false} OtherRecordsMayRepeat(retry: set<int>, r: Record)
    requires RecordReplayable(retry, r) && !IsItemRecord(r)
    ensures HonestLife(retry, LostThenAnswered(r))
    ensures var w := LiveAll(retry, LostThenAnswered(r));
            r.event in w.known && !w.known[r.event] && CommitsOf(w, r.event) == 2
  {
    LostThenAnsweredWorld(retry, r);
    TwoTries(r.event, Raised(ReadTimeout, true), Response(200));
  }

  /** Every dead-lettered event of this class is committed at most once, in every honest life. */
  ghost predicate AlwaysAtMostOnce(retry: set<int>, isItem: bool) {
    forall life, event: nat :: HonestLife(retry, life) ==>
      var w := LiveAll(retry, life);
      event in w.known && w.known[event] == isItem ==> CommitsOf(w, event) <= 1
  }

  /** At most once over any number of startups holds for conversation items and for no other event. */
  lemma {:induction false} ReplayAtMostOnceIff(retry: set<int>, isItem: bool)
    ensures AlwaysAtMostOnce(retry, isItem) <==> isItem
  {
    if isItem {
      forall life, event: nat | HonestLife(retry, life)
        ensures var w := LiveAll(retry, life);
                event in w.known && w.known[event] == isItem ==> CommitsOf(w, event) <= 1
      {
        ReplayAtMostOnce(retry, life, event);
      }
    } else {
      var r := Record(0, Some("session"), Some("external_session_usage"), true, Some(false), None);
      OtherRecordsMayRepeat(retry, r);
    }
  }
}

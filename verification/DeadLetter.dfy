/**
 The dead-letter files: rotation on append and startup replay
 (omnigent/_native_post_delivery.py), with the re-POST the codex forwarder
 supplies (omnigent/codex_native_forwarder.py).
 */
module DeadLetter {
  import opened Common
  import opened Delivery

  // ------------------------------------------------------------- rotation

  datatype Files = Files(backup: seq<string>, current: seq<string>)

  function Bytes(lines: seq<string>): (n: nat) {
    if lines == [] then 0 else Bytes(lines[..|lines| - 1]) + |lines[|lines| - 1]|
  }

  /** At the cap the current file becomes the single backup and a fresh one starts. */
  function Append(cap: nat, f: Files, line: string): (f': Files) {
    if f.current != [] && Bytes(f.current) >= cap then Files(f.current, [line])
    else Files(f.backup, f.current + [line])
  }

  function AppendAll(cap: nat, lines: seq<string>): (f: Files) {
    if lines == [] then Files([], []) else Append(cap, AppendAll(cap, lines[..|lines| - 1]), lines[|lines| - 1])
  }

  class DeadLetterFile {
    const cap: nat
    var backup: seq<string>
    var current: seq<string>
    ghost var appended: seq<string>

    ghost predicate Valid()
      reads this
    {
      Files(backup, current) == AppendAll(cap, appended)
    }

    constructor (cap: nat)
      ensures Valid() && appended == [] && this.cap == cap
    {
      this.cap := cap;
      backup, current, appended := [], [], [];
    }

    method AppendDeadLetter(line: string)
      requires Valid()
      modifies this
      ensures Valid() && appended == old(appended) + [line]
    {
      assert (appended + [line])[..|appended|] == appended;
      if current != [] {
        var size := FileSize(current);
        if size >= cap {
          backup := current;
          current := [];
        }
      }
      current := current + [line];
      appended := appended + [line];
    }
  }

  method FileSize(lines: seq<string>) returns (n: nat)
    ensures n == Bytes(lines)
  {
    n := 0;
    for i := 0 to |lines|
      invariant n == Bytes(lines[..i])
    {
      assert lines[..i + 1][..i] == lines[..i];
      n := n + |lines[i]|;
    }
    assert lines[..|lines|] == lines;
  }

  /** Everything but the oldest `dropped` lines is on disk, in order. */
  ghost predicate KeepsSuffix(cap: nat, lines: seq<string>, f: Files, dropped: int) {
    && 0 <= dropped <= |lines| && f.backup + f.current == lines[dropped..]
    && (dropped == 0 || Bytes(f.backup) >= cap)
  }

  lemma {:induction false} BytesConcat(a: seq<string>, b: seq<string>)
    ensures Bytes(a + b) == Bytes(a) + Bytes(b)
  {
    if b == [] {
      assert a + b == a;
    } else {
      BytesConcat(a, b[..|b| - 1]);
      assert (a + b)[..|a + b| - 1] == a + b[..|b| - 1];
    }
  }

  lemma {:induction false} SuffixSnoc(kept: seq<string>, lines: seq<string>, d: nat, line: string)
    requires d <= |lines| && kept == lines[d..]
    ensures kept + [line] == (lines + [line])[d..]
  {
  }

  lemma {:induction false} SuffixDrop(backup: seq<string>, current: seq<string>, lines: seq<string>, d: nat)
    requires d <= |lines| && backup + current == lines[d..]
    ensures d + |backup| <= |lines| && current == lines[d + |backup|..]
  {
    assert |lines[d..]| == |backup| + |current|;
    assert current == (backup + current)[|backup|..];
  }

  lemma {:induction false} AppendKeepsSuffix(cap: nat, lines: seq<string>) returns (dropped: nat)
    ensures KeepsSuffix(cap, lines, AppendAll(cap, lines), dropped)
  {
    if lines == [] {
      dropped := 0;
    } else {
      var before, line := lines[..|lines| - 1], lines[|lines| - 1];
      assert lines == before + [line];
      var f := AppendAll(cap, before);
      dropped := AppendKeepsSuffix(cap, before);
      if f.current != [] && Bytes(f.current) >= cap {
        SuffixDrop(f.backup, f.current, before, dropped);
        dropped := dropped + |f.backup|;
        SuffixSnoc(f.current, before, dropped, line);
      } else {
        SuffixSnoc(f.backup + f.current, before, dropped, line);
        Assoc(f.backup, f.current, [line]);
      }
    }
  }

  lemma {:induction false} FileBounds(cap: nat, lines: seq<string>, longest: nat)
    requires cap > 0 && forall i :: 0 <= i < |lines| ==> |lines[i]| <= longest
    ensures var f := AppendAll(cap, lines);
            Bytes(f.backup) <= cap - 1 + longest && Bytes(f.current) <= cap - 1 + longest
  {
    if lines != [] {
      var before, line := lines[..|lines| - 1], lines[|lines| - 1];
      FileBounds(cap, before, longest);
      var f := AppendAll(cap, before);
      BytesConcat(f.current, [line]);
      BytesConcat([], [line]);
      assert [] + [line] == [line] && Bytes([line]) == |line|;
    }
  }

  /**
   Rotation laws over every sequence of appends: backup then current is a suffix
   of everything appended, disk stays within twice the cap plus two lines, and
   at least a cap's worth of the newest bytes (or everything) is kept.
   */
  lemma RotationLaws(cap: nat, lines: seq<string>, longest: nat)
    requires cap > 0 && forall i :: 0 <= i < |lines| ==> |lines[i]| <= longest
    ensures var f := AppendAll(cap, lines);
            var kept := f.backup + f.current;
            && (exists dropped :: 0 <= dropped <= |lines| && kept == lines[dropped..])
            && Bytes(kept) <= 2 * (cap - 1 + longest)
            && (Bytes(kept) >= cap || kept == lines)
  {
    var f := AppendAll(cap, lines);
    var dropped := AppendKeepsSuffix(cap, lines);
    FileBounds(cap, lines, longest);
    BytesConcat(f.backup, f.current);
    assert dropped == 0 ==> lines[dropped..] == lines;
  }

  // -------------------------------------------------------- startup replay

  /** A parsed record; `event` names the forwarded event it stands for. */
  datatype Record = Record(
    event: nat,
    session: Option<string>,
    eventType: Option<string>,
    hasPayload: bool,
    ambiguous: Option<bool>,
    httpStatus: Option<int>)

  /** One file entry: a record, or anything that is not a JSON object. */
  datatype Entry = Object(record: Record) | Other(line: string)

  predicate NonEmpty(s: Option<string>) {
    s.Some? && s.value != ""
  }

  predicate RecordReplayable(retry: set<int>, r: Record) {
    && NonEmpty(r.session) && NonEmpty(r.eventType) && r.hasPayload
    && r.ambiguous == Some(false)
    && (r.httpStatus.None? || r.httpStatus.value in retry)
  }

  /** Safe to re-POST: proven undelivered, with the fields needed to route it. */
  predicate Replayable(retry: set<int>, e: Entry) {
    e.Object? && RecordReplayable(retry, e.record)
  }

  datatype RepostResult = RepostResult(delivered: bool, ambiguous: bool, httpStatus: Option<int>)

  function Reclassify(e: Entry, res: RepostResult): (e': Entry)
    requires e.Object?
  {
    Object(e.record.(ambiguous := Some(res.ambiguous), httpStatus := res.httpStatus))
  }

  function Count(retry: set<int>, entries: seq<Entry>): (n: nat) {
    if entries == [] then 0 else
      Count(retry, entries[..|entries| - 1]) + if Replayable(retry, entries[|entries| - 1]) then 1 else 0
  }

  /** The replayable records, in file order. */
  function Candidates(retry: set<int>, entries: seq<Entry>): (rs: seq<Record>)
    ensures |rs| == Count(retry, entries)
  {
    if entries == [] then [] else
      var e := entries[|entries| - 1];
      Candidates(retry, entries[..|entries| - 1]) + if Replayable(retry, e) then [e.record] else []
  }

  /** What an entry becomes when it is the `j`-th replayable record of the run. */
  function Fate(retry: set<int>, e: Entry, j: nat, results: seq<RepostResult>): (es: seq<Entry>) {
    if !Replayable(retry, e) || j >= |results| then [e]
    else if results[j].delivered then []
    else [Reclassify(e, results[j])]
  }

  /** A file after the run's re-POSTs; `base` replayable records came before it. */
  function After(retry: set<int>, entries: seq<Entry>, base: nat, results: seq<RepostResult>): (es: seq<Entry>) {
    if entries == [] then [] else
      var before, e := entries[..|entries| - 1], entries[|entries| - 1];
      After(retry, before, base, results) + Fate(retry, e, base + Count(retry, before), results)
  }

  function DeliveredCount(results: seq<RepostResult>): (n: nat) {
    if results == [] then 0 else
      DeliveredCount(results[..|results| - 1]) + if results[|results| - 1].delivered then 1 else 0
  }

  /** Replay's surroundings: the answer to re-POST `j` of a record, and the clock before it. */
  datatype Surroundings = Surroundings(
    repost: (nat, Record) -> RepostResult,
    late: nat -> bool,
    maxRecords: Option<int>)
  {
    predicate OverBudget(attempted: nat) {
      (maxRecords.Some? && attempted >= maxRecords.value) || late(attempted)
    }

    /** The answers to re-POSTing these records, in this order. */
    function Results(posted: seq<Record>): (rs: seq<RepostResult>)
      ensures |rs| == |posted| && forall i :: 0 <= i < |posted| ==> rs[i] == repost(i, posted[i])
    {
      seq(|posted|, i requires 0 <= i < |posted| => repost(i, posted[i]))
    }
  }

  /** The re-POST callback as one startup sees it: an answer can only be had by posting. */
  class Upstream {
    const env: Surroundings
    var posted: seq<Record>

    constructor (env: Surroundings)
      ensures this.env == env && posted == []
    {
      this.env, posted := env, [];
    }

    method Repost(r: Record) returns (res: RepostResult)
      modifies this
      ensures posted == old(posted) + [r] && res == env.repost(|old(posted)|, r)
    {
      res := env.repost(|posted|, r);
      posted := posted + [r];
    }
  }

  /** After every re-POST before attempt `n`; the rest of the run does not matter to a file already read. */
  lemma {:induction false} AfterIgnoresLater(retry: set<int>, entries: seq<Entry>, base: nat, a: seq<RepostResult>,
                                             b: seq<RepostResult>)
    requires a <= b && (|a| == |b| || base + Count(retry, entries) <= |a|)
    ensures After(retry, entries, base, a) == After(retry, entries, base, b)
  {
    if entries != [] {
      AfterIgnoresLater(retry, entries[..|entries| - 1], base, a, b);
    }
  }

  /** Progress of the drain: how far it got and whether the budget ended it. */
  datatype Drain = Drain(attempted: nat, replayed: nat, stop: bool)

  /** `posted` is what was re-POSTed of the replayable records `seen` so far. */
  ghost predicate DrainOk(env: Surroundings, d: Drain, posted: seq<Record>, seen: seq<Record>) {
    && d.attempted == |posted| && posted <= seen
    && (if d.stop then env.OverBudget(|posted|) else posted == seen)
    && (forall j :: 0 <= j < |posted| ==> !env.OverBudget(j))
    && d.replayed == DeliveredCount(env.Results(posted))
  }

  /** One entry, after the replayable records `seen`, took the posts from `before` to `posted`. */
  ghost predicate EntryDrained(retry: set<int>, env: Surroundings, e: Entry, before: seq<Record>, seen: seq<Record>,
                               kept: seq<Entry>, d: Drain, posted: seq<Record>, changed: bool) {
    && DrainOk(env, d, posted, seen + if Replayable(retry, e) then [e.record] else [])
    && (posted == before || (Replayable(retry, e) && posted == before + [e.record] && before == seen))
    && kept == Fate(retry, e, |seen|, env.Results(posted))
    && (!changed ==> kept == [e])
  }

  method DrainEntry(retry: set<int>, up: Upstream, e: Entry, start: Drain, ghost seen: seq<Record>)
    returns (kept: seq<Entry>, d: Drain, changed: bool)
    requires DrainOk(up.env, start, up.posted, seen)
    modifies up
    ensures EntryDrained(retry, up.env, e, old(up.posted), seen, kept, d, up.posted, changed)
  {
    d, changed := start, false;
    if !Replayable(retry, e) || d.stop {
      return [e], d, changed;
    }
    if up.env.OverBudget(d.attempted) {
      d := d.(stop := true);
      return [e], d, changed;
    }
    ResultsSnoc(up.env, up.posted, e.record);
    var result := up.Repost(e.record);
    d := d.(attempted := d.attempted + 1, replayed := d.replayed + if result.delivered then 1 else 0);
    if result.delivered {
      return [], d, true;
    }
    if e.record.ambiguous != Some(result.ambiguous) || e.record.httpStatus != result.httpStatus {
      return [Reclassify(e, result)], d, true;
    }
    kept := [e];
  }

  lemma {:induction false} ResultsSnoc(env: Surroundings, posted: seq<Record>, r: Record)
    ensures env.Results(posted + [r]) == env.Results(posted) + [env.repost(|posted|, r)]
    ensures DeliveredCount(env.Results(posted + [r])) ==
            DeliveredCount(env.Results(posted)) + if env.repost(|posted|, r).delivered then 1 else 0
  {
    assert env.Results(posted + [r]) == env.Results(posted) + [env.repost(|posted|, r)];
    assert env.Results(posted + [r])[..|posted|] == env.Results(posted);
  }

  /** A file, after the replayable records `base`, took the posts from `before` to `posted`. */
  ghost predicate FileDrained(retry: set<int>, env: Surroundings, entries: seq<Entry>, before: seq<Record>,
                              base: seq<Record>, retained: seq<Entry>, d: Drain, posted: seq<Record>, changed: bool) {
    && DrainOk(env, d, posted, base + Candidates(retry, entries))
    && before <= posted && (before == posted || |base| <= |before|)
    && retained == After(retry, entries, |base|, env.Results(posted))
    && (!changed ==> retained == entries)
  }

  lemma {:induction false} ResultsPrefix(env: Surroundings, a: seq<Record>, b: seq<Record>)
    requires a <= b
    ensures env.Results(a) <= env.Results(b)
  {
  }

  /** Results obtained for the next entry do not disturb what was retained before it. */
  lemma {:induction false} RetainedSnoc(retry: set<int>, shorter: seq<Entry>, e: Entry, longer: seq<Entry>, base: nat,
                                        before: seq<RepostResult>, after: seq<RepostResult>,
                                        retained: seq<Entry>, kept: seq<Entry>)
    requires longer == shorter + [e] && before <= after
    requires |before| == |after| || base + Count(retry, shorter) <= |before|
    requires retained == After(retry, shorter, base, before)
    requires kept == Fate(retry, e, base + Count(retry, shorter), after)
    ensures retained + kept == After(retry, longer, base, after)
  {
    AfterIgnoresLater(retry, shorter, base, before, after);
    assert longer[..|shorter|] == shorter;
  }

  lemma {:induction false} CandidatesSnoc(retry: set<int>, base: seq<Record>, shorter: seq<Entry>, e: Entry,
                                          longer: seq<Entry>)
    requires longer == shorter + [e]
    ensures base + Candidates(retry, longer) ==
            base + Candidates(retry, shorter) + if Replayable(retry, e) then [e.record] else []
  {
    assert longer[..|shorter|] == shorter;
  }

  lemma {:induction false} Untouched(shorter: seq<Entry>, e: Entry, longer: seq<Entry>,
                                     retained: seq<Entry>, kept: seq<Entry>, changed: bool)
    requires longer == shorter + [e] && (!changed ==> retained == shorter && kept == [e])
    ensures !changed ==> retained + kept == longer
  {
  }

  /** One more entry of a file. */
  method DrainNext(retry: set<int>, up: Upstream, ghost shorter: seq<Entry>, e: Entry, ghost longer: seq<Entry>,
                   ghost before: seq<Record>, ghost base: seq<Record>, retained: seq<Entry>, d: Drain, changed: bool)
    returns (retained': seq<Entry>, d': Drain, changed': bool)
    requires longer == shorter + [e]
    requires FileDrained(retry, up.env, shorter, before, base, retained, d, up.posted, changed)
    modifies up
    ensures FileDrained(retry, up.env, longer, before, base, retained', d', up.posted, changed')
  {
    ghost var seen, was := base + Candidates(retry, shorter), up.posted;
    var kept, after, touched := DrainEntry(retry, up, e, d, seen);
    assert before == up.posted || |base| <= |before|;
    ResultsPrefix(up.env, was, up.posted);
    RetainedSnoc(retry, shorter, e, longer, |base|, up.env.Results(was), up.env.Results(up.posted), retained, kept);
    Untouched(shorter, e, longer, retained, kept, changed || touched);
    CandidatesSnoc(retry, base, shorter, e, longer);
    retained', d', changed' := retained + kept, after, changed || touched;
  }

  method DrainFile(retry: set<int>, up: Upstream, entries: seq<Entry>, start: Drain, ghost base: seq<Record>)
    returns (retained: seq<Entry>, d: Drain, changed: bool)
    requires DrainOk(up.env, start, up.posted, base)
    modifies up
    ensures FileDrained(retry, up.env, entries, old(up.posted), base, retained, d, up.posted, changed)
  {
    retained, d, changed := [], start, false;
    ghost var before := up.posted;
    assert base + [] == base;
    for i := 0 to |entries|
      invariant FileDrained(retry, up.env, entries[..i], before, base, retained, d, up.posted, changed)
    {
      Prefix(entries, i);
      retained, d, changed :=
        DrainNext(retry, up, entries[..i], entries[i], entries[..i + 1], before, base, retained, d, changed);
    }
    assert entries[..|entries|] == entries;
  }

  lemma Prefix(entries: seq<Entry>, i: nat)
    requires i < |entries|
    ensures entries[..i + 1] == entries[..i] + [entries[i]]
  {
  }

  function EntriesOf(file: Option<seq<Entry>>): (es: seq<Entry>) {
    if file.Some? then file.value else []
  }

  /**
   What a finished replay did: it re-POSTed a prefix of the replayable records, backup
   before current, each once, stopping exactly when the budget ran out, and the two
   files are what those answers leave.
   */
  ghost predicate Replayed(retry: set<int>, env: Surroundings, backup: seq<Entry>, current: seq<Entry>,
                           backup': seq<Entry>, current': seq<Entry>, replayed: nat, posted: seq<Record>) {
    var all := Candidates(retry, backup + current);
    && posted <= all && (posted == all || env.OverBudget(|posted|))
    && (forall j :: 0 <= j < |posted| ==> !env.OverBudget(j))
    && backup' == After(retry, backup, 0, env.Results(posted))
    && current' == After(retry, current, Count(retry, backup), env.Results(posted))
    && replayed == DeliveredCount(env.Results(posted))
  }

  lemma {:induction false} CandidatesConcat(retry: set<int>, a: seq<Entry>, b: seq<Entry>)
    ensures Candidates(retry, a + b) == Candidates(retry, a) + Candidates(retry, b)
    ensures Count(retry, a + b) == Count(retry, a) + Count(retry, b)
  {
    if b == [] {
      assert a + b == a;
    } else {
      var front, e := b[..|b| - 1], b[|b| - 1];
      CandidatesConcat(retry, a, front);
      assert (a + b)[..|a + b| - 1] == a + front;
      Assoc(Candidates(retry, a), Candidates(retry, front), if Replayable(retry, e) then [e.record] else []);
    }
  }

  lemma {:induction false} BothFiles(retry: set<int>, env: Surroundings, backup: seq<Entry>, current: seq<Entry>,
                                     backup': seq<Entry>, current': seq<Entry>, d: Drain, d': Drain,
                                     mid: seq<Record>, posted: seq<Record>, c: bool, c': bool)
    requires FileDrained(retry, env, backup, [], [], backup', d, mid, c)
    requires FileDrained(retry, env, current, mid, Candidates(retry, backup), current', d', posted, c')
    ensures Replayed(retry, env, backup, current, backup', current', d'.replayed, posted)
  {
    CandidatesConcat(retry, backup, current);
    ResultsPrefix(env, mid, posted);
    AfterIgnoresLater(retry, backup, 0, env.Results(mid), env.Results(posted));
  }

  class DeadLetterDir {
    var backup: Option<seq<Entry>>
    var current: Option<seq<Entry>>

    /** Drain one existing file and rewrite it when something changed; an emptied file is removed. */
    static method ReplayFile(retry: set<int>, up: Upstream, file: Option<seq<Entry>>, start: Drain,
                             ghost base: seq<Record>)
      returns (file': Option<seq<Entry>>, d: Drain, changed: bool)
      requires DrainOk(up.env, start, up.posted, base)
      modifies up
      ensures FileDrained(retry, up.env, EntriesOf(file), old(up.posted), base, EntriesOf(file'), d, up.posted, changed)
      ensures !changed ==> file' == file
    {
      var retained;
      retained, d, changed := DrainFile(retry, up, EntriesOf(file), start, base);
      file' := if !changed then file else if retained == [] then None else Some(retained);
    }

    /** Both files in turn; `posted` is every re-POST made, in order. */
    static method ReplayBoth(retry: set<int>, env: Surroundings, backup: Option<seq<Entry>>,
                             current: Option<seq<Entry>>)
      returns (backup': Option<seq<Entry>>, current': Option<seq<Entry>>, replayed: nat, posted: seq<Record>)
      ensures Replayed(retry, env, EntriesOf(backup), EntriesOf(current),
                       EntriesOf(backup'), EntriesOf(current'), replayed, posted)
    {
      ghost var b, c := EntriesOf(backup), EntriesOf(current);
      var up := new Upstream(env);
      var d, changed, d', changed';
      backup', d, changed := ReplayFile(retry, up, backup, Drain(0, 0, false), []);
      ghost var mid := up.posted;
      assert [] + Candidates(retry, b) == Candidates(retry, b);
      current', d', changed' := ReplayFile(retry, up, current, d, Candidates(retry, b));
      BothFiles(retry, env, b, c, EntriesOf(backup'), EntriesOf(current'), d, d', mid, up.posted, changed, changed');
      replayed, posted := d'.replayed, up.posted;
    }

    /** Replay both files, backup first, unless nothing in them is replayable. */
    method ReplayDeadLetters(retry: set<int>, env: Surroundings) returns (replayed: nat, posted: seq<Record>)
      modifies this
      ensures Replayed(retry, env, EntriesOf(old(backup)), EntriesOf(old(current)),
                       EntriesOf(backup), EntriesOf(current), replayed, posted)
    {
      if Count(retry, EntriesOf(backup)) == 0 && Count(retry, EntriesOf(current)) == 0 {
        NothingReplayed(retry, env, EntriesOf(backup), EntriesOf(current));
        return 0, []; // the forensic files stay untouched
      }
      backup, current, replayed, posted := ReplayBoth(retry, env, backup, current);
    }
  }

  lemma {:induction false} NothingReplayed(retry: set<int>, env: Surroundings, backup: seq<Entry>, current: seq<Entry>)
    requires Count(retry, backup) == 0 && Count(retry, current) == 0
    ensures Replayed(retry, env, backup, current, backup, current, 0, [])
  {
    NothingToReplay(retry, backup, 0, env.Results([]));
    NothingToReplay(retry, current, 0, env.Results([]));
    CandidatesConcat(retry, backup, current);
  }

  // -------------------------------------------------- which records are posted

  /**
   A record that is proven undelivered and can be routed, by its fields: session, type and
   payload are there, it was classified as not ambiguous, and it got no answer or a
   transient one.
   */
  predicate ProvenUndelivered(retry: set<int>, r: Record) {
    && r.session.Some? && r.session.value != "" && r.eventType.Some? && r.eventType.value != "" && r.hasPayload
    && r.ambiguous == Some(false)
    && (r.httpStatus == None || r.httpStatus.value in retry)
  }

  lemma {:induction false} ReplayableMeaning(retry: set<int>, r: Record)
    ensures RecordReplayable(retry, r) <==> ProvenUndelivered(retry, r)
  {
  }

  /** The candidates are exactly the proven-undelivered records of the entries. */
  lemma {:induction false} CandidatesMeaning(retry: set<int>, entries: seq<Entry>)
    ensures forall r :: r in Candidates(retry, entries) <==> Object(r) in entries && ProvenUndelivered(retry, r)
  {
    if entries != [] {
      var before, e := entries[..|entries| - 1], entries[|entries| - 1];
      CandidatesMeaning(retry, before);
      SplitLast(entries);
      if e.Object? {
        ReplayableMeaning(retry, e.record);
      }
    }
  }

  /** Only proven-undelivered records are re-POSTed, and unless the budget ends the run, all of them are. */
  lemma {:induction false} PostedRecords(retry: set<int>, env: Surroundings, backup: seq<Entry>, current: seq<Entry>,
                                         backup': seq<Entry>, current': seq<Entry>, replayed: nat, posted: seq<Record>)
    requires Replayed(retry, env, backup, current, backup', current', replayed, posted)
    ensures forall r :: r in posted ==> ProvenUndelivered(retry, r) && (Object(r) in backup || Object(r) in current)
    ensures !env.OverBudget(|posted|) ==>
              forall r :: (Object(r) in backup || Object(r) in current) && ProvenUndelivered(retry, r) ==> r in posted
  {
    CandidatesMeaning(retry, backup + current);
    var all := Candidates(retry, backup + current);
    forall r | r in posted ensures r in all {
      var i :| 0 <= i < |posted| && posted[i] == r;
      assert all[i] == r;
    }
  }

  /** A record written before records were classified is never re-POSTed. */
  lemma {:induction false} UnclassifiedIsNeverPosted(retry: set<int>, env: Surroundings, backup: seq<Entry>,
                                                     current: seq<Entry>, backup': seq<Entry>, current': seq<Entry>,
                                                     replayed: nat, posted: seq<Record>, r: Record)
    requires Replayed(retry, env, backup, current, backup', current', replayed, posted) && r.ambiguous == None
    ensures r !in posted
  {
    PostedRecords(retry, env, backup, current, backup', current', replayed, posted);
  }

  /** No run re-POSTs more than `max_records`. */
  lemma RecordBudget(retry: set<int>, env: Surroundings, backup: seq<Entry>, current: seq<Entry>,
                     backup': seq<Entry>, current': seq<Entry>, replayed: nat, posted: seq<Record>)
    requires Replayed(retry, env, backup, current, backup', current', replayed, posted)
    requires env.maxRecords.Some?
    ensures posted == [] || |posted| <= env.maxRecords.value
  {
    assert posted != [] ==> !env.OverBudget(|posted| - 1);
  }

  lemma {:induction false} NothingToReplay(retry: set<int>, entries: seq<Entry>, base: nat, results: seq<RepostResult>)
    requires Count(retry, entries) == 0
    ensures After(retry, entries, base, results) == entries
  {
    if entries != [] {
      NothingToReplay(retry, entries[..|entries| - 1], base, results);
      assert entries == entries[..|entries| - 1] + [entries[|entries| - 1]];
    }
  }

  // ---------------------------------------------------- replay conservation

  /** An entry apart from its two classification fields. */
  function Ident(e: Entry): (i: Entry) {
    if e.Other? then e else Object(e.record.(ambiguous := None, httpStatus := None))
  }

  function Idents(entries: seq<Entry>): (ids: seq<Entry>)
    ensures |ids| == |entries| && forall i :: 0 <= i < |ids| ==> ids[i] == Ident(entries[i])
  {
    seq(|entries|, i requires 0 <= i < |entries| => Ident(entries[i]))
  }

  lemma {:induction false} IdentsConcat(a: seq<Entry>, b: seq<Entry>)
    ensures Idents(a + b) == Idents(a) + Idents(b)
  {
  }

  /** The entries a run removes: the attempted ones whose re-POST was accepted. */
  function Delivered(retry: set<int>, entries: seq<Entry>, base: nat, results: seq<RepostResult>): (es: seq<Entry>) {
    if entries == [] then [] else
      var before, e := entries[..|entries| - 1], entries[|entries| - 1];
      Delivered(retry, before, base, results) +
      if Fate(retry, e, base + Count(retry, before), results) == [] then [e] else []
  }

  /** `kept` and `gone` together are `all`, and `kept` has `all`'s order. */
  ghost predicate Conserved(kept: seq<Entry>, gone: seq<Entry>, all: seq<Entry>) {
    multiset(Idents(kept)) + multiset(Idents(gone)) == multiset(Idents(all)) && IsSubsequence(Idents(kept), Idents(all))
  }

  lemma {:induction false} NothingConserved()
    ensures Conserved([], [], [])
  {
    assert Picks([], Idents([]), Idents([]));
  }

  /** The last entry's share in the files after replay. */
  lemma {:induction false} LastFate(retry: set<int>, entries: seq<Entry>, base: nat, results: seq<RepostResult>)
    returns (fate: seq<Entry>)
    requires entries != []
    ensures var before, e := entries[..|entries| - 1], entries[|entries| - 1];
            && entries == before + [e]
            && (fate == [] || (|fate| == 1 && Ident(fate[0]) == Ident(e)))
            && After(retry, entries, base, results) == After(retry, before, base, results) + fate
            && Delivered(retry, entries, base, results) ==
               Delivered(retry, before, base, results) + if fate == [] then [e] else []
  {
    fate := Fate(retry, entries[|entries| - 1], base + Count(retry, entries[..|entries| - 1]), results);
  }

  /** Replay loses nothing but what was delivered, keeps the order, and touches only the classification. */
  lemma {:induction false} ReplayConserves(retry: set<int>, entries: seq<Entry>, base: nat, results: seq<RepostResult>)
    ensures Conserved(After(retry, entries, base, results), Delivered(retry, entries, base, results), entries)
  {
    if entries == [] {
      NothingConserved();
    } else {
      var before := entries[..|entries| - 1];
      var fate := LastFate(retry, entries, base, results);
      ReplayConserves(retry, before, base, results);
      ConservedSnoc(After(retry, before, base, results), Delivered(retry, before, base, results), before,
                    entries[|entries| - 1], fate,
                    After(retry, entries, base, results), Delivered(retry, entries, base, results), entries);
    }
  }

  lemma {:induction false} ConservedSnoc(kept: seq<Entry>, gone: seq<Entry>, all: seq<Entry>, e: Entry,
                                         fate: seq<Entry>,
                                         kept': seq<Entry>, gone': seq<Entry>, all': seq<Entry>)
    requires Conserved(kept, gone, all)
    requires fate == [] || (|fate| == 1 && Ident(fate[0]) == Ident(e))
    requires kept' == kept + fate && all' == all + [e]
    requires gone' == gone + if fate == [] then [e] else []
    ensures Conserved(kept', gone', all')
  {
    IdentsConcat(kept, fate);
    IdentsConcat(gone, if fate == [] then [e] else []);
    IdentsConcat(all, [e]);
    var x := Ident(e);
    assert Idents([e]) == [x];
    if fate == [] {
      assert Idents(kept) + [] == Idents(kept);
      SubsequenceKeep(Idents(kept), Idents(all), [x]);
    } else {
      assert Idents(fate) == [x];
      assert Idents(gone) + [] == Idents(gone);
      SubsequenceSnoc(Idents(kept), Idents(all), x);
    }
  }

  /** The number replayed is the number of entries the two files lost. */
  lemma {:induction false} ReplayedCount(retry: set<int>, env: Surroundings, backup: seq<Entry>, current: seq<Entry>,
                                         backup': seq<Entry>, current': seq<Entry>, replayed: nat, posted: seq<Record>)
    requires Replayed(retry, env, backup, current, backup', current', replayed, posted)
    ensures |backup'| + |current'| == |backup| + |current| - replayed
  {
    var all, results := backup + current, env.Results(posted);
    AfterConcat(retry, backup, current, all, 0, Count(retry, backup), results);
    DeliveredPrefix(retry, all, results);
    assert results[..|results|] == results;
  }

  lemma {:induction false} AfterLast(retry: set<int>, entries: seq<Entry>, base: nat, results: seq<RepostResult>,
                                     n: nat)
    requires entries != [] && n == base + Count(retry, entries[..|entries| - 1])
    ensures After(retry, entries, base, results) ==
            After(retry, entries[..|entries| - 1], base, results) + Fate(retry, entries[|entries| - 1], n, results)
  {
  }

  /** Draining backup then current is draining their concatenation. */
  lemma {:induction false} AfterConcat(retry: set<int>, a: seq<Entry>, b: seq<Entry>, ab: seq<Entry>, base: nat,
                                       mid: nat, results: seq<RepostResult>)
    requires ab == a + b && mid == base + Count(retry, a)
    ensures After(retry, ab, base, results) == After(retry, a, base, results) + After(retry, b, mid, results)
    decreases |b|, 1
  {
    if b == [] {
      assert ab == a;
      assert After(retry, a, base, results) + [] == After(retry, a, base, results);
    } else {
      AfterConcatStep(retry, a, b, ab, base, mid, results);
    }
  }

  lemma {:induction false} AfterConcatStep(retry: set<int>, a: seq<Entry>, b: seq<Entry>, ab: seq<Entry>, base: nat,
                                           mid: nat, results: seq<RepostResult>)
    requires ab == a + b && b != [] && mid == base + Count(retry, a)
    ensures After(retry, ab, base, results) == After(retry, a, base, results) + After(retry, b, mid, results)
    decreases |b|, 0
  {
    var before, shorter := b[..|b| - 1], ab[..|ab| - 1];
    assert shorter == a + before && ab[|ab| - 1] == b[|b| - 1];
    CandidatesConcat(retry, a, before);
    var n := mid + Count(retry, before);
    AfterConcat(retry, a, before, shorter, base, mid, results);
    AfterLast(retry, ab, base, results, n);
    AfterLast(retry, b, mid, results, n);
    Assoc(After(retry, a, base, results), After(retry, before, mid, results), Fate(retry, b[|b| - 1], n, results));
  }

  lemma {:induction false} DeliveredPrefix(retry: set<int>, entries: seq<Entry>, results: seq<RepostResult>)
    ensures var n := if Count(retry, entries) <= |results| then Count(retry, entries) else |results|;
            && |Delivered(retry, entries, 0, results)| == DeliveredCount(results[..n])
            && |After(retry, entries, 0, results)| == |entries| - DeliveredCount(results[..n])
  {
    if entries != [] {
      var before := entries[..|entries| - 1];
      DeliveredPrefix(retry, before, results);
      var n := Count(retry, before);
      if Replayable(retry, entries[|entries| - 1]) && n < |results| {
        assert results[..n + 1][..n] == results[..n];
      }
    }
  }
}

/**
 Incremental deltas of GENERATING planner frames, per step index
 (omnigent/antigravity_native_reader.py). Text and reasoning share one
 prefix-diff; reasoning alone reports whether the tracker was fresh.
 */
module Deltas {
  import opened Common
  import opened Steps
  import opened Mapper
  import opened Mirror

  predicate IsGeneratingPlanner(s: Step) {
    s.kind.PlannerResponse? && s.status.Generating?
  }

  datatype Channel = Text | Reasoning

  /** The cumulative text a GENERATING frame carries on a channel. */
  function Partial(ch: Channel, s: Step): (t: Option<string>) {
    if s.planner.None? then None
    else if ch.Text? then s.planner.value.modified
    else s.planner.value.thinking
  }

  /** One emitted suffix; `first` when the index had no tracker yet. */
  datatype Diff = Diff(suffix: string, first: bool)

  function Forwarded(tracker: Option<string>): (t: string) {
    if tracker.Some? then tracker.value else ""
  }

  function Emit(tracker: Option<string>, text: string): (out: seq<Diff>) {
    var prior := Forwarded(tracker);
    if prior <= text && |text| > |prior| then [Diff(text[|prior|..], tracker.None?)] else []
  }

  // ------------------------------------------------------ the run's trackers

  datatype Touch = Frame(text: string) | Clear

  /** How an observation touches a tracker: a frame extends it, a committed stream step drops it. */
  function TouchOf(ch: Channel, o: Observation): (t: Option<(int, Touch)>) {
    if o.Polled? || o.step.index.None? then None
    else if !IsGeneratingPlanner(o.step) then Some((o.step.index.value, Clear))
    else
      var text := Partial(ch, o.step);
      if text.None? then None else Some((o.step.index.value, Frame(text.value)))
  }

  datatype Tracking = Tracking(trackers: map<int, string>, out: seq<(int, Diff)>)

  function Lookup(m: map<int, string>, i: int): (t: Option<string>) {
    if i in m then Some(m[i]) else None
  }

  function Tag(i: int, diffs: seq<Diff>): (out: seq<(int, Diff)>)
    ensures |out| == |diffs| && forall k :: 0 <= k < |out| ==> out[k] == (i, diffs[k])
  {
    seq(|diffs|, k requires 0 <= k < |diffs| => (i, diffs[k]))
  }

  function Track(t: Tracking, touch: Option<(int, Touch)>): (t': Tracking) {
    if touch.None? then t
    else
      var i := touch.value.0;
      match touch.value.1
      case Clear => t.(trackers := t.trackers - {i})
      case Frame(text) => Tracking(t.trackers[i := text], t.out + Tag(i, Emit(Lookup(t.trackers, i), text)))
  }

  function TrackAll(ch: Channel, h: History): (t: Tracking) {
    if h == [] then Tracking(map[], [])
    else Track(TrackAll(ch, h[..|h| - 1]), TouchOf(ch, h[|h| - 1]))
  }

  // --------------------------------------------- one index, seen on its own

  datatype Solo = Solo(tracker: Option<string>, out: seq<Diff>)

  function SoloStep(s: Solo, touch: Touch): (s': Solo) {
    match touch
    case Clear => s.(tracker := None)
    case Frame(text) => Solo(Some(text), s.out + Emit(s.tracker, text))
  }

  function SoloRun(touches: seq<Touch>): (s: Solo) {
    if touches == [] then Solo(None, []) else SoloStep(SoloRun(touches[..|touches| - 1]), touches[|touches| - 1])
  }

  /** The part of a run that concerns one index. */
  function Project(ch: Channel, h: History, i: int): (touches: seq<Touch>) {
    if h == [] then [] else
      var t := TouchOf(ch, h[|h| - 1]);
      Project(ch, h[..|h| - 1], i) + if t.Some? && t.value.0 == i then [t.value.1] else []
  }

  function ForIndex(i: int, out: seq<(int, Diff)>): (diffs: seq<Diff>) {
    if out == [] then [] else
      ForIndex(i, out[..|out| - 1]) + if out[|out| - 1].0 == i then [out[|out| - 1].1] else []
  }

  lemma {:induction false} ForIndexTag(i: int, out: seq<(int, Diff)>, j: int, diffs: seq<Diff>)
    requires |diffs| <= 1
    ensures ForIndex(i, out + Tag(j, diffs)) == ForIndex(i, out) + if i == j then diffs else []
  {
    if diffs == [] {
      assert out + Tag(j, diffs) == out;
    } else {
      assert (out + Tag(j, diffs))[..|out|] == out;
    }
  }

  lemma {:induction false} SoloSnoc(touches: seq<Touch>, t: Touch)
    ensures SoloRun(touches + [t]) == SoloStep(SoloRun(touches), t)
  {
    assert (touches + [t])[..|touches|] == touches;
  }

  lemma {:induction false} TouchIsLocal(t: Tracking, touch: (int, Touch), i: int)
    ensures var t' := Track(t, Some(touch));
            var s := Solo(Lookup(t.trackers, i), ForIndex(i, t.out));
            Solo(Lookup(t'.trackers, i), ForIndex(i, t'.out)) == if touch.0 == i then SoloStep(s, touch.1) else s
  {
    if touch.1.Frame? {
      var emitted := Emit(Lookup(t.trackers, touch.0), touch.1.text);
      ForIndexTag(i, t.out, touch.0, emitted);
      assert ForIndex(i, t.out) + [] == ForIndex(i, t.out);
    }
  }

  /** Indexes do not interfere: each sees only its own frames and clears. */
  lemma {:induction false} IndexesAreIndependent(ch: Channel, h: History, i: int)
    ensures Solo(Lookup(TrackAll(ch, h).trackers, i), ForIndex(i, TrackAll(ch, h).out)) == SoloRun(Project(ch, h, i))
  {
    if h != [] {
      var before, t := h[..|h| - 1], TouchOf(ch, h[|h| - 1]);
      IndexesAreIndependent(ch, before, i);
      assert Project(ch, before, i) + [] == Project(ch, before, i);
      if t.Some? {
        TouchIsLocal(TrackAll(ch, before), t.value, i);
        SoloSnoc(Project(ch, before, i), t.value.1);
      }
    }
  }

  // ------------------------------------------------- between two clears

  function Frames(texts: seq<string>): (touches: seq<Touch>)
    ensures |touches| == |texts| && forall k :: 0 <= k < |texts| ==> touches[k] == Frame(texts[k])
  {
    seq(|texts|, k requires 0 <= k < |texts| => Frame(texts[k]))
  }

  function Last(texts: seq<string>): (t: Option<string>) {
    if texts == [] then None else Some(texts[|texts| - 1])
  }

  /** The deltas of a segment of cumulative texts, defined frame against frame. */
  function Segment(texts: seq<string>): (out: seq<Diff>) {
    if texts == [] then [] else
      Segment(texts[..|texts| - 1]) + Emit(Last(texts[..|texts| - 1]), texts[|texts| - 1])
  }

  lemma {:induction false} SegmentSnoc(texts: seq<string>)
    requires texts != []
    ensures Segment(texts) == Segment(texts[..|texts| - 1]) + Emit(Last(texts[..|texts| - 1]), texts[|texts| - 1])
    ensures Frames(texts) == Frames(texts[..|texts| - 1]) + [Frame(texts[|texts| - 1])]
  {
  }

  /** What follows a clear is a segment of its own, whatever came before. */
  lemma {:induction false} ClearStartsAfresh(before: seq<Touch>, texts: seq<string>)
    requires before == [] || before[|before| - 1].Clear?
    ensures SoloRun(before + Frames(texts)) == Solo(Last(texts), SoloRun(before).out + Segment(texts))
  {
    if texts == [] {
      assert before + Frames(texts) == before;
      assert SoloRun(before).out + [] == SoloRun(before).out;
    } else {
      var shorter, t := texts[..|texts| - 1], texts[|texts| - 1];
      ClearStartsAfresh(before, shorter);
      SegmentSnoc(texts);
      Assoc(before, Frames(shorter), [Frame(t)]);
      SoloSnoc(before + Frames(shorter), Frame(t));
      Assoc(SoloRun(before).out, Segment(shorter), Emit(Last(shorter), t));
    }
  }

  function Concat(out: seq<Diff>): (text: string) {
    if out == [] then "" else Concat(out[..|out| - 1]) + out[|out| - 1].suffix
  }

  lemma {:induction false} ConcatAppend(a: seq<Diff>, b: seq<Diff>)
    ensures Concat(a + b) == Concat(a) + Concat(b)
  {
    if b == [] {
      assert a + b == a;
    } else {
      var front, last := b[..|b| - 1], b[|b| - 1];
      ConcatAppend(a, front);
      assert (a + b)[..|a + b| - 1] == a + front && (a + b)[|a + b| - 1] == last;
      Assoc(Concat(a), Concat(front), last.suffix);
    }
  }

  /** Frame `k` starts with the text of the frame before it (the empty text for the first). */
  predicate Extends(texts: seq<string>, k: nat)
    requires k < |texts|
  {
    Forwarded(Last(texts[..k])) <= texts[k]
  }

  predicate GrowsAfter(texts: seq<string>, anchor: int) {
    forall k :: anchor < k < |texts| && 0 <= k ==> Extends(texts, k)
  }

  lemma {:induction false} GrowsSnoc(texts: seq<string>, anchor: int)
    requires texts != [] && anchor < |texts| - 1
    ensures GrowsAfter(texts, anchor) <==> GrowsAfter(texts[..|texts| - 1], anchor) && Extends(texts, |texts| - 1)
  {
    var n := |texts| - 1;
    var shorter := texts[..n];
    forall k | 0 <= k < n ensures Extends(shorter, k) == Extends(texts, k) {
      assert shorter[..k] == texts[..k];
    }
  }

  /**
   From any re-anchor on: its text followed by all later deltas is the latest
   text, as long as no later frame re-anchors again.
   */
  lemma {:induction false} DeltasRebuildText(texts: seq<string>, anchor: nat)
    requires anchor < |texts| && GrowsAfter(texts, anchor)
    ensures |Segment(texts[..anchor + 1])| <= |Segment(texts)|
    ensures texts[anchor] + Concat(Segment(texts)[|Segment(texts[..anchor + 1])|..]) == texts[|texts| - 1]
  {
    Rebuild(texts, anchor, |Segment(texts[..anchor + 1])|);
  }

  lemma {:induction false} Rebuild(texts: seq<string>, anchor: nat, mark: nat)
    requires anchor < |texts| && GrowsAfter(texts, anchor) && mark == |Segment(texts[..anchor + 1])|
    ensures mark <= |Segment(texts)| && texts[anchor] + Concat(Segment(texts)[mark..]) == texts[|texts| - 1]
  {
    var n := |texts| - 1;
    if anchor == n {
      assert texts[..anchor + 1] == texts;
    } else {
      var shorter := texts[..n];
      assert shorter[..anchor + 1] == texts[..anchor + 1];
      GrowsSnoc(texts, anchor);
      Rebuild(shorter, anchor, mark);
      RebuildLast(texts, shorter, texts[anchor], mark);
    }
  }

  lemma {:induction false} RebuildLast(texts: seq<string>, shorter: seq<string>, anchor: string, mark: nat)
    requires |texts| >= 2 && shorter == texts[..|texts| - 1] && Extends(texts, |texts| - 1)
    requires mark <= |Segment(shorter)| && anchor + Concat(Segment(shorter)[mark..]) == shorter[|shorter| - 1]
    ensures mark <= |Segment(texts)| && anchor + Concat(Segment(texts)[mark..]) == texts[|texts| - 1]
  {
    SegmentSnoc(texts);
    RebuildExtend(anchor, shorter[|shorter| - 1], texts[|texts| - 1], Last(shorter), Segment(shorter), mark,
                  Segment(texts));
  }

  lemma {:induction false} RebuildStep(anchor: string, out: seq<Diff>, start: nat, more: seq<Diff>, all: seq<Diff>)
    requires start <= |out| && all == out + more
    ensures start <= |all| && anchor + Concat(all[start..]) == anchor + Concat(out[start..]) + Concat(more)
  {
    assert (out + more)[start..] == out[start..] + more;
    ConcatAppend(out[start..], more);
    Assoc(anchor, Concat(out[start..]), Concat(more));
  }

  lemma {:induction false} RebuildExtend(anchor: string, prior: string, text: string, tracker: Option<string>,
                                         out: seq<Diff>, start: nat, all: seq<Diff>)
    requires start <= |out| && anchor + Concat(out[start..]) == prior
    requires prior == Forwarded(tracker) && prior <= text && all == out + Emit(tracker, text)
    ensures start <= |all| && anchor + Concat(all[start..]) == text
  {
    GrowthSuffix(prior, text, tracker);
    RebuildStep(anchor, out, start, Emit(tracker, text), all);
  }

  lemma {:induction false} GrowthSuffix(prior: string, text: string, tracker: Option<string>)
    requires prior == Forwarded(tracker) && prior <= text
    ensures prior + Concat(Emit(tracker, text)) == text
  {
    if |text| > |prior| {
      assert Concat([Diff(text[|prior|..], tracker.None?)]) == Concat([]) + text[|prior|..];
      assert prior + text[|prior|..] == text;
    } else {
      assert prior == text;
    }
  }

  /** After every frame, the deltas so far spell that frame's text. */
  predicate Faithful(texts: seq<string>) {
    texts == [] || (Faithful(texts[..|texts| - 1]) && Concat(Segment(texts)) == texts[|texts| - 1])
  }

  /** Deltas concatenate to the text throughout exactly when every frame extends its predecessor. */
  lemma {:induction false} FaithfulIffGrowing(texts: seq<string>)
    ensures Faithful(texts) <==> GrowsAfter(texts, -1)
  {
    if texts != [] {
      FaithfulIffGrowing(texts[..|texts| - 1]);
      GrowsSnoc(texts, -1);
      if Faithful(texts[..|texts| - 1]) {
        FaithfulStep(texts);
      }
    }
  }

  lemma {:induction false} FaithfulStep(texts: seq<string>)
    requires texts != [] && Faithful(texts[..|texts| - 1])
    ensures Concat(Segment(texts)) == texts[|texts| - 1] <==> Extends(texts, |texts| - 1)
  {
    var n := |texts| - 1;
    var shorter := texts[..n];
    var prior := Forwarded(Last(shorter));
    assert Concat(Segment(shorter)) == prior;
    ConcatAppend(Segment(shorter), Emit(Last(shorter), texts[n]));
    if Extends(texts, n) {
      GrowthSuffix(prior, texts[n], Last(shorter));
    } else {
      assert Segment(shorter) + [] == Segment(shorter);
      assert prior <= prior;
    }
  }

  /** The start marker is carried exactly when the segment's first frame is non-empty, and by its first delta only. */
  lemma {:induction false} StartedMarker(texts: seq<string>)
    ensures forall k :: 0 <= k < |Segment(texts)| ==> (Segment(texts)[k].first <==> k == 0 && texts[0] != "")
    ensures texts != [] && texts[0] != "" ==> Segment(texts) != []
  {
    if texts != [] {
      StartedMarker(texts[..|texts| - 1]);
    }
  }

  /** An empty first frame loses the marker: the first visible delta does not announce a start. */
  lemma EmptyFirstFrameLosesMarker()
    ensures Segment(["", "a"]) == [Diff("a", false)]
  {
    assert ["", "a"][..1] == [""] && [""][..0] == [];
    assert Segment([""]) == [];
    assert "a"[0..] == "a";
  }

  /** A frame that shrinks and regrows sends the regrown part twice. */
  lemma ShrinkAndRegrowRepeats()
    ensures Concat(Segment(["ab", "a", "ab"])) == "abb"
  {
    assert ["ab", "a", "ab"][..2] == ["ab", "a"] && ["ab", "a"][..1] == ["ab"] && ["ab"][..0] == [];
    assert Segment(["ab"]) == [Diff("ab"[0..], true)] && "ab"[0..] == "ab";
    assert Segment(["ab", "a"]) == Segment(["ab"]);
    assert Segment(["ab", "a", "ab"]) == [Diff("ab", true)] + [Diff("b", false)];
    ConcatAppend([Diff("ab", true)], [Diff("b", false)]);
  }

  // ------------------------------------------------------- any interleaving

  /** The texts an index has shown since its last clear. */
  function SinceClear(touches: seq<Touch>): (texts: seq<string>) {
    if touches == [] then [] else
      match touches[|touches| - 1]
      case Clear => []
      case Frame(text) => SinceClear(touches[..|touches| - 1]) + [text]
  }

  /** What an index went through up to and including its last clear. */
  function UpToClear(touches: seq<Touch>): (before: seq<Touch>) {
    if touches == [] || touches[|touches| - 1].Clear? then touches else UpToClear(touches[..|touches| - 1])
  }

  lemma {:induction false} SplitAtClear(touches: seq<Touch>)
    ensures touches == UpToClear(touches) + Frames(SinceClear(touches))
    ensures UpToClear(touches) == [] || UpToClear(touches)[|UpToClear(touches)| - 1].Clear?
  {
    if touches != [] && touches[|touches| - 1].Frame? {
      var shorter, last := touches[..|touches| - 1], touches[|touches| - 1];
      SplitAtClear(shorter);
      FramesSnoc(shorter, UpToClear(shorter), SinceClear(shorter), last.text, touches);
    } else {
      assert touches + Frames([]) == touches;
    }
  }

  lemma {:induction false} FramesSnoc(shorter: seq<Touch>, before: seq<Touch>, texts: seq<string>, text: string,
                                      all: seq<Touch>)
    requires shorter == before + Frames(texts) && |all| == |shorter| + 1 && all[..|shorter|] == shorter
    requires all[|shorter|] == Frame(text)
    ensures all == before + Frames(texts + [text])
  {
    assert Frames(texts + [text]) == Frames(texts) + [Frame(text)];
    assert all == shorter + [Frame(text)];
    Assoc(before, Frames(texts), [Frame(text)]);
  }

  /**
   Past `mark`, the deltas posted for an index are those of `texts`: from any re-anchor
   on they rebuild the latest text, and `started` is on the first of them, if the first
   text is not empty, and on no other.
   */
  ghost predicate Spells(posted: seq<Diff>, mark: nat, texts: seq<string>) {
    && mark <= |posted| && posted[mark..] == Segment(texts)
    && (forall k :: mark <= k < |posted| ==> texts != [] && (posted[k].first <==> k == mark && texts[0] != ""))
    && (forall anchor: nat :: anchor < |texts| && GrowsAfter(texts, anchor) ==> Rebuilds(posted, mark, texts, anchor))
  }

  ghost predicate Rebuilds(posted: seq<Diff>, mark: nat, texts: seq<string>, anchor: nat)
    requires anchor < |texts|
  {
    var skip := mark + |Segment(texts[..anchor + 1])|;
    skip <= |posted| && texts[anchor] + Concat(posted[skip..]) == texts[|texts| - 1]
  }

  /** Over every history, every index's deltas since its last clear spell what that index showed since then. */
  lemma {:induction false} LiveDeltas(ch: Channel, h: History, i: int)
    ensures var touches := Project(ch, h, i);
            Spells(ForIndex(i, TrackAll(ch, h).out), |SoloRun(UpToClear(touches)).out|, SinceClear(touches))
  {
    var touches := Project(ch, h, i);
    IndexesAreIndependent(ch, h, i);
    SplitAtClear(touches);
    ClearStartsAfresh(UpToClear(touches), SinceClear(touches));
    SegmentSpells(SoloRun(UpToClear(touches)).out, SinceClear(touches), ForIndex(i, TrackAll(ch, h).out));
  }

  lemma {:induction false} SegmentSpells(out: seq<Diff>, texts: seq<string>, posted: seq<Diff>)
    requires posted == out + Segment(texts)
    ensures Spells(posted, |out|, texts)
  {
    Started(out, Segment(texts), posted, texts);
    forall anchor: nat | anchor < |texts| && GrowsAfter(texts, anchor) ensures Rebuilds(posted, |out|, texts, anchor) {
      DeltasRebuildText(texts, anchor);
      Skip(out, Segment(texts), posted, |Segment(texts[..anchor + 1])|);
    }
  }

  lemma {:induction false} Started(out: seq<Diff>, live: seq<Diff>, posted: seq<Diff>, texts: seq<string>)
    requires posted == out + live && live == Segment(texts)
    ensures posted[|out|..] == live
    ensures forall k :: |out| <= k < |posted| ==> texts != [] && (posted[k].first <==> k == |out| && texts[0] != "")
  {
    StartedMarker(texts);
    forall k | |out| <= k < |posted| ensures texts != [] && (posted[k].first <==> k == |out| && texts[0] != "") {
      assert posted[k] == live[k - |out|];
    }
  }

  lemma {:induction false} Skip(out: seq<Diff>, live: seq<Diff>, posted: seq<Diff>, n: nat)
    requires posted == out + live && n <= |live|
    ensures posted[|out| + n..] == live[n..]
  {
  }

  // --------------------------------------------------------- fields and channels

  /**
   A polled step and a step without an index leave the trackers alone. On the stream, a planner
   being generated shows its moderated text on one channel and its thinking on the other; any
   other step clears its index on both.
   */
  lemma {:induction false} ChannelFields(o: Observation)
    ensures o.Polled? || o.step.index == None ==> TouchOf(Text, o) == None && TouchOf(Reasoning, o) == None
    ensures o.Streamed? && o.step.index.Some? && o.step.kind == PlannerResponse && o.step.status == Generating ==>
              var i, p := o.step.index.value, o.step.planner;
              && TouchOf(Text, o) == (if p.Some?
                                      && p.value.modified.Some? then Some((i, Frame(p.value.modified.value))) else None)
              && TouchOf(Reasoning, o) ==
                  (if p.Some? && p.value.thinking.Some? then Some((i, Frame(p.value.thinking.value))) else None)
    ensures o.Streamed? && o.step.index.Some? && !(o.step.kind == PlannerResponse && o.step.status == Generating) ==>
              TouchOf(Text, o) == Some((o.step.index.value, Clear))
                  && TouchOf(Reasoning, o) == Some((o.step.index.value, Clear))
  {
  }

  /** A frame sends one delta, the part it adds, exactly when it properly extends the text before it,
      and none otherwise. */
  lemma {:induction false} OneDeltaPerExtension(texts: seq<string>)
    requires texts != []
    ensures var n := |texts| - 1;
            var before, prior, text := texts[..n], if n == 0 then "" else texts[n - 1], texts[n];
            if |prior| < |text| && text[..|prior|] == prior then
              Segment(texts) == Segment(before) + [Diff(text[|prior|..], n == 0)]
            else Segment(texts) == Segment(before)
  {
    var n := |texts| - 1;
    var prior := if n == 0 then "" else texts[n - 1];
    assert Forwarded(Last(texts[..n])) == prior;
    assert prior <= texts[n] <==> |prior| <= |texts[n]| && texts[n][..|prior|] == prior;
    assert Segment(texts[..n]) + [] == Segment(texts[..n]);
  }
}

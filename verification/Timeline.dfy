/**
 Everything one reader run sends, in one sequence (omnigent/antigravity_native_reader.py):
 live deltas and committed posts as the read loop interleaves them.
 */
module Timeline {
  import opened Common
  import opened Steps
  import opened Mapper
  import opened Mirror
  import opened Deltas

  datatype Sent = Post(event: Event) | Live(channel: Channel, index: int, diff: Diff)

  function Sends(events: seq<Event>): (r: seq<Sent>)
    ensures |r| == |events| && forall i :: 0 <= i < |r| ==> r[i] == Post(events[i])
  {
    seq(|events|, i requires 0 <= i < |events| => Post(events[i]))
  }

  function Lives(ch: Channel, diffs: seq<(int, Diff)>): (r: seq<Sent>)
    ensures |r| == |diffs| && forall i :: 0 <= i < |r| ==> r[i] == Live(ch, diffs[i].0, diffs[i].1)
  {
    seq(|diffs|, i requires 0 <= i < |diffs| => Live(ch, diffs[i].0, diffs[i].1))
  }

  predicate IsLive(o: Observation) {
    o.Streamed? && IsGeneratingPlanner(o.step)
  }

  /** The deltas one observation adds on a channel. */
  function NewDeltas(ch: Channel, before: History, o: Observation): (diffs: seq<(int, Diff)>) {
    match TouchOf(ch, o)
    case None => []
    case Some((i, Clear)) => []
    case Some((i, Frame(text))) => Tag(i, Emit(Lookup(TrackAll(ch, before).trackers, i), text))
  }

  /** The committed posts one observation adds. */
  function NewPosts(env: Env, before: History, o: Observation): (events: seq<Event>) {
    if KeyOf(o.step) in SettledKeys(before) then [] else Posts(env, CoreAfter(env, Kept(before)), o.step)
  }

  /** What one observation sends: a frame's reasoning before its text, or the committed posts. */
  function Sending(env: Env, before: History, o: Observation): (r: seq<Sent>) {
    if IsLive(o) then Lives(Reasoning, NewDeltas(Reasoning, before, o)) + Lives(Text, NewDeltas(Text, before, o))
    else Sends(NewPosts(env, before, o))
  }

  function Trace(env: Env, h: History): (r: seq<Sent>) {
    if h == [] then [] else Trace(env, h[..|h| - 1]) + Sending(env, h[..|h| - 1], h[|h| - 1])
  }

  lemma {:induction false} TraceSnoc(env: Env, h: History, o: Observation)
    ensures Trace(env, h + [o]) == Trace(env, h) + Sending(env, h, o)
  {
    assert (h + [o])[..|h|] == h;
  }

  // ------------------------------------------------------- nothing else is sent

  function PostsIn(r: seq<Sent>): (events: seq<Event>) {
    if r == [] then [] else PostsIn(r[..|r| - 1]) + if r[|r| - 1].Post? then [r[|r| - 1].event] else []
  }

  function LiveIn(ch: Channel, r: seq<Sent>): (diffs: seq<(int, Diff)>) {
    if r == [] then [] else
      var s := r[|r| - 1];
      LiveIn(ch, r[..|r| - 1]) + if s.Live? && s.channel == ch then [(s.index, s.diff)] else []
  }

  lemma {:induction false} PostsInConcat(a: seq<Sent>, b: seq<Sent>)
    ensures PostsIn(a + b) == PostsIn(a) + PostsIn(b)
  {
    if b == [] {
      assert a + b == a;
    } else {
      var front := b[..|b| - 1];
      PostsInConcat(a, front);
      assert (a + b)[..|a + b| - 1] == a + front && (a + b)[|a + b| - 1] == b[|b| - 1];
      Assoc(PostsIn(a), PostsIn(front), if b[|b| - 1].Post? then [b[|b| - 1].event] else []);
    }
  }

  lemma {:induction false} LiveInConcat(ch: Channel, a: seq<Sent>, b: seq<Sent>)
    ensures LiveIn(ch, a + b) == LiveIn(ch, a) + LiveIn(ch, b)
  {
    if b == [] {
      assert a + b == a;
    } else {
      var front, s := b[..|b| - 1], b[|b| - 1];
      LiveInConcat(ch, a, front);
      assert (a + b)[..|a + b| - 1] == a + front && (a + b)[|a + b| - 1] == s;
      Assoc(LiveIn(ch, a), LiveIn(ch, front), if s.Live? && s.channel == ch then [(s.index, s.diff)] else []);
    }
  }

  lemma {:induction false} OfSends(ch: Channel, events: seq<Event>)
    ensures PostsIn(Sends(events)) == events && LiveIn(ch, Sends(events)) == []
  {
    if events != [] {
      var before := events[..|events| - 1];
      OfSends(ch, before);
      assert Sends(events)[..|events| - 1] == Sends(before) && events == before + [events[|events| - 1]];
    }
  }

  lemma {:induction false} OfLives(ch: Channel, other: Channel, diffs: seq<(int, Diff)>)
    ensures PostsIn(Lives(ch, diffs)) == [] && LiveIn(other, Lives(ch, diffs)) == if ch == other then diffs else []
  {
    if diffs != [] {
      var before, d := diffs[..|diffs| - 1], diffs[|diffs| - 1];
      assert diffs == before + [d];
      OfLives(ch, other, before);
      LivesSnoc(ch, before, d);
      OfOne(Live(ch, d.0, d.1), other);
      PostsInConcat(Lives(ch, before), [Live(ch, d.0, d.1)]);
      LiveInConcat(other, Lives(ch, before), [Live(ch, d.0, d.1)]);
    }
  }

  lemma {:induction false} LivesSnoc(ch: Channel, diffs: seq<(int, Diff)>, d: (int, Diff))
    ensures Lives(ch, diffs + [d]) == Lives(ch, diffs) + [Live(ch, d.0, d.1)]
  {
  }

  lemma {:induction false} OfOne(s: Sent, ch: Channel)
    ensures PostsIn([s]) == if s.Post? then [s.event] else []
    ensures LiveIn(ch, [s]) == if s.Live? && s.channel == ch then [(s.index, s.diff)] else []
  {
    assert PostsIn([]) == [] && LiveIn(ch, []) == [];
  }

  lemma {:induction false} OfSending(env: Env, before: History, o: Observation, ch: Channel)
    ensures PostsIn(Sending(env, before, o)) == if IsLive(o) then [] else NewPosts(env, before, o)
    ensures LiveIn(ch, Sending(env, before, o)) == if IsLive(o) then NewDeltas(ch, before, o) else []
  {
    if IsLive(o) {
      var r, t := NewDeltas(Reasoning, before, o), NewDeltas(Text, before, o);
      PostsInConcat(Lives(Reasoning, r), Lives(Text, t));
      LiveInConcat(ch, Lives(Reasoning, r), Lives(Text, t));
      OfLives(Reasoning, ch, r);
      OfLives(Text, ch, t);
    } else {
      OfSends(ch, NewPosts(env, before, o));
    }
  }

  lemma {:induction false} TracePosts(env: Env, h: History)
    ensures PostsIn(Trace(env, h)) == PostsOf(env, Kept(h))
    decreases |h|, 1
  {
    if h != [] {
      SplitLast(h);
      TracePostsSnoc(env, h[..|h| - 1], h[|h| - 1], h);
    }
  }

  lemma {:induction false} TracePostsSnoc(env: Env, before: History, o: Observation, h: History)
    requires h == before + [o]
    ensures PostsIn(Trace(env, h)) == PostsOf(env, Kept(h))
    decreases |before| + 1, 0
  {
    TracePosts(env, before);
    TraceSnoc(env, before, o);
    PostsInConcat(Trace(env, before), Sending(env, before, o));
    OfSending(env, before, o, Text);
    PostsGrow(env, before, o);
  }

  lemma {:induction false} TraceDeltas(env: Env, h: History, ch: Channel)
    ensures LiveIn(ch, Trace(env, h)) == TrackAll(ch, h).out
    decreases |h|, 1
  {
    if h != [] {
      SplitLast(h);
      TraceDeltasSnoc(env, h[..|h| - 1], h[|h| - 1], h, ch);
    }
  }

  lemma {:induction false} TraceDeltasSnoc(env: Env, before: History, o: Observation, h: History, ch: Channel)
    requires h == before + [o]
    ensures LiveIn(ch, Trace(env, h)) == TrackAll(ch, h).out
    decreases |before| + 1, 0
  {
    TraceDeltas(env, before, ch);
    TraceSnoc(env, before, o);
    LiveInConcat(ch, Trace(env, before), Sending(env, before, o));
    OfSending(env, before, o, ch);
    DeltasGrow(ch, before, o);
  }

  /** One trace, two views: its posts are those of the committed path, its deltas those of the trackers. */
  lemma {:induction false} TraceViews(env: Env, h: History, ch: Channel)
    ensures PostsIn(Trace(env, h)) == PostsOf(env, Kept(h)) && LiveIn(ch, Trace(env, h)) == TrackAll(ch, h).out
  {
    TracePosts(env, h);
    TraceDeltas(env, h, ch);
  }

  lemma {:induction false} PostsGrow(env: Env, before: History, o: Observation)
    ensures PostsOf(env, Kept(before + [o])) ==
            PostsOf(env, Kept(before)) + if IsLive(o) then [] else NewPosts(env, before, o)
  {
    var c, posts := CoreAfter(env, Kept(before)), PostsOf(env, Kept(before));
    assert posts + [] == posts;
    if KeyOf(o.step) in SettledKeys(before) {
      SeenAgain(env, before, o);
    } else {
      NotYetSeen(env, before, o, c);
      LiveIsInert(env, c, o);
    }
  }

  lemma {:induction false} LiveIsInert(env: Env, c: Core, o: Observation)
    ensures IsLive(o) ==> Posts(env, c, o.step) == []
  {
    if IsLive(o) {
      UnsettledIsInert(env, c, o.step);
    }
  }

  lemma {:induction false} DeltasGrow(ch: Channel, before: History, o: Observation)
    ensures TrackAll(ch, before + [o]).out == TrackAll(ch, before).out + if IsLive(o) then NewDeltas(ch, before, o)
            else []
  {
    assert (before + [o])[..|before|] == before;
    assert TrackAll(ch, before).out + [] == TrackAll(ch, before).out;
  }

  /** What was appended to a sequence of posts, or of deltas. */
  function NewEvents(before: seq<Event>, after: seq<Event>): (r: seq<Sent>) {
    if |before| <= |after| then Sends(after[|before|..]) else []
  }

  function NewPart(ch: Channel, before: seq<(int, Diff)>, after: seq<(int, Diff)>): (r: seq<Sent>) {
    if |before| <= |after| then Lives(ch, after[|before|..]) else []
  }

  lemma {:induction false} EventsPart(before: seq<Event>, more: seq<Event>)
    ensures NewEvents(before, before + more) == Sends(more)
  {
    assert (before + more)[|before|..] == more;
  }

  lemma {:induction false} DeltasPart(ch: Channel, before: seq<(int, Diff)>, more: seq<(int, Diff)>)
    ensures NewPart(ch, before, before + more) == Lives(ch, more)
  {
    assert (before + more)[|before|..] == more;
  }

  /** What one observation appends to the three sequences, in the order it sends them, extends the trace. */
  lemma {:induction false} SentStep(env: Env, h: History, o: Observation, h': History, posts: seq<Event>,
                                    posts': seq<Event>, reasoning: seq<(int, Diff)>, reasoning': seq<(int, Diff)>,
                                    text: seq<(int, Diff)>, text': seq<(int, Diff)>, trace: seq<Sent>)
    requires h' == h + [o] && trace == Trace(env, h)
    requires posts == PostsOf(env, Kept(h)) && posts' == PostsOf(env, Kept(h'))
    requires reasoning == TrackAll(Reasoning, h).out && reasoning' == TrackAll(Reasoning, h').out
    requires text == TrackAll(Text, h).out && text' == TrackAll(Text, h').out
    ensures trace + (NewPart(Reasoning, reasoning, reasoning') + NewPart(Text, text, text')
                     + NewEvents(posts, posts')) ==
            Trace(env, h')
  {
    PostsGrow(env, h, o);
    DeltasGrow(Reasoning, h, o);
    DeltasGrow(Text, h, o);
    EventsPart(posts, if IsLive(o) then [] else NewPosts(env, h, o));
    DeltasPart(Reasoning, reasoning, if IsLive(o) then NewDeltas(Reasoning, h, o) else []);
    DeltasPart(Text, text, if IsLive(o) then NewDeltas(Text, h, o) else []);
    TraceSnoc(env, h, o);
    Padding(Lives(Reasoning, NewDeltas(Reasoning, h, o)) + Lives(Text, NewDeltas(Text, h, o)),
            Sends(NewPosts(env, h, o)));
  }

  lemma Padding(live: seq<Sent>, posts: seq<Sent>)
    ensures live + Sends([]) == live
    ensures Lives(Reasoning, []) + Lives(Text, []) + posts == posts
  {
  }

  // ------------------------------------------------- frames that come too late

  /** A frame sends its whole text exactly when its index has shown nothing since it was last cleared. */
  lemma {:induction false} WholeTextIff(ch: Channel, before: History, frame: Step, text: string)
    requires IsGeneratingPlanner(frame) && frame.index.Some? && Partial(ch, frame) == Some(text) && text != ""
    ensures var i := frame.index.value;
            var shown := Forwarded(Last(SinceClear(Project(ch, before, i))));
            (exists d :: NewDeltas(ch, before, Streamed(frame)) == [(i, d)] && d.suffix == text) <==> shown == ""
  {
    var i := frame.index.value;
    var touches := Project(ch, before, i);
    IndexesAreIndependent(ch, before, i);
    SplitAtClear(touches);
    ClearStartsAfresh(UpToClear(touches), SinceClear(touches));
    var tracker := Last(SinceClear(touches));
    assert Lookup(TrackAll(ch, before).trackers, i) == tracker;
    EmitsWhole(tracker, text, i, NewDeltas(ch, before, Streamed(frame)));
  }

  lemma {:induction false} EmitsWhole(tracker: Option<string>, text: string, i: int, diffs: seq<(int, Diff)>)
    requires text != "" && diffs == Tag(i, Emit(tracker, text))
    ensures (exists d :: diffs == [(i, d)] && d.suffix == text) <==> Forwarded(tracker) == ""
  {
    var shown := Forwarded(tracker);
    if shown == "" {
      var d := Diff(text, tracker.None?);
      assert text[|shown|..] == text;
      assert diffs == [(i, d)] && d.suffix == text;
    } else if shown <= text && |text| > |shown| {
      assert diffs[0].1.suffix == text[|shown|..] && |text[|shown|..]| < |text|;
    }
  }

  /**
   Deltas need not precede the committed message: a GENERATING frame delivered again
   after its step was committed on the stream sends the whole text once more.
   */
  lemma {:induction false} LateFrameRepeats(env: Env, h: History, done: Step, frame: Step, text: string)
    requires !IsGeneratingPlanner(done) && done.index.Some? && frame.index == done.index
    requires IsGeneratingPlanner(frame) && Partial(Text, frame) == Some(text) && text != ""
    ensures var before := h + [Streamed(done)];
            Trace(env, before + [Streamed(frame)]) ==
            Trace(env, before) + Lives(Reasoning, NewDeltas(Reasoning, before, Streamed(frame)))
            + [Live(Text, frame.index.value, Diff(text, true))]
  {
    var before := h + [Streamed(done)];
    var i := frame.index.value;
    TraceSnoc(env, before, Streamed(frame));
    Cleared(h, done);
    FirstFrame(before, frame, text);
    var reasoning := Lives(Reasoning, NewDeltas(Reasoning, before, Streamed(frame)));
    assert Lives(Text, [(i, Diff(text, true))]) == [Live(Text, i, Diff(text, true))];
    Assoc(Trace(env, before), reasoning, [Live(Text, i, Diff(text, true))]);
  }

  lemma {:induction false} Cleared(h: History, done: Step)
    requires !IsGeneratingPlanner(done) && done.index.Some?
    ensures done.index.value !in TrackAll(Text, h + [Streamed(done)]).trackers
  {
    assert (h + [Streamed(done)])[..|h|] == h;
  }

  lemma {:induction false} FirstFrame(before: History, frame: Step, text: string)
    requires IsGeneratingPlanner(frame) && frame.index.Some? && Partial(Text, frame) == Some(text) && text != ""
    requires frame.index.value !in TrackAll(Text, before).trackers
    ensures NewDeltas(Text, before, Streamed(frame)) == [(frame.index.value, Diff(text, true))]
  {
    assert text[0..] == text;
  }
}

/**
 Connect stream framing (omnigent/antigravity_native_rpc.py): request envelopes,
 and the reassembly of the response byte stream into updates. The frame format is
 the enveloped message of the "Streaming RPCs" section of the Connect Protocol.
 JSON is a parse function; HTTP is a status code and a list of byte chunks.
 */
module Framing {
  import opened Common

  type Byte = x: int | 0 <= x < 256

  const FRAME_HEADER_LENGTH: nat := 5
  const LENGTH_LIMIT: nat := 0x1_0000_0000

  // ------------------------------------------------------------ wire format

  datatype Frame = Frame(flag: Byte, payload: seq<Byte>)

  predicate Fits(f: Frame) {
    |f.payload| < LENGTH_LIMIT
  }

  function BigEndian(n: nat): (r: seq<Byte>)
    requires n < LENGTH_LIMIT
    ensures |r| == 4
  {
    var high := n / 256;
    var higher := high / 256;
    [higher / 256, higher % 256, high % 256, n % 256]
  }

  function FromBigEndian(a: Byte, b: Byte, c: Byte, d: Byte): (n: nat)
    ensures n < LENGTH_LIMIT
  {
    ((a * 256 + b) * 256 + c) * 256 + d
  }

  lemma {:induction false} LengthRoundTrip(n: nat)
    requires n < LENGTH_LIMIT
    ensures var r := BigEndian(n); FromBigEndian(r[0], r[1], r[2], r[3]) == n
  {
  }

  lemma {:induction false} HeaderRoundTrip(a: Byte, b: Byte, c: Byte, d: Byte)
    ensures BigEndian(FromBigEndian(a, b, c, d)) == [a, b, c, d]
  {
    Peel((a * 256 + b) * 256 + c, d);
    Peel(a * 256 + b, c);
    Peel(a, b);
  }

  lemma {:induction false} Peel(high: nat, low: Byte)
    ensures (high * 256 + low) / 256 == high && (high * 256 + low) % 256 == low
  {
  }

  function Encode(f: Frame): (r: seq<Byte>)
    requires Fits(f)
    ensures |r| == FRAME_HEADER_LENGTH + |f.payload|
  {
    [f.flag] + BigEndian(|f.payload|) + f.payload
  }

  /** A request envelope; a payload whose length does not fit 32 bits is refused. */
  function EncodeConnectEnvelope(payload: seq<Byte>): (r: Option<seq<Byte>>)
    ensures r.Some? <==> |payload| < 0x1_0000_0000
    ensures r.Some? ==> NextFrame(r.value) == Complete(Frame(0, payload), [])
  {
    if |payload| < LENGTH_LIMIT then
      NextOfEncoded(Frame(0, payload), []);
      assert Encode(Frame(0, payload)) + [] == Encode(Frame(0, payload));
      Some(Encode(Frame(0, payload)))
    else None
  }

  datatype Next = Incomplete | Complete(frame: Frame, rest: seq<Byte>)

  /** The frame at the front of a buffer, once its header and payload are all there. */
  function NextFrame(b: seq<Byte>): (r: Next)
    ensures r.Complete? ==> Fits(r.frame) && |r.rest| < |b|
  {
    if |b| < FRAME_HEADER_LENGTH then Incomplete
    else
      var end := FRAME_HEADER_LENGTH + FromBigEndian(b[1], b[2], b[3], b[4]);
      if |b| < end then Incomplete else Complete(Frame(b[0], b[FRAME_HEADER_LENGTH..end]), b[end..])
  }

  lemma {:induction false} NextOfEncoded(f: Frame, more: seq<Byte>)
    requires Fits(f)
    ensures NextFrame(Encode(f) + more) == Complete(f, more)
  {
    var b := Encode(f) + more;
    LengthRoundTrip(|f.payload|);
    assert b[..5] == [f.flag] + BigEndian(|f.payload|);
    assert b[1] == BigEndian(|f.payload|)[0] && b[2] == BigEndian(|f.payload|)[1]
        && b[3] == BigEndian(|f.payload|)[2] && b[4] == BigEndian(|f.payload|)[3];
    assert b[5..5 + |f.payload|] == f.payload && b[5 + |f.payload|..] == more;
  }

  lemma {:induction false} NextIsEncoded(b: seq<Byte>)
    requires NextFrame(b).Complete?
    ensures b == Encode(NextFrame(b).frame) + NextFrame(b).rest
  {
    var n := NextFrame(b);
    var end := FRAME_HEADER_LENGTH + |n.frame.payload|;
    HeaderRoundTrip(b[1], b[2], b[3], b[4]);
    assert BigEndian(|n.frame.payload|) == b[1..5];
    assert b == b[..1] + b[1..5] + b[5..end] + b[end..];
    assert b[..1] == [n.frame.flag];
  }

  /** Bytes that arrive later do not change a frame that is already complete. */
  lemma {:induction false} NextExtends(b: seq<Byte>, more: seq<Byte>)
    requires NextFrame(b).Complete?
    ensures NextFrame(b + more) == Complete(NextFrame(b).frame, NextFrame(b).rest + more)
  {
    var n := NextFrame(b);
    NextIsEncoded(b);
    Assoc(Encode(n.frame), n.rest, more);
    NextOfEncoded(n.frame, n.rest + more);
  }

  // -------------------------------------------------- whole streams of frames

  datatype Framed = Framed(frames: seq<Frame>, leftover: seq<Byte>)

  function Split(b: seq<Byte>): (r: Framed)
    decreases |b|
  {
    match NextFrame(b)
    case Incomplete => Framed([], b)
    case Complete(frame, rest) => var tail := Split(rest); Framed([frame] + tail.frames, tail.leftover)
  }

  predicate AllFit(frames: seq<Frame>) {
    forall i :: 0 <= i < |frames| ==> Fits(frames[i])
  }

  function Join(frames: seq<Frame>): (r: seq<Byte>)
    requires AllFit(frames)
  {
    if frames == [] then [] else Encode(frames[0]) + Join(frames[1..])
  }

  /** Framing loses nothing: every byte string is its frames followed by an incomplete one. */
  lemma {:induction false} JoinOfSplit(b: seq<Byte>)
    ensures AllFit(Split(b).frames) && NextFrame(Split(b).leftover).Incomplete?
    ensures Join(Split(b).frames) + Split(b).leftover == b
    decreases |b|
  {
    var n := NextFrame(b);
    if n.Complete? {
      JoinOfSplit(n.rest);
      NextIsEncoded(b);
      var tail := Split(n.rest);
      assert ([n.frame] + tail.frames)[1..] == tail.frames;
      Assoc(Encode(n.frame), Join(tail.frames), tail.leftover);
    }
  }

  /** Framing is unambiguous: encoded frames come back, whatever incomplete bytes follow. */
  lemma {:induction false} SplitOfJoin(frames: seq<Frame>, rest: seq<Byte>)
    requires AllFit(frames)
    ensures Split(Join(frames) + rest) == Framed(frames + Split(rest).frames, Split(rest).leftover)
  {
    if frames == [] {
      assert Join(frames) + rest == rest;
    } else {
      var f, tail := frames[0], frames[1..];
      SplitOfJoin(tail, rest);
      Assoc(Encode(f), Join(tail), rest);
      SplitCons(f, Join(tail) + rest);
      FramesCons(frames, Split(rest).frames);
    }
  }

  lemma FramesCons(frames: seq<Frame>, more: seq<Frame>)
    requires frames != []
    ensures [frames[0]] + (frames[1..] + more) == frames + more
  {
  }

  lemma {:induction false} SplitCons(f: Frame, more: seq<Byte>)
    requires Fits(f)
    ensures Split(Encode(f) + more) == Framed([f] + Split(more).frames, Split(more).leftover)
  {
    NextOfEncoded(f, more);
  }

  // ------------------------------------------------------- meaning of frames

  /**
   What `json.loads` makes of a payload. `Malformed` is its JSON decode error;
   `ParseRaises` is any other exception (bytes that are not text, an integer with too
   many digits, nesting too deep), which the decoder does not catch. `update` is the
   nested object, `error` a truthy error.
   */
  datatype Document<V> =
    | ParseRaises
    | Malformed
    | NotObject
    | Object(body: V, update: Option<V>, error: Option<V>)

  /** How the stream ends for its consumer. */
  datatype End<V> =
    | Closed
    | Severed
    | Trailer
    | TrailerError(error: V)
    | HttpError(status: int)
    | CompressedFrame(flag: Byte)
    | MalformedData
    | UncaughtParseError

  datatype Decoded<V> = Decoded(updates: seq<V>, end: End<V>)

  datatype Reaction<V> = Yield(update: V) | Ignore | Stop(end: End<V>)

  predicate IsCompressed(flag: Byte) {
    flag % 2 == 1
  }

  predicate IsTrailer(flag: Byte) {
    flag / 2 % 2 == 1
  }

  function ConnectTrailerError<V>(parse: seq<Byte> -> Document<V>, payload: seq<Byte>): (r: End<V>) {
    if payload == [] then Trailer
    else
      match parse(payload)
      case ParseRaises => UncaughtParseError
      case Malformed => Trailer
      case NotObject => Trailer
      case Object(_, _, error) => if error.Some? then TrailerError(error.value) else Trailer
  }

  function React<V>(parse: seq<Byte> -> Document<V>, f: Frame): (r: Reaction<V>) {
    if IsCompressed(f.flag) then Stop(CompressedFrame(f.flag))
    else if IsTrailer(f.flag) then Stop(ConnectTrailerError(parse, f.payload))
    else
      match parse(f.payload)
      case ParseRaises => Stop(UncaughtParseError)
      case Malformed => Stop(MalformedData)
      case NotObject => Ignore
      case Object(body, update, _) => Yield(if update.Some? then update.value else body)
  }

  function Prepend<V>(updates: seq<V>, d: Decoded<V>): (r: Decoded<V>) {
    Decoded(updates + d.updates, d.end)
  }

  /** The reference meaning: take whole frames in order until one ends the stream. */
  function Interpret<V>(parse: seq<Byte> -> Document<V>, frames: seq<Frame>, atEnd: End<V>): (r: Decoded<V>) {
    if frames == [] then Decoded([], atEnd)
    else
      match React(parse, frames[0])
      case Yield(u) => Prepend([u], Interpret(parse, frames[1..], atEnd))
      case Ignore => Interpret(parse, frames[1..], atEnd)
      case Stop(end) => Decoded([], end)
  }

  function Meaning<V>(parse: seq<Byte> -> Document<V>, bytes: seq<Byte>, atEnd: End<V>): (r: Decoded<V>) {
    Interpret(parse, Split(bytes).frames, atEnd)
  }

  lemma {:induction false} MeaningStep<V>(parse: seq<Byte> -> Document<V>, b: seq<Byte>, more: seq<Byte>, atEnd: End<V>)
    requires NextFrame(b).Complete?
    ensures Meaning(parse, b + more, atEnd) ==
              match React(parse, NextFrame(b).frame) {
                case Yield(u) => Prepend([u], Meaning(parse, NextFrame(b).rest + more, atEnd))
                case Ignore => Meaning(parse, NextFrame(b).rest + more, atEnd)
                case Stop(end) => Decoded([], end)
              }
  {
    NextExtends(b, more);
    var frames := Split(NextFrame(b).rest + more).frames;
    assert ([NextFrame(b).frame] + frames)[1..] == frames;
  }

  // ---------------------------------------------------------- the decoder

  function Flatten(chunks: seq<seq<Byte>>): (r: seq<Byte>) {
    if chunks == [] then [] else chunks[0] + Flatten(chunks[1..])
  }

  /** Cut one frame off the buffer, or wait for more bytes. */
  method TakeFrame(buffer: seq<Byte>) returns (r: Next)
    ensures r == NextFrame(buffer)
    ensures r.Complete? ==> buffer == Encode(r.frame) + r.rest
  {
    if |buffer| < FRAME_HEADER_LENGTH {
      return Incomplete;
    }
    var flag := buffer[0];
    var frameEnd := FRAME_HEADER_LENGTH + FromBigEndian(buffer[1], buffer[2], buffer[3], buffer[4]);
    if |buffer| < frameEnd {
      return Incomplete;
    }
    NextIsEncoded(buffer);
    r := Complete(Frame(flag, buffer[FRAME_HEADER_LENGTH..frameEnd]), buffer[frameEnd..]);
  }

  /** What the loop does with one frame: the flag bits first, then the JSON. */
  method HandleFrame<V>(parse: seq<Byte> -> Document<V>, flag: Byte, payload: seq<Byte>) returns (r: Reaction<V>)
    ensures r == React(parse, Frame(flag, payload))
    ensures r.Yield? <==> flag % 4 == 0 && parse(payload).Object?
    ensures r.Stop? && r.end == Trailer <==> flag % 4 == 2 && (payload == [] || CleanTrailer(parse(payload)))
  {
    if flag % 2 == 1 {
      return Stop(CompressedFrame(flag));
    }
    if flag / 2 % 2 == 1 {
      var end := ConnectTrailerError(parse, payload);
      return Stop(end);
    }
    var document := parse(payload);
    match document {
      case ParseRaises =>
        r := Stop(UncaughtParseError);
      case Malformed =>
        r := Stop(MalformedData);
      case NotObject =>
        r := Ignore;
      case Object(body, update, _) =>
        r := Yield(if update.Some? then update.value else body);
    }
  }

  /** A trailer document that reports no error. */
  predicate CleanTrailer<V>(d: Document<V>) {
    d.Malformed? || d.NotObject? || (d.Object? && d.error.None?)
  }

  /** The inner loop: take whole frames off the buffer until one ends the stream or more bytes are needed. */
  method DrainBuffer<V>(parse: seq<Byte> -> Document<V>, buffer: seq<Byte>, updates: seq<V>,
                        ghost later: seq<Byte>, ghost atEnd: End<V>, ghost whole: Decoded<V>)
    returns (buffer': seq<Byte>, updates': seq<V>, ended: Option<End<V>>)
    requires whole == Prepend(updates, Meaning(parse, buffer + later, atEnd))
    ensures ended.Some? ==> whole == Decoded(updates', ended.value)
    ensures ended.None? ==>
              NextFrame(buffer').Incomplete? && whole == Prepend(updates', Meaning(parse, buffer' + later, atEnd))
  {
    buffer', updates', ended := buffer, updates, None;
    var next := TakeFrame(buffer);
    while next.Complete?
      invariant next == NextFrame(buffer') && whole == Prepend(updates', Meaning(parse, buffer' + later, atEnd))
      decreases |buffer'|
    {
      MeaningStep(parse, buffer', later, atEnd);
      buffer' := next.rest;
      var reaction := HandleFrame(parse, next.frame.flag, next.frame.payload);
      if reaction.Stop? {
        assert updates' + [] == updates';
        ended := Some(reaction.end);
        return;
      }
      if reaction.Yield? {
        Assoc(updates', [reaction.update], Meaning(parse, buffer' + later, atEnd).updates);
        updates' := updates' + [reaction.update];
      }
      next := TakeFrame(buffer');
    }
  }

  /**
   The reassembly loop. Its result is the meaning of the concatenated bytes: how
   the network cut them into chunks makes no difference.
   */
  method StreamAgentStateUpdates<V>(parse: seq<Byte> -> Document<V>, status: int, chunks: seq<seq<Byte>>, severed: bool)
    returns (r: Decoded<V>)
    ensures status >= 400 ==> r == Decoded([], HttpError(status))
    ensures status < 400 ==> r == Meaning(parse, Flatten(chunks), if severed then Severed else Closed)
  {
    if status >= 400 {
      return Decoded([], HttpError(status));
    }
    var atEnd: End<V> := if severed then Severed else Closed;
    ghost var whole := Meaning(parse, Flatten(chunks), atEnd);
    var buffer: seq<Byte>, updates: seq<V> := [], [];
    FirstChunk(parse, chunks, atEnd);
    for i := 0 to |chunks|
      invariant whole == Prepend(updates, Meaning(parse, buffer + Flatten(chunks[i..]), atEnd))
      invariant NextFrame(buffer).Incomplete?
    {
      NextChunk(buffer, chunks, i);
      var ended;
      buffer, updates, ended := DrainBuffer(parse, buffer + chunks[i], updates, Flatten(chunks[i + 1..]), atEnd, whole);
      if ended.Some? {
        return Decoded(updates, ended.value);
      }
    }
    LastChunk(parse, chunks, buffer, updates, atEnd);
    r := Decoded(updates, atEnd);
  }

  lemma {:induction false} FirstChunk<V>(parse: seq<Byte> -> Document<V>, chunks: seq<seq<Byte>>, atEnd: End<V>)
    ensures Prepend([], Meaning(parse, [] + Flatten(chunks[0..]), atEnd)) == Meaning(parse, Flatten(chunks), atEnd)
  {
    assert chunks[0..] == chunks && [] + Flatten(chunks) == Flatten(chunks);
  }

  lemma {:induction false} NextChunk(buffer: seq<Byte>, chunks: seq<seq<Byte>>, i: nat)
    requires i < |chunks|
    ensures buffer + chunks[i] + Flatten(chunks[i + 1..]) == buffer + Flatten(chunks[i..])
  {
    assert chunks[i..][0] == chunks[i] && chunks[i..][1..] == chunks[i + 1..];
    Assoc(buffer, chunks[i], Flatten(chunks[i + 1..]));
  }

  lemma {:induction false} LastChunk<V>(parse: seq<Byte> -> Document<V>, chunks: seq<seq<Byte>>,
                                        buffer: seq<Byte>, updates: seq<V>, atEnd: End<V>)
    requires NextFrame(buffer).Incomplete?
    ensures Prepend(updates, Meaning(parse, buffer + Flatten(chunks[|chunks|..]), atEnd)) == Decoded(updates, atEnd)
  {
    assert buffer + Flatten(chunks[|chunks|..]) == buffer && updates + [] == updates;
  }

  // ------------------------------------------------------------- the laws

  /** The update a data payload stands for. */
  function Unwrap<V>(d: Document<V>): (v: V)
    requires d.Object?
  {
    if d.update.Some? then d.update.value else d.body
  }

  function DataFrames(payloads: seq<seq<Byte>>): (r: seq<Frame>)
    ensures |r| == |payloads| && forall i :: 0 <= i < |r| ==> r[i] == Frame(0, payloads[i])
  {
    seq(|payloads|, i requires 0 <= i < |payloads| => Frame(0, payloads[i]))
  }

  ghost predicate AreUpdates<V>(parse: seq<Byte> -> Document<V>, payloads: seq<seq<Byte>>, updates: seq<V>) {
    && |updates| == |payloads|
    && forall i :: 0 <= i < |payloads| ==> parse(payloads[i]).Object? && updates[i] == Unwrap(parse(payloads[i]))
  }

  lemma {:induction false} DataFramesTail(payloads: seq<seq<Byte>>, frames: seq<Frame>)
    requires payloads != []
    ensures var all := DataFrames(payloads) + frames;
            all[0] == Frame(0, payloads[0]) && all[1..] == DataFrames(payloads[1..]) + frames
  {
  }

  lemma {:induction false} InterpretData<V>(parse: seq<Byte> -> Document<V>, payloads: seq<seq<Byte>>, updates: seq<V>,
                                            frames: seq<Frame>, atEnd: End<V>)
    requires AreUpdates(parse, payloads, updates)
    ensures Interpret(parse, DataFrames(payloads) + frames, atEnd) == Prepend(updates, Interpret(parse, frames, atEnd))
  {
    var all := DataFrames(payloads) + frames;
    if payloads == [] {
      assert all == frames && updates == [];
    } else {
      assert AreUpdates(parse, payloads[1..], updates[1..]);
      InterpretData(parse, payloads[1..], updates[1..], frames, atEnd);
      DataFramesTail(payloads, frames);
      Assoc([updates[0]], updates[1..], Interpret(parse, frames, atEnd).updates);
      assert [updates[0]] + updates[1..] == updates;
    }
  }

  /**
   Round trip: a stream of encoded object payloads yields exactly those updates, in
   order, and then whatever the remaining bytes mean.
   */
  lemma {:induction false} EncodedPayloadsRoundTrip<V>(parse: seq<Byte> -> Document<V>, payloads: seq<seq<Byte>>,
                                                       updates: seq<V>, rest: seq<Byte>, atEnd: End<V>)
    requires AreUpdates(parse, payloads, updates)
    requires forall i :: 0 <= i < |payloads| ==> |payloads[i]| < LENGTH_LIMIT
    ensures AllFit(DataFrames(payloads))
    ensures Meaning(parse, Join(DataFrames(payloads)) + rest, atEnd) == Prepend(updates, Meaning(parse, rest, atEnd))
  {
    SplitOfJoin(DataFrames(payloads), rest);
    InterpretData(parse, payloads, updates, Split(rest).frames, atEnd);
  }

  /** After a trailer nothing is yielded, whatever bytes follow and however the stream ends. */
  lemma {:induction false} NothingAfterTrailer<V>(parse: seq<Byte> -> Document<V>, trailer: Frame, junk: seq<Byte>,
                                                  atEnd: End<V>)
    requires Fits(trailer) && IsTrailer(trailer.flag)
    ensures Meaning(parse, Encode(trailer) + junk, atEnd).updates == []
    ensures Meaning(parse, Encode(trailer) + junk, atEnd) == Meaning(parse, Encode(trailer), Trailer)
  {
    NextOfEncoded(trailer, junk);
    NextOfEncoded(trailer, []);
    assert Encode(trailer) + [] == Encode(trailer);
  }

  lemma {:induction false} SplitExtends(b: seq<Byte>, more: seq<Byte>)
    ensures Split(b + more).frames == Split(b).frames + Split(Split(b).leftover + more).frames
  {
    var s := Split(b);
    JoinOfSplit(b);
    Assoc(Join(s.frames), s.leftover, more);
    SplitOfJoin(s.frames, s.leftover + more);
  }

  /** Some frame ends the stream. */
  ghost predicate Ends<V>(parse: seq<Byte> -> Document<V>, frames: seq<Frame>) {
    exists i :: 0 <= i < |frames| && React(parse, frames[i]).Stop?
  }

  lemma {:induction false} InterpretConcat<V>(parse: seq<Byte> -> Document<V>, xs: seq<Frame>, ys: seq<Frame>,
                                              atEnd: End<V>)
    ensures Ends(parse, xs) ==> Interpret(parse, xs + ys, atEnd) == Interpret(parse, xs, atEnd)
    ensures !Ends(parse, xs) ==>
            Interpret(parse, xs + ys, atEnd) ==
                Prepend(Interpret(parse, xs, atEnd).updates, Interpret(parse, ys, atEnd))
  {
    if xs == [] {
      assert xs + ys == ys;
    } else {
      InterpretConcat(parse, xs[1..], ys, atEnd);
      assert (xs + ys)[1..] == xs[1..] + ys;
      EndsStep(parse, xs);
      var r := React(parse, xs[0]);
      if r.Yield? {
        Assoc([r.update], Interpret(parse, xs[1..], atEnd).updates, Interpret(parse, ys, atEnd).updates);
      }
    }
  }

  lemma {:induction false} EndsStep<V>(parse: seq<Byte> -> Document<V>, frames: seq<Frame>)
    requires frames != []
    ensures Ends(parse, frames) <==> React(parse, frames[0]).Stop? || Ends(parse, frames[1..])
  {
    if Ends(parse, frames) {
      var i :| 0 <= i < |frames| && React(parse, frames[i]).Stop?;
      assert i > 0 ==> frames[1..][i - 1] == frames[i];
    }
    if Ends(parse, frames[1..]) {
      var i :| 0 <= i < |frames[1..]| && React(parse, frames[1..][i]).Stop?;
      assert frames[i + 1] == frames[1..][i];
    }
  }

  /**
   More bytes never retract an update, and once a frame has ended the stream they
   change nothing.
   */
  lemma {:induction false} MoreBytesOnlyAdd<V>(parse: seq<Byte> -> Document<V>, b: seq<Byte>, more: seq<Byte>,
                                               atEnd: End<V>)
    ensures Meaning(parse, b, atEnd).updates <= Meaning(parse, b + more, atEnd).updates
    ensures Ends(parse, Split(b).frames) ==> Meaning(parse, b + more, atEnd) == Meaning(parse, b, atEnd)
  {
    SplitExtends(b, more);
    InterpretConcat(parse, Split(b).frames, Split(Split(b).leftover + more).frames, atEnd);
  }

  // ----------------------------------- payloads whose parsing raises otherwise

  /** A frame whose payload reaches the JSON parser and makes it raise something else than a decode error. */
  predicate RaisesInParser<V>(parse: seq<Byte> -> Document<V>, f: Frame) {
    !IsCompressed(f.flag) && parse(f.payload).ParseRaises? && (IsTrailer(f.flag) ==> f.payload != [])
  }

  /** Frame `i` is the one that ends the stream. */
  ghost predicate StopsAt<V>(parse: seq<Byte> -> Document<V>, frames: seq<Frame>, i: int) {
    && 0 <= i < |frames| && React(parse, frames[i]).Stop?
    && forall j :: 0 <= j < i ==> !React(parse, frames[j]).Stop?
  }

  /** The stream's final status is that of the first frame to end it, or else the transport's. */
  lemma {:induction false} FirstStopDecides<V>(parse: seq<Byte> -> Document<V>, frames: seq<Frame>, atEnd: End<V>)
    returns (at: int)
    ensures at < 0 ==> !Ends(parse, frames) && Interpret(parse, frames, atEnd).end == atEnd
    ensures at >= 0 ==>
              StopsAt(parse, frames, at) && Interpret(parse, frames, atEnd).end == React(parse, frames[at]).end
  {
    at := -1;
    if frames != [] {
      EndsStep(parse, frames);
      if React(parse, frames[0]).Stop? {
        at := 0;
      } else {
        var later := FirstStopDecides(parse, frames[1..], atEnd);
        if later >= 0 {
          at := later + 1;
          StopsLater(parse, frames, later);
        }
      }
    }
  }

  lemma {:induction false} StopsLater<V>(parse: seq<Byte> -> Document<V>, frames: seq<Frame>, i: int)
    requires frames != [] && !React(parse, frames[0]).Stop? && StopsAt(parse, frames[1..], i)
    ensures StopsAt(parse, frames, i + 1)
  {
    forall j | 0 <= j < i + 1 ensures !React(parse, frames[j]).Stop? {
      assert j > 0 ==> frames[j] == frames[1..][j - 1];
    }
  }

  /** The frame that ends the stream does so by making the parser raise. */
  ghost predicate EndsInParseError<V>(parse: seq<Byte> -> Document<V>, frames: seq<Frame>) {
    exists i :: StopsAt(parse, frames, i) && RaisesInParser(parse, frames[i])
  }

  /** The parser's exception escapes if and only if the frame that ends the stream makes it raise. */
  lemma {:induction false} ParseErrorEscapesIff<V>(parse: seq<Byte> -> Document<V>, bytes: seq<Byte>, atEnd: End<V>)
    requires atEnd.Closed? || atEnd.Severed?
    ensures Meaning(parse, bytes, atEnd).end.UncaughtParseError? <==> EndsInParseError(parse, Split(bytes).frames)
  {
    var frames := Split(bytes).frames;
    var at := FirstStopDecides(parse, frames, atEnd);
    if at >= 0 {
      StopUncaught(parse, frames[at]);
      assert forall i :: StopsAt(parse, frames, i) ==> i == at;
    } else {
      assert forall i :: !StopsAt(parse, frames, i);
    }
  }

  lemma {:induction false} StopUncaught<V>(parse: seq<Byte> -> Document<V>, f: Frame)
    ensures React(parse, f).Stop? && React(parse, f).end.UncaughtParseError? <==> RaisesInParser(parse, f)
  {
  }

  /** One data frame, or one trailer, with such a payload: neither an RPC error nor a clean stop. */
  lemma {:induction false} ParseErrorStream<V>(parse: seq<Byte> -> Document<V>, flag: Byte, payload: seq<Byte>)
    requires (flag == 0 || flag == 2) && 0 < |payload| < LENGTH_LIMIT && parse(payload).ParseRaises?
    ensures Meaning(parse, Encode(Frame(flag, payload)), Closed) == Decoded([], UncaughtParseError)
  {
    NextOfEncoded(Frame(flag, payload), []);
    assert Encode(Frame(flag, payload)) + [] == Encode(Frame(flag, payload));
  }

  // -------------------------------------------------- the table of final statuses

  /** A frame ends the stream if it is compressed, a trailer, or data the parser does not get through. */
  predicate StopFrame<V>(parse: seq<Byte> -> Document<V>, f: Frame) {
    f.flag % 4 != 0 || parse(f.payload).Malformed? || parse(f.payload).ParseRaises?
  }

  /** The status such a frame leaves, by its flag and its document. */
  function StatusOf<V>(parse: seq<Byte> -> Document<V>, f: Frame): (end: End<V>) {
    if f.flag % 4 == 1 || f.flag % 4 == 3 then CompressedFrame(f.flag)
    else if f.flag % 4 == 0 then if parse(f.payload).Malformed? then MalformedData else UncaughtParseError
    else if f.payload == [] then Trailer
    else
      match parse(f.payload)
      case Object(_, _, Some(e)) => TrailerError(e)
      case ParseRaises => UncaughtParseError
      case _ => Trailer
  }

  lemma {:induction false} ReactionMeaning<V>(parse: seq<Byte> -> Document<V>, f: Frame)
    ensures React(parse, f).Stop? <==> StopFrame(parse, f)
    ensures StopFrame(parse, f) ==> React(parse, f) == Stop(StatusOf(parse, f))
    ensures React(parse, f).Yield? <==> f.flag % 4 == 0 && parse(f.payload).Object?
    ensures React(parse, f).Yield? ==> React(parse, f).update == Unwrap(parse(f.payload))
  {
  }

  /** Frame `i` is the first that ends the stream. */
  ghost predicate FirstStop<V>(parse: seq<Byte> -> Document<V>, frames: seq<Frame>, i: int) {
    0 <= i < |frames| && StopFrame(parse, frames[i]) && forall j :: 0 <= j < i ==> !StopFrame(parse, frames[j])
  }

  /** The objects among these frames' payloads, unwrapped, in order. */
  function UpdatesIn<V>(parse: seq<Byte> -> Document<V>, frames: seq<Frame>): (updates: seq<V>) {
    if frames == [] then [] else
      var d := parse(frames[0].payload);
      (if d.Object? then [if d.update.Some? then d.update.value else d.body] else []) + UpdatesIn(parse, frames[1..])
  }

  /**
   The whole meaning of a stream, by flags and documents: the objects before the first
   frame that ends it, and that frame's status, or the transport's if there is none.
   */
  lemma {:induction false} StreamTable<V>(parse: seq<Byte> -> Document<V>, bytes: seq<Byte>, atEnd: End<V>)
    ensures NoStop(parse, Split(bytes).frames) || exists i :: FirstStop(parse, Split(bytes).frames, i)
    ensures NoStop(parse, Split(bytes).frames) ==>
              Meaning(parse, bytes, atEnd) == Decoded(UpdatesIn(parse, Split(bytes).frames), atEnd)
    ensures forall i :: FirstStop(parse, Split(bytes).frames, i) ==>
              Meaning(parse, bytes, atEnd)
              == Decoded(UpdatesIn(parse, Split(bytes).frames[..i]), StatusOf(parse, Split(bytes).frames[i]))
  {
    var frames := Split(bytes).frames;
    SomeStop(parse, frames);
    if NoStop(parse, frames) {
      NoStopTable(parse, frames, atEnd);
    }
    forall i | FirstStop(parse, frames, i)
      ensures Meaning(parse, bytes, atEnd) == Decoded(UpdatesIn(parse, frames[..i]), StatusOf(parse, frames[i]))
    {
      FirstStopTable(parse, frames, atEnd, i);
    }
  }

  ghost predicate NoStop<V>(parse: seq<Byte> -> Document<V>, frames: seq<Frame>) {
    forall i :: 0 <= i < |frames| ==> !StopFrame(parse, frames[i])
  }

  lemma {:induction false} SomeStop<V>(parse: seq<Byte> -> Document<V>, frames: seq<Frame>)
    ensures NoStop(parse, frames) || exists i :: FirstStop(parse, frames, i)
  {
    if frames != [] {
      var init := frames[..|frames| - 1];
      SomeStop(parse, init);
      if NoStop(parse, init) {
        assert forall i :: 0 <= i < |init| ==> frames[i] == init[i];
        assert StopFrame(parse, frames[|init|]) ==> FirstStop(parse, frames, |init|);
      } else {
        var i :| FirstStop(parse, init, i);
        assert FirstStop(parse, frames, i);
      }
    }
  }

  lemma {:induction false} NoStopTable<V>(parse: seq<Byte> -> Document<V>, frames: seq<Frame>, atEnd: End<V>)
    requires NoStop(parse, frames)
    ensures Interpret(parse, frames, atEnd) == Decoded(UpdatesIn(parse, frames), atEnd)
  {
    if frames != [] {
      ReactionMeaning(parse, frames[0]);
      NoStopTable(parse, frames[1..], atEnd);
    }
  }

  lemma {:induction false} FirstStopTable<V>(parse: seq<Byte> -> Document<V>, frames: seq<Frame>, atEnd: End<V>, i: int)
    requires FirstStop(parse, frames, i)
    ensures Interpret(parse, frames, atEnd) == Decoded(UpdatesIn(parse, frames[..i]), StatusOf(parse, frames[i]))
  {
    ReactionMeaning(parse, frames[0]);
    if i > 0 {
      FirstStopTable(parse, frames[1..], atEnd, i - 1);
      assert frames[..i][1..] == frames[1..][..i - 1] && frames[..i][0] == frames[0];
    }
  }

  /** An error trailer is reported, and nothing else is reported as one. */
  lemma {:induction false} TrailerErrorIff<V>(parse: seq<Byte> -> Document<V>, bytes: seq<Byte>, atEnd: End<V>, e: V)
    requires atEnd.Closed? || atEnd.Severed?
    ensures var frames := Split(bytes).frames;
            Meaning(parse, bytes, atEnd).end == TrailerError(e) <==>
            exists i :: FirstStop(parse, frames, i) && ReportsError(parse, frames[i], e)
  {
    StreamTable(parse, bytes, atEnd);
    StatusReportsError(parse, e);
  }

  /** An uncompressed trailer whose document is an object with this error. */
  ghost predicate ReportsError<V>(parse: seq<Byte> -> Document<V>, f: Frame, e: V) {
    f.flag % 4 == 2 && f.payload != [] && parse(f.payload).Object? && parse(f.payload).error == Some(e)
  }

  lemma {:induction false} StatusReportsError<V>(parse: seq<Byte> -> Document<V>, e: V)
    ensures forall f :: StatusOf(parse, f) == TrailerError(e) <==> ReportsError(parse, f, e)
  {
  }

  predicate HoldsMalformedData<V>(parse: seq<Byte> -> Document<V>, f: Frame) {
    f.flag % 4 == 0 && parse(f.payload).Malformed?
  }

  predicate HasOddFlag(f: Frame) {
    f.flag % 2 == 1
  }

  /** Malformed data is reported exactly when it is what ends the stream. */
  lemma {:induction false} MalformedDataIff<V>(parse: seq<Byte> -> Document<V>, bytes: seq<Byte>, atEnd: End<V>)
    requires atEnd.Closed? || atEnd.Severed?
    ensures var frames := Split(bytes).frames;
            Meaning(parse, bytes, atEnd).end.MalformedData? <==>
            exists i :: FirstStop(parse, frames, i) && HoldsMalformedData(parse, frames[i])
  {
    StreamTable(parse, bytes, atEnd);
    BadFrameStatus(parse);
  }

  /** So is a compressed frame. */
  lemma {:induction false} CompressedFrameIff<V>(parse: seq<Byte> -> Document<V>, bytes: seq<Byte>, atEnd: End<V>)
    requires atEnd.Closed? || atEnd.Severed?
    ensures var frames := Split(bytes).frames;
            Meaning(parse, bytes, atEnd).end.CompressedFrame? <==>
            exists i :: FirstStop(parse, frames, i) && HasOddFlag(frames[i])
  {
    StreamTable(parse, bytes, atEnd);
    BadFrameStatus(parse);
  }

  lemma {:induction false} BadFrameStatus<V>(parse: seq<Byte> -> Document<V>)
    ensures forall f :: StatusOf(parse, f).CompressedFrame? <==> HasOddFlag(f)
    ensures forall f :: StopFrame(parse, f) ==> (StatusOf(parse, f).MalformedData? <==> HoldsMalformedData(parse, f))
  {
  }

  /** The stream reads as closed, or as severed, only if no frame ended it. */
  lemma {:induction false} TransportEndIff<V>(parse: seq<Byte> -> Document<V>, bytes: seq<Byte>, atEnd: End<V>)
    requires atEnd.Closed? || atEnd.Severed?
    ensures var frames := Split(bytes).frames;
            Meaning(parse, bytes, atEnd).end == atEnd <==> NoStop(parse, frames)
    ensures Meaning(parse, bytes, atEnd).end.Closed? ==> atEnd.Closed?
    ensures Meaning(parse, bytes, atEnd).end.Severed? ==> atEnd.Severed?
  {
    StreamTable(parse, bytes, atEnd);
    if !NoStop(parse, Split(bytes).frames) {
      var i :| FirstStop(parse, Split(bytes).frames, i);
      StatusIsNotTransport(parse, Split(bytes).frames[i]);
    }
  }

  lemma {:induction false} StatusIsNotTransport<V>(parse: seq<Byte> -> Document<V>, f: Frame)
    ensures !StatusOf(parse, f).Closed? && !StatusOf(parse, f).Severed?
  {
  }

  /** Lengths are written most significant byte first. */
  lemma {:induction false} ByteWeights(a: Byte, b: Byte, c: Byte, d: Byte)
    ensures FromBigEndian(a, b, c, d) == a * 0x100_0000 + b * 0x1_0000 + c * 0x100 + d
  {
  }
}

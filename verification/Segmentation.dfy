/**
 COTP segmentation over TPKT (section 13.7 of ITU-T X.224): a message is cut into Data
 TPDUs, the last of which carries the end mark, and put together again.
 */
module Segmentation {
  import opened Octets
  import opened Tpkt

  const DATA_CODE: byte := 0xF0
  const DATA_HEADER: nat := 3
  const OVERHEAD: nat := HEADER_LENGTH + DATA_HEADER
  const MAXIMUM_PAYLOAD: nat := MAXIMUM_FRAME - HEADER_LENGTH

  type Piece = p: seq<byte> | |p| <= MAXIMUM_PAYLOAD - DATA_HEADER

  function DataTpdu(data: seq<byte>, eot: bool): seq<byte> {
    [2, DATA_CODE, if eot then 0x80 else 0] + data
  }

  function DataFrame(data: Piece, eot: bool): (f: Frame)
    ensures |f| == OVERHEAD + |data|
  {
    [3, 0, (OVERHEAD + |data|) / 256, (OVERHEAD + |data|) % 256] + DataTpdu(data, eot)
  }

  /** A frame whose header is good and declares exactly its own length. */
  predicate WholeFrame(f: Frame) {
    |f| >= HEADER_LENGTH && !BadHeader(f) && Declared(f) == |f|
  }

  /** TpktSpanCodec and CotpSpanCodec both read the frame, as a Data TPDU. */
  predicate IsData(f: Frame) {
    && WholeFrame(f)
    && |f| >= OVERHEAD && f[4] == 2 && f[5] == DATA_CODE
  }

  predicate EndsMessage(f: Frame)
    requires IsData(f)
  {
    f[6] >= 0x80
  }

  function UserData(f: Frame): seq<byte>
    requires IsData(f)
  {
    f[OVERHEAD..]
  }

  /** A data frame is read back as what was put in it, and the gate sees its end mark. */
  lemma DataFrameReads(data: Piece, eot: bool)
    ensures var f := DataFrame(data, eot);
      IsData(f) && EndsMessage(f) == eot && UserData(f) == data && IsDataEot(f) == eot
  {
  }

  // ----- Encoding

  /** One TSDU as frames of at most `room` octets of user data; an empty one still takes a frame. */
  function Segments(data: seq<byte>, room: nat): (frames: seq<Frame>)
    requires 0 < room <= MAXIMUM_PAYLOAD - DATA_HEADER
    ensures |frames| > 0
  {
    if |data| <= room then [DataFrame(data, true)]
    else [DataFrame(data[..room], false)] + Segments(data[room..], room)
  }

  function SegmentCount(size: nat, room: nat): nat
    requires room > 0
  {
    if size == 0 then 1 else 1 + (size - 1) / room
  }

  lemma SegmentCountStep(size: nat, room: nat)
    requires room > 0
    ensures SegmentCount(size, room) > 0
    ensures size <= room ==> SegmentCount(size, room) == 1
    ensures size > room ==> SegmentCount(size, room) == 1 + SegmentCount(size - room, room)
  {
    if 0 < size <= room {
      Quotient(size - 1, room, 0, size - 1);
    } else if size > room {
      var d := size - 1 - room;
      assert d == (d / room) * room + d % room;
      assert (d / room + 1) * room == (d / room) * room + room;
      Quotient(size - 1, room, d / room + 1, d % room);
    }
  }

  lemma {:induction false} PlanIsExact(data: seq<byte>, room: nat)
    requires 0 < room <= MAXIMUM_PAYLOAD - DATA_HEADER
    ensures |Segments(data, room)| == SegmentCount(|data|, room)
    ensures |Concat(Segments(data, room))| == |data| + SegmentCount(|data|, room) * OVERHEAD
  {
    SegmentCountStep(|data|, room);
    if |data| <= room {
      ConcatOne(DataFrame(data, true));
    } else {
      PlanIsExact(data[room..], room);
      var rest := Segments(data[room..], room);
      assert Segments(data, room)[1..] == rest;
    }
  }

  datatype EncodeResult =
    | Encoded(bytes: nat)
    | BufferTooSmall(required: nat)
    | ValueOutOfRange

  /** DT TPDU and TPKT header written in place at `offset`. */
  method EncodeFrame(destination: array<byte>, offset: nat, data: Piece, eot: bool)
    requires offset + OVERHEAD + |data| <= destination.Length
    modifies destination
    ensures destination[..] == Splice(old(destination[..]), offset, DataFrame(data, eot))
  {
    hide Splice, DataFrame, DataTpdu;
    var bytes := OVERHEAD + |data|;
    var head: seq<byte> := [3, 0, bytes / 256, bytes % 256];
    var dt: seq<byte> := [2, DATA_CODE, if eot then 0x80 else 0];
    SpliceThree(destination[..], offset, head, dt, data);
    FrameParts(data, eot);
    CopyInto(destination, offset + HEADER_LENGTH, dt);
    CopyInto(destination, offset + OVERHEAD, data);
    CopyInto(destination, offset, head);
  }

  lemma FrameParts(data: Piece, eot: bool)
    ensures var bytes := OVERHEAD + |data|;
      DataFrame(data, eot) ==
      [3, 0, bytes / 256, bytes % 256] + ([2, DATA_CODE, if eot then 0x80 else 0] + data)
  {
  }

  lemma SpliceThree(s: seq<byte>, offset: nat, a: seq<byte>, b: seq<byte>, c: seq<byte>)
    requires offset + |a| + |b| + |c| <= |s|
    ensures Splice(Splice(Splice(s, offset + |a|, b), offset + |a| + |b|, c), offset, a) ==
            Splice(s, offset, a + (b + c))
  {
  }

  /** CotpTpktDataStreamSpanCodec::encode_into. */
  method EncodeInto(data: seq<byte>, tpduSize: nat, destination: array<byte>) returns (r: EncodeResult)
    modifies destination
    ensures r.ValueOutOfRange? <==> !(DATA_HEADER < tpduSize <= MAXIMUM_PAYLOAD)
    ensures !r.ValueOutOfRange? ==>
      var stream := Concat(Segments(data, tpduSize - DATA_HEADER));
      && (r.BufferTooSmall? <==> destination.Length < |stream|)
      && (r.BufferTooSmall? ==> r.required == |stream|)
      && (r.Encoded? ==> r.bytes == |stream| && destination[..] == Splice(old(destination[..]), 0, stream))
    ensures !r.Encoded? ==> destination[..] == old(destination[..])
  {
    hide Segments, Concat, SegmentCount, DataFrame, Splice;
    if tpduSize <= DATA_HEADER || tpduSize > MAXIMUM_PAYLOAD {
      return ValueOutOfRange;
    }
    var room := tpduSize - DATA_HEADER;
    var count := SegmentCount(|data|, room);
    var required := |data| + count * OVERHEAD;
    ghost var stream := Concat(Segments(data, room));
    PlanIsExact(data, room);
    if destination.Length < required {
      return BufferTooSmall(required);
    }
    LaySegments(destination, data, room, count);
    return Encoded(required);
  }

  /** The segment loop, once the destination is known to have room for the planned frames. */
  method LaySegments(destination: array<byte>, data: seq<byte>, room: nat, count: nat)
    requires 0 < room <= MAXIMUM_PAYLOAD - DATA_HEADER && count == SegmentCount(|data|, room)
    requires |Concat(Segments(data, room))| <= destination.Length
    modifies destination
    ensures destination[..] == Splice(old(destination[..]), 0, Concat(Segments(data, room)))
  {
    hide Segments, Concat, SegmentCount, DataFrame, Splice, Tail;
    ghost var was, stream := destination[..], Concat(Segments(data, room));
    var input, output := 0, 0;
    ghost var done: seq<byte> := [];
    assert data[0..] == data && done + stream == stream;
    SpliceNothing(was);
    TailStart(data, room, count);
    for segment := 0 to count
      invariant 0 <= input <= |data| && output == |done| <= |stream|
      invariant destination[..] == Splice(was, 0, done)
      invariant done + Tail(data[input..], room, count - segment) == stream
      invariant segment < count ==> SegmentCount(|data| - input, room) == count - segment
    {
      var chunk := if |data| - input <= room then |data| - input else room;
      var piece, final := data[input..input + chunk], segment + 1 == count;
      ghost var f := DataFrame(piece, final);
      StreamGrows(data, input, room, count - segment, done, stream);
      EncodeFrame(destination, output, piece, final);
      SpliceNext(was, done, f);
      done := done + f;
      input := input + chunk;
      output := output + OVERHEAD + chunk;
    }
    TailEnd(data[input..], room);
    assert done + [] == done;
  }

  /** One more segment of what is left goes behind what is done. */
  lemma StreamGrows(data: seq<byte>, input: nat, room: nat, frames: nat, done: seq<byte>, stream: seq<byte>)
    requires 0 < room <= MAXIMUM_PAYLOAD - DATA_HEADER && input <= |data|
    requires frames == SegmentCount(|data| - input, room) && done + Tail(data[input..], room, frames) == stream
    ensures frames > 0
    ensures var chunk := if |data| - input <= room then |data| - input else room;
      var f := DataFrame(data[input..input + chunk], frames == 1);
      && done + f + Tail(data[input + chunk..], room, frames - 1) == stream
      && |done + f| <= |stream|
      && (frames > 1 ==> SegmentCount(|data| - input - chunk, room) == frames - 1)
  {
    hide Segments, Concat, SegmentCount, DataFrame, Tail;
    var left := data[input..];
    var chunk := if |data| - input <= room then |data| - input else room;
    TailStep(left, room);
    assert data[input..input + chunk] == left[..chunk] && data[input + chunk..] == left[chunk..];
    var f, rest := DataFrame(left[..chunk], frames == 1), Tail(left[chunk..], room, frames - 1);
    assert done + (f + rest) == done + f + rest;
  }

  lemma TailStart(left: seq<byte>, room: nat, count: nat)
    requires 0 < room <= MAXIMUM_PAYLOAD - DATA_HEADER && count == SegmentCount(|left|, room)
    ensures count > 0 && Tail(left, room, count) == Concat(Segments(left, room))
  {
    SegmentCountStep(|left|, room);
  }

  lemma TailEnd(left: seq<byte>, room: nat)
    requires 0 < room <= MAXIMUM_PAYLOAD - DATA_HEADER
    ensures Tail(left, room, 0) == []
  {
  }

  /** What is still to be written when `frames` segments remain. */
  ghost function Tail(left: seq<byte>, room: nat, frames: nat): seq<byte>
    requires 0 < room <= MAXIMUM_PAYLOAD - DATA_HEADER
  {
    if frames == 0 then [] else Concat(Segments(left, room))
  }

  lemma TailStep(left: seq<byte>, room: nat)
    requires 0 < room <= MAXIMUM_PAYLOAD - DATA_HEADER
    ensures var frames := SegmentCount(|left|, room);
      var chunk := if |left| <= room then |left| else room;
      && frames > 0
      && Tail(left, room, frames) == Concat(Segments(left, room))
      && Concat(Segments(left, room)) == DataFrame(left[..chunk], frames == 1) + Tail(left[chunk..], room, frames - 1)
      && (frames > 1 ==> SegmentCount(|left| - chunk, room) == frames - 1)
  {
    hide SegmentCount, DataFrame;
    SegmentCountStep(|left|, room);
    if |left| <= room {
      assert left[..|left|] == left;
      ConcatOne(DataFrame(left, true));
    } else {
      assert Segments(left, room)[1..] == Segments(left[room..], room);
    }
  }

  // ----- Validation and reassembly

  /** A complete segmented message: Data frames only, the end mark on the last and nowhere else. */
  predicate IsMessage(frames: seq<Frame>) {
    && |frames| > 0
    && forall i :: 0 <= i < |frames| ==> IsData(frames[i]) && EndsMessage(frames[i]) == (i == |frames| - 1)
  }

  predicate Within(frames: seq<Frame>, tpduSize: nat) {
    forall f <- frames :: |f| <= tpduSize + HEADER_LENGTH
  }

  function Message(frames: seq<Frame>): seq<byte>
    requires forall i :: 0 <= i < |frames| ==> IsData(frames[i])
  {
    if frames == [] then [] else UserData(frames[0]) + Message(frames[1..])
  }

  lemma {:induction false} MessageAppend(frames: seq<Frame>, f: Frame)
    requires forall i :: 0 <= i < |frames| ==> IsData(frames[i])
    requires IsData(f)
    ensures forall i :: 0 <= i < |frames| + 1 ==> IsData((frames + [f])[i])
    ensures Message(frames + [f]) == Message(frames) + UserData(f)
  {
    if frames == [] {
      assert |[f][1..]| == 0;
    } else {
      MessageAppend(frames[1..], f);
      assert (frames + [f])[1..] == frames[1..] + [f];
      assert UserData(frames[0]) + (Message(frames[1..]) + UserData(f)) ==
             UserData(frames[0]) + Message(frames[1..]) + UserData(f);
    }
  }

  lemma SplitFrame(f: Frame, rest: seq<byte>)
    requires WholeFrame(f)
    ensures Split(f + rest) == Parts([f] + Split(rest).frames, Split(rest).rest, Split(rest).bad)
  {
    var s := f + rest;
    assert s[..|f|] == f && s[|f|..] == rest;
    assert Declared(s) == Declared(f);
  }

  /** Frames laid end to end are found again. */
  lemma {:induction false} SplitConcat(frames: seq<Frame>, rest: seq<byte>)
    requires forall i :: 0 <= i < |frames| ==> WholeFrame(frames[i])
    ensures var x := Split(rest);
      Split(Concat(frames) + rest) == Parts(frames + x.frames, x.rest, x.bad)
  {
    hide Split, WholeFrame;
    if frames == [] {
      assert Concat(frames) + rest == rest;
    } else {
      SplitConcat(frames[1..], rest);
      SplitFrame(frames[0], Concat(frames[1..]) + rest);
      assert Concat(frames) + rest == frames[0] + (Concat(frames[1..]) + rest);
      assert [frames[0]] + (frames[1..] + Split(rest).frames) == frames + Split(rest).frames;
    }
  }

  lemma {:induction false} SegmentsAreMessage(data: seq<byte>, room: nat)
    requires 0 < room <= MAXIMUM_PAYLOAD - DATA_HEADER
    ensures IsMessage(Segments(data, room))
    ensures Within(Segments(data, room), room + DATA_HEADER)
    ensures Message(Segments(data, room)) == data
    ensures MarkedAtEnd(Segments(data, room))
  {
    hide DataFrame, IsData, EndsMessage, UserData, IsDataEot;
    if |data| <= room {
      DataFrameReads(data, true);
      LastSegment(DataFrame(data, true));
    } else {
      DataFrameReads(data[..room], false);
      SegmentsAreMessage(data[room..], room);
      MoreSegments(DataFrame(data[..room], false), Segments(data[room..], room));
      assert data == data[..room] + data[room..];
    }
  }

  /** The gate's own end test fires on the last frame and nowhere else. */
  predicate MarkedAtEnd(frames: seq<Frame>) {
    forall i :: 0 <= i < |frames| ==> IsDataEot(frames[i]) == (i == |frames| - 1)
  }

  lemma LastSegment(f: Frame)
    requires IsData(f) && EndsMessage(f) && IsDataEot(f)
    ensures IsMessage([f]) && Message([f]) == UserData(f) && MarkedAtEnd([f])
  {
    hide IsData, EndsMessage, UserData, IsDataEot;
    assert |[f][1..]| == 0;
  }

  lemma MoreSegments(f: Frame, rest: seq<Frame>)
    requires IsData(f) && !EndsMessage(f) && !IsDataEot(f) && IsMessage(rest) && MarkedAtEnd(rest)
    ensures IsMessage([f] + rest) && Message([f] + rest) == UserData(f) + Message(rest) && MarkedAtEnd([f] + rest)
  {
    hide IsData, EndsMessage, UserData, IsDataEot;
    var all := [f] + rest;
    assert all[1..] == rest;
    assert forall i :: 0 < i < |all| ==> all[i] == rest[i - 1];
  }

  /** The whole stream is one message, all of it within the negotiated TPDU size. */
  predicate Accepts(bytes: seq<byte>, tpduSize: nat) {
    var parts := Split(bytes);
    parts.rest == [] && IsMessage(parts.frames) && Within(parts.frames, tpduSize)
  }

  /**
   Segmentation round trip, for every message (the empty one too) and every TPDU size
   above the DT header: the validator accepts the stream, the frames are the segments,
   the message comes back, and there is more than one frame exactly when it did not fit.
   */
  lemma SegmentationRoundTrip(data: seq<byte>, tpduSize: nat)
    requires DATA_HEADER < tpduSize <= MAXIMUM_PAYLOAD
    ensures var frames := Segments(data, tpduSize - DATA_HEADER);
      && Split(Concat(frames)) == Parts(frames, [], false)
      && Accepts(Concat(frames), tpduSize)
      && IsMessage(frames) && Message(frames) == data
      && (|frames| > 1 <==> |data| > tpduSize - DATA_HEADER)
  {
    var frames := Segments(data, tpduSize - DATA_HEADER);
    SegmentsAreMessage(data, tpduSize - DATA_HEADER);
    SplitConcat(frames, []);
    assert Concat(frames) + [] == Concat(frames) && frames + [] == frames;
  }

  /** No accepted stream of the same message has fewer frames than the encoder's. */
  lemma SegmentationIsMinimal(bytes: seq<byte>, tpduSize: nat)
    requires DATA_HEADER < tpduSize <= MAXIMUM_PAYLOAD && Accepts(bytes, tpduSize)
    ensures var frames := Split(bytes).frames;
      |frames| >= |Segments(Message(frames), tpduSize - DATA_HEADER)|
  {
    hide Split, Segments, Concat, Message, SegmentCount, IsData;
    var frames, room := Split(bytes).frames, tpduSize - DATA_HEADER;
    MessageBound(frames, room);
    PlanIsExact(Message(frames), room);
    CountBound(|Message(frames)|, room, |frames|);
  }

  lemma {:induction false} MessageBound(frames: seq<Frame>, room: nat)
    requires forall i :: 0 <= i < |frames| ==> IsData(frames[i])
    requires Within(frames, room + DATA_HEADER)
    ensures |Message(frames)| <= |frames| * room
  {
    hide WholeFrame, BadHeader, Declared;
    if frames != [] {
      MessageBound(frames[1..], room);
      assert frames[0] in frames;
      assert |UserData(frames[0])| <= room;
      Distribute(|frames|, room);
    }
  }

  lemma {:induction false} CountBound(size: nat, room: nat, frames: nat)
    requires room > 0 && frames > 0 && size <= frames * room
    ensures SegmentCount(size, room) <= frames
    decreases size
  {
    SegmentCountStep(size, room);
    if size > room {
      assert (frames - 1) * room == frames * room - room;
      CountBound(size - room, room, frames - 1);
    }
  }

  /**
   Two messages sent one after the other and cut into chunks anywhere: the stall gate
   finds both and lets exactly the first through.
   */
  lemma FirstMessagePasses(first: seq<byte>, second: seq<byte>, tpduSize: nat, chunks: seq<seq<byte>>)
    requires DATA_HEADER < tpduSize <= MAXIMUM_PAYLOAD
    requires var room := tpduSize - DATA_HEADER;
      Concat(chunks) == Concat(Segments(first, room)) + Concat(Segments(second, room))
    ensures var room := tpduSize - DATA_HEADER;
      && FedAll(chunks) == Progress(Segments(first, room) + Segments(second, room), [], false)
      && Released(FedAll(chunks).frames) == Segments(first, room)
  {
    hide Split, Segments, Released, FedAll, Accepts, Message, Concat, WholeFrame;
    var room := tpduSize - DATA_HEADER;
    var a, b := Segments(first, room), Segments(second, room);
    SegmentationRoundTrip(first, tpduSize);
    SegmentationRoundTrip(second, tpduSize);
    SplitConcat(a, Concat(b));
    ChunkingInvariance(chunks);
    SegmentsAreMessage(first, room);
    ReleasedUpTo(a, b);
  }

  lemma {:induction false} ReleasedUpTo(a: seq<Frame>, b: seq<Frame>)
    requires |a| > 0 && MarkedAtEnd(a)
    ensures Released(a + b) == a
  {
    if |a| > 1 {
      assert (a + b)[1..] == a[1..] + b;
      ReleasedUpTo(a[1..], b);
    }
  }

  // ----- The loops

  lemma SplitNothing(s: seq<byte>)
    requires s == []
    ensures Split(s) == Parts([], [], false)
  {
  }

  /** One more frame of the stream at `offset`, as both loops read it. */
  lemma StreamStep(bytes: seq<byte>, offset: nat, seen: seq<Frame>)
    requires offset < |bytes|
    requires Split(bytes).frames == seen + Split(bytes[offset..]).frames
    requires Split(bytes).rest == Split(bytes[offset..]).rest
    ensures var remaining := bytes[offset..];
      if |remaining| < HEADER_LENGTH || BadHeader(remaining) || |remaining| < Declared(remaining)
      then Split(bytes).rest != []
      else
        var n := Declared(remaining);
        var f := remaining[..n];
        && WholeFrame(f)
        && Split(bytes).frames == seen + [f] + Split(bytes[offset + n..]).frames
        && Split(bytes).rest == Split(bytes[offset + n..]).rest
        && (Split(bytes).rest == [] ==> (offset + n == |bytes| <==> |seen| == |Split(bytes).frames| - 1))
  {
    hide Split, BadHeader, Declared, WholeFrame;
    var remaining := bytes[offset..];
    SplitCases(remaining);
    SplitStops(remaining);
    if !(|remaining| < HEADER_LENGTH || BadHeader(remaining) || |remaining| < Declared(remaining)) {
      var n := Declared(remaining);
      FrontIsWhole(remaining);
      assert remaining[n..] == bytes[offset + n..];
      assert seen + ([remaining[..n]] + Split(remaining[n..]).frames) ==
             seen + [remaining[..n]] + Split(remaining[n..]).frames;
      SplitEnds(remaining[n..]);
    }
  }

  lemma SplitStops(s: seq<byte>)
    ensures s != [] && (|s| < HEADER_LENGTH || BadHeader(s) || |s| < Declared(s)) ==> Split(s).rest != []
  {
  }

  lemma SplitEnds(s: seq<byte>)
    ensures Split(s).rest == [] ==> (s == [] <==> Split(s).frames == [])
  {
    SplitCovers(s);
  }

  lemma FrontIsWhole(s: seq<byte>)
    requires |s| >= HEADER_LENGTH && !BadHeader(s) && Declared(s) <= |s|
    ensures WholeFrame(s[..Declared(s)])
  {
  }

  /** validate_segmented_stream. */
  method ValidateSegmentedStream(bytes: seq<byte>, tpduSize: nat, requireMultiple: bool) returns (ok: bool)
    ensures ok <==> Accepts(bytes, tpduSize) && (requireMultiple ==> |Split(bytes).frames| > 1)
  {
    hide Split, IsData, EndsMessage, BadHeader, Declared, WholeFrame;
    var offset, segments := 0, 0;
    ghost var seen: seq<Frame> := [];
    assert bytes[0..] == bytes;
    while offset < |bytes|
      invariant offset <= |bytes| && segments == |seen|
      invariant Split(bytes).frames == seen + Split(bytes[offset..]).frames
      invariant Split(bytes).rest == Split(bytes[offset..]).rest
      invariant Within(seen, tpduSize)
      invariant forall i :: 0 <= i < |seen| ==>
        IsData(seen[i]) && EndsMessage(seen[i]) == (offset == |bytes| && i == |seen| - 1)
    {
      var remaining := bytes[offset..];
      StreamStep(bytes, offset, seen);
      if |remaining| < HEADER_LENGTH || BadHeader(remaining) || |remaining| < Declared(remaining) {
        return false;
      }
      var n := Declared(remaining);
      var f := remaining[..n];
      assert Split(bytes).frames[|seen|] == f;
      if n > tpduSize + HEADER_LENGTH || !IsData(f) {
        return false;
      }
      offset := offset + n;
      segments := segments + 1;
      if (offset == |bytes|) != EndsMessage(f) {
        return false;
      }
      seen := seen + [f];
    }
    SplitNothing(bytes[offset..]);
    assert seen + [] == seen;
    return segments != 0 && (!requireMultiple || segments > 1);
  }

  /**
   The reassembly loop of decode_report_frame: it succeeds exactly on one complete
   message that fits the buffer, and then the buffer starts with the message and is
   otherwise as it was.
   */
  method Reassemble(bytes: seq<byte>, buffer: array<byte>) returns (size: Option<nat>, segments: nat)
    modifies buffer
    ensures var parts := Split(bytes);
      && (size.Some? <==>
          parts.rest == [] && IsMessage(parts.frames) && |Message(parts.frames)| <= buffer.Length)
      && (size.Some? ==>
          && segments == |parts.frames| && size.value == |Message(parts.frames)|
          && buffer[..] == Splice(old(buffer[..]), 0, Message(parts.frames)))
  {
    hide Split, IsData, EndsMessage, BadHeader, Declared, WholeFrame, Splice, Message;
    var offset, filled := 0, 0;
    segments := 0;
    ghost var was := buffer[..];
    ghost var seen: seq<Frame> := [];
    assert bytes[0..] == bytes;
    MessageNothing();
    SpliceNothing(was);
    while offset < |bytes|
      invariant offset <= |bytes| && segments == |seen|
      invariant Split(bytes).frames == seen + Split(bytes[offset..]).frames
      invariant Split(bytes).rest == Split(bytes[offset..]).rest
      invariant forall i :: 0 <= i < |seen| ==>
        IsData(seen[i]) && EndsMessage(seen[i]) == (offset == |bytes| && i == |seen| - 1)
      invariant filled == |Message(seen)| <= |was| == buffer.Length
      invariant buffer[..] == Splice(was, 0, Message(seen))
    {
      var remaining := bytes[offset..];
      StreamStep(bytes, offset, seen);
      if |remaining| < HEADER_LENGTH || BadHeader(remaining) || |remaining| < Declared(remaining) {
        return None, segments;
      }
      var n := Declared(remaining);
      var f := remaining[..n];
      assert Split(bytes).frames[|seen|] == f;
      if !IsData(f) {
        return None, segments;
      }
      MessageAppend(seen, f);
      if |UserData(f)| > buffer.Length - filled {
        MessageGrows(seen + [f], Split(bytes).frames);
        return None, segments;
      }
      CopyInto(buffer, filled, UserData(f));
      SpliceNext(was, Message(seen), UserData(f));
      filled := filled + |UserData(f)|;
      offset := offset + n;
      segments := segments + 1;
      if (offset == |bytes|) != EndsMessage(f) {
        return None, segments;
      }
      seen := seen + [f];
    }
    SplitNothing(bytes[offset..]);
    assert seen + [] == seen;
    return if segments != 0 then Some(filled) else None, segments;
  }

  lemma MessageNothing()
    ensures Message([]) == []
  {
  }

  lemma {:induction false} MessageGrows(a: seq<Frame>, b: seq<Frame>)
    requires a <= b && forall i :: 0 <= i < |a| ==> IsData(a[i])
    ensures IsMessage(b) ==> |Message(a)| <= |Message(b)|
  {
    if IsMessage(b) {
      Prefix(a, b);
    }
  }

  lemma {:induction false} Prefix(a: seq<Frame>, b: seq<Frame>)
    requires a <= b
    requires forall i :: 0 <= i < |b| ==> IsData(b[i])
    ensures forall i :: 0 <= i < |a| ==> IsData(a[i])
    ensures |Message(a)| <= |Message(b)|
  {
    if a != [] {
      Prefix(a[1..], b[1..]);
    }
  }
}

/**
 TPKT framing over a byte stream (section 6 of RFC 1006): what a stream splits into,
 that chunking does not matter, and the gate that stalls a server after its first
 complete COTP Data payload.
 */
module Tpkt {
  import opened Octets

  type Frame = seq<byte>

  const HEADER_LENGTH: nat := 4
  const MAXIMUM_FRAME: nat := 65535

  function Declared(s: seq<byte>): (n: nat)
    requires |s| >= HEADER_LENGTH
    ensures n <= MAXIMUM_FRAME
  {
    (s[2] as int) * 256 + s[3]
  }

  predicate BadHeader(s: seq<byte>)
    requires |s| >= HEADER_LENGTH
  {
    s[0] != 3 || s[1] != 0 || Declared(s) < HEADER_LENGTH
  }

  /** The complete frames at the front of a stream, the bytes after them, and whether those start a bad header. */
  datatype Parts = Parts(frames: seq<Frame>, rest: seq<byte>, bad: bool)

  function Split(s: seq<byte>): Parts
    decreases |s|
  {
    if |s| < HEADER_LENGTH then Parts([], s, false)
    else if BadHeader(s) then Parts([], s, true)
    else if |s| < Declared(s) then Parts([], s, false)
    else
      var tail := Split(s[Declared(s)..]);
      Parts([s[..Declared(s)]] + tail.frames, tail.rest, tail.bad)
  }

  function Concat(parts: seq<seq<byte>>): seq<byte> {
    if parts == [] then [] else parts[0] + Concat(parts[1..])
  }

  lemma {:induction false} ConcatAppend(a: seq<seq<byte>>, b: seq<seq<byte>>)
    ensures Concat(a + b) == Concat(a) + Concat(b)
  {
    if a == [] {
      assert a + b == b;
    } else {
      ConcatAppend(a[1..], b);
      assert (a + b)[1..] == a[1..] + b;
      assert a[0] + (Concat(a[1..]) + Concat(b)) == a[0] + Concat(a[1..]) + Concat(b);
    }
  }

  /** Nothing is lost or invented, and what is left over holds no further frame. */
  lemma {:induction false} SplitCovers(s: seq<byte>)
    ensures Concat(Split(s).frames) + Split(s).rest == s
    ensures Split(Split(s).rest) == Parts([], Split(s).rest, Split(s).bad)
    decreases |s|
  {
    hide Split, BadHeader, Declared;
    SplitCases(s);
    if |s| >= HEADER_LENGTH && !BadHeader(s) && Declared(s) <= |s| {
      var n := Declared(s);
      SplitCovers(s[n..]);
      var tail := Split(s[n..]);
      assert Split(s).frames[1..] == tail.frames;
      assert s[..n] + (Concat(tail.frames) + tail.rest) == s[..n] + Concat(tail.frames) + tail.rest;
      assert s == s[..n] + s[n..];
    }
  }

  /** Splitting may stop anywhere and go on with what was left over. */
  lemma {:induction false} SplitResumes(a: seq<byte>, b: seq<byte>)
    requires !Split(a).bad
    ensures var x := Split(a);
      var y := Split(x.rest + b);
      Split(a + b) == Parts(x.frames + y.frames, y.rest, y.bad)
    decreases |a|
  {
    hide Split, BadHeader, Declared;
    SplitCases(a);
    if |a| >= HEADER_LENGTH && Declared(a) <= |a| {
      var n := Declared(a);
      SplitResumes(a[n..], b);
      var x := Split(a[n..]);
      var y := Split(x.rest + b);
      assert (a + b)[..n] == a[..n] && (a + b)[n..] == a[n..] + b;
      SameHeader(a, b);
      SplitCases(a + b);
      assert [a[..n]] + (x.frames + y.frames) == [a[..n]] + x.frames + y.frames;
    } else {
      assert [] + Split(a + b).frames == Split(a + b).frames;
    }
  }

  lemma SplitCases(s: seq<byte>)
    ensures if |s| < HEADER_LENGTH then Split(s) == Parts([], s, false)
      else if BadHeader(s) then Split(s) == Parts([], s, true)
      else if |s| < Declared(s) then Split(s) == Parts([], s, false)
      else
        var tail := Split(s[Declared(s)..]);
        HEADER_LENGTH <= Declared(s) && Split(s) == Parts([s[..Declared(s)]] + tail.frames, tail.rest, tail.bad)
  {
  }

  lemma SameHeader(a: seq<byte>, b: seq<byte>)
    requires |a| >= HEADER_LENGTH
    ensures Declared(a + b) == Declared(a) && BadHeader(a + b) == BadHeader(a)
  {
  }

  // ----- Feeding chunks

  /** Frames handed out so far, bytes kept, and whether a feed raised. */
  datatype Progress = Progress(frames: seq<Frame>, buffer: seq<byte>, failed: bool)

  /** A feed that meets a bad header raises: the frames it had found by then are lost with it. */
  function Fed(p: Progress, data: seq<byte>): Progress {
    if p.failed then p
    else
      var x := Split(p.buffer + data);
      Progress(if x.bad then p.frames else p.frames + x.frames, x.rest, x.bad)
  }

  function FedAll(chunks: seq<seq<byte>>): Progress {
    if chunks == [] then Progress([], [], false)
    else Fed(FedAll(chunks[..|chunks| - 1]), chunks[|chunks| - 1])
  }

  /**
   However a stream is cut into chunks, as long as it has no bad header the frames and
   the residue are those of the stream in one piece; otherwise some feed raises and
   what was handed out is a prefix of the good frames.
   */
  lemma {:induction false} ChunkingInvariance(chunks: seq<seq<byte>>)
    ensures var whole, p := Split(Concat(chunks)), FedAll(chunks);
      if whole.bad then p.failed && p.frames <= whole.frames
      else p == Progress(whole.frames, whole.rest, false)
  {
    if chunks != [] {
      var k := |chunks| - 1;
      var before, last := chunks[..k], chunks[k];
      ChunkingInvariance(before);
      assert chunks == before + [last];
      ConcatAppend(before, [last]);
      ConcatOne(last);
      var s := Concat(before);
      if Split(s).bad {
        BadStaysBad(s, last);
      } else {
        SplitResumes(s, last);
      }
    }
  }

  lemma {:induction false} BadStaysBad(a: seq<byte>, b: seq<byte>)
    requires Split(a).bad
    ensures Split(a + b).bad && Split(a + b).frames == Split(a).frames
    decreases |a|
  {
    if !BadHeader(a) {
      var n := Declared(a);
      BadStaysBad(a[n..], b);
      assert (a + b)[..n] == a[..n] && (a + b)[n..] == a[n..] + b;
      assert Declared(a + b) == n;
    }
  }

  /** The first `k` frames of a stream end at some octet, and splitting either side of it gives either part. */
  lemma {:induction false} CutAfterFrames(s: seq<byte>, k: nat) returns (cut: nat)
    requires k <= |Split(s).frames|
    ensures cut <= |s|
    ensures Split(s[..cut]) == Parts(Split(s).frames[..k], [], false)
    ensures Split(s[cut..]) == Parts(Split(s).frames[k..], Split(s).rest, Split(s).bad)
    decreases k
  {
    hide Split, BadHeader, Declared;
    SplitCases([]);
    if k == 0 {
      cut := 0;
      assert s[..0] == [] && s[0..] == s;
    } else {
      SplitCases(s);
      var n, frames := Declared(s), Split(s).frames;
      assert frames[1..] == Split(s[n..]).frames;
      var c := CutAfterFrames(s[n..], k - 1);
      cut := n + c;
      var front := s[..cut];
      assert s[n..][c..] == s[cut..] && front[..n] == s[..n] && front[n..] == s[n..][..c];
      assert s == front + s[cut..];
      SameHeader(front, s[cut..]);
      SplitCases(front);
      assert frames[..k] == [frames[0]] + frames[1..][..k - 1];
      assert frames[k..] == frames[1..][k - 1..];
    }
  }

  /** Of a bad stream, every prefix of its good frames is what some cut hands out. */
  lemma AnyPrefixOfBadStream(s: seq<byte>, k: nat) returns (chunks: seq<seq<byte>>)
    requires Split(s).bad && k <= |Split(s).frames|
    ensures Concat(chunks) == s && FedAll(chunks).frames == Split(s).frames[..k]
  {
    hide Split;
    var cut := CutAfterFrames(s, k);
    var a, b := s[..cut], s[cut..];
    chunks := [a, b];
    assert chunks == [a] + [b] && chunks[..1] == [a];
    ConcatAppend([a], [b]);
    ConcatOne(a);
    ConcatOne(b);
    assert s == a + b && [] + a == a && [] + b == b;
    FedTwice(a, b);
  }

  lemma FedOnce(a: seq<byte>)
    ensures FedAll([a]) == Fed(Progress([], [], false), a)
  {
    assert |[a][..0]| == 0;
  }

  lemma FedTwice(a: seq<byte>, b: seq<byte>)
    ensures FedAll([a, b]) == Fed(Fed(Progress([], [], false), a), b)
  {
    assert [a, b][..1] == [a] && |[a][..0]| == 0;
    assert FedAll([a]) == Fed(FedAll([a][..0]), a);
  }

  /** Chunking matters for a stream exactly if it has a bad header with a good frame in front of it. */
  lemma ChunkingMattersExactly(s: seq<byte>)
    ensures (exists a, b :: Concat(a) == s && Concat(b) == s && FedAll(a).frames != FedAll(b).frames) <==>
            Split(s).bad && Split(s).frames != []
  {
    hide Split, FedAll, Concat;
    if Split(s).bad && Split(s).frames != [] {
      var a := AnyPrefixOfBadStream(s, 0);
      var b := AnyPrefixOfBadStream(s, 1);
      assert FedAll(a).frames != FedAll(b).frames;
    } else {
      forall a, b | Concat(a) == s && Concat(b) == s ensures FedAll(a).frames == FedAll(b).frames {
        ChunkingInvariance(a);
        ChunkingInvariance(b);
      }
    }
  }

  /** Such a stream: one cut keeps the good frame, the other loses it. */
  lemma BadStreamsDependOnChunking()
    ensures exists a: seq<byte>, b: seq<byte> ::
      FedAll([a, b]).frames != FedAll([a + b]).frames && FedAll([a + b]).failed
  {
    hide Split, FedAll;
    var a: seq<byte>, b: seq<byte> := [3, 0, 0, 4], [0, 0, 0, 0];
    SplitCases([]);
    SplitCases(a);
    SplitCases(b);
    assert a[..4] == a && a[4..] == [];
    SplitResumes(a, b);
    assert [] + b == b && [] + (a + b) == a + b && [] + a == a;
    FedTwice(a, b);
    FedOnce(a + b);
  }

  class TpktStreamGate {
    var buffer: seq<byte>

    constructor ()
      ensures buffer == []
    {
      buffer := [];
    }

    /** None is the raised error; the buffer then starts at the offending header. */
    method Feed(data: seq<byte>) returns (frames: Option<seq<Frame>>)
      modifies this
      ensures var x := Split(old(buffer) + data);
        buffer == x.rest && frames == if x.bad then None else Some(x.frames)
    {
      buffer := buffer + data;
      ghost var all := Split(buffer);
      var found: seq<Frame> := [];
      while |buffer| >= HEADER_LENGTH
        invariant all == Parts(found + Split(buffer).frames, Split(buffer).rest, Split(buffer).bad)
        decreases |buffer|
      {
        if BadHeader(buffer) {
          return None;
        }
        var length := Declared(buffer);
        if |buffer| < length {
          assert found + [] == found;
          break;
        }
        assert found + ([buffer[..length]] + Split(buffer[length..]).frames) ==
               found + [buffer[..length]] + Split(buffer[length..]).frames;
        found := found + [buffer[..length]];
        buffer := buffer[length..];
      }
      assert found + [] == found;
      return Some(found);
    }
  }

  // ----- The post-association stall

  /** is_cotp_data_eot: a COTP Data TPDU that ends its message (section 13.7 of ITU-T X.224). */
  predicate IsDataEot(frame: Frame) {
    && |frame| >= 7
    && 2 <= frame[4] && |frame| - 5 >= frame[4]
    && frame[5] / 16 == 0xF && frame[6] / 128 == 1
  }

  /** Everything up to and including the first end of message. */
  function Released(frames: seq<Frame>): seq<Frame> {
    if frames == [] then []
    else if IsDataEot(frames[0]) then [frames[0]]
    else [frames[0]] + Released(frames[1..])
  }

  predicate Answered(frames: seq<Frame>) {
    exists i :: 0 <= i < |frames| && IsDataEot(frames[i])
  }

  lemma ConcatOne(frame: Frame)
    ensures Concat([frame]) == frame
  {
    assert |[frame][1..]| == 0;
  }

  lemma AnsweredStep(frames: seq<Frame>, frame: Frame)
    ensures Answered(frames + [frame]) == (Answered(frames) || IsDataEot(frame))
  {
    var all := frames + [frame];
    if Answered(frames) {
      var i :| 0 <= i < |frames| && IsDataEot(frames[i]);
      assert IsDataEot(all[i]);
    }
    assert all[|frames|] == frame;
  }

  lemma {:induction false} AllReleased(frames: seq<Frame>)
    requires !Answered(frames)
    ensures Released(frames) == frames
  {
    if frames != [] {
      AnsweredTail(frames);
      AllReleased(frames[1..]);
    }
  }

  lemma {:induction false} ReleasedStep(frames: seq<Frame>, frame: Frame)
    ensures Released(frames + [frame]) == if Answered(frames) then Released(frames) else Released(frames) + [frame]
    ensures Released(frames) <= frames
  {
    if frames != [] {
      ReleasedStep(frames[1..], frame);
      AnsweredTail(frames);
      assert (frames + [frame])[1..] == frames[1..] + [frame];
      assert [frames[0]] + (Released(frames[1..]) + [frame]) == [frames[0]] + Released(frames[1..]) + [frame];
    } else {
      assert |[frame][1..]| == 0;
    }
  }

  lemma AnsweredTail(frames: seq<Frame>)
    requires frames != []
    ensures Answered(frames) == (IsDataEot(frames[0]) || Answered(frames[1..]))
  {
    assert frames == [frames[0]] + frames[1..];
    if Answered(frames[1..]) {
      var i :| 0 <= i < |frames[1..]| && IsDataEot(frames[1..][i]);
      assert IsDataEot(frames[i + 1]);
    }
    if Answered(frames) && !IsDataEot(frames[0]) {
      var i :| 0 <= i < |frames| && IsDataEot(frames[i]);
      assert IsDataEot(frames[1..][i - 1]);
    }
  }

  /** A frame after the end of message joins those held back; any other is sent on. */
  lemma HandledStep(frames: seq<Frame>, frame: Frame)
    ensures var k, all := |Released(frames)|, frames + [frame];
      && Released(frames) <= frames
      && Answered(all) == (Answered(frames) || IsDataEot(frame))
      && (if Answered(frames)
          then Released(all) == Released(frames) && |Concat(all[k..])| == |Concat(frames[k..])| + |frame|
          else Released(frames) == frames && Released(all) == all && Concat(all) == Concat(frames) + frame)
  {
    var k, all := |Released(frames)|, frames + [frame];
    ReleasedStep(frames, frame);
    AnsweredStep(frames, frame);
    ConcatOne(frame);
    if Answered(frames) {
      assert all[k..] == frames[k..] + [frame];
      ConcatAppend(frames[k..], [frame]);
    } else {
      AllReleased(frames);
      ConcatAppend(frames, [frame]);
    }
  }

  /** recv returns an empty chunk at the end of the stream. */
  function Received(chunks: seq<seq<byte>>): (r: seq<seq<byte>>)
    ensures r <= chunks
    ensures forall chunk <- r :: chunk != []
    ensures |r| < |chunks| ==> chunks[|r|] == []
  {
    if chunks == [] || chunks[0] == [] then [] else [chunks[0]] + Received(chunks[1..])
  }

  lemma ReceivedUntil(chunks: seq<seq<byte>>, i: nat)
    requires i <= |Received(chunks)|
    ensures i < |Received(chunks)| <==> i < |chunks| && chunks[i] != []
    ensures i < |Received(chunks)| ==> Received(chunks)[i] == chunks[i]
  {
    var received := Received(chunks);
    if i < |received| {
      assert received[i] in received && received[i] == chunks[i];
    }
  }

  /** What the proxy has done with the frames it has seen. */
  class StallProxy {
    var released: bool
    var faultTriggered: bool
    var withheldCount: nat
    var withheldBytes: nat
    var forwardedBytes: nat
    var sent: seq<byte>
    var error: bool
    const gate: TpktStreamGate
    ghost var seen: seq<Frame>

    ghost predicate Valid()
      reads this
    {
      && released == Answered(seen)
      && sent == Concat(Released(seen))
      && forwardedBytes == |sent|
      && |Released(seen)| <= |seen| && Released(seen) == seen[..|Released(seen)|]
      && withheldCount == |seen| - |Released(seen)|
      && withheldBytes == |Concat(seen[|Released(seen)|..])|
      && faultTriggered == (withheldCount > 0)
    }

    constructor ()
      ensures Valid() && seen == [] && sent == [] && !error
      ensures fresh(gate) && gate.buffer == []
    {
      released, faultTriggered, withheldCount, withheldBytes, forwardedBytes := false, false, 0, 0, 0;
      sent, seen, error := [], [], false;
      gate := new TpktStreamGate();
    }

    method Handle(frame: Frame)
      requires Valid()
      modifies this
      ensures Valid() && seen == old(seen) + [frame] && error == old(error)
    {
      HandledStep(seen, frame);
      if released {
        faultTriggered := true;
        withheldCount := withheldCount + 1;
        withheldBytes := withheldBytes + |frame|;
        seen := seen + [frame];
        return;
      }
      sent := sent + frame;
      forwardedBytes := forwardedBytes + |frame|;
      if IsDataEot(frame) {
        released := true;
      }
      seen := seen + [frame];
    }

    /**
     The relay loop, from a fresh proxy to the end of the server's stream. Whatever the
     chunks, the client gets the frames up to the first end of message and no octet more,
     and the two counters account for every octet of every frame.
     */
    method Relay(chunks: seq<seq<byte>>)
      requires Valid() && seen == [] && !error && gate.buffer == []
      modifies this, gate
      ensures Valid()
      ensures var whole := Split(Concat(Received(chunks)));
        && error == whole.bad
        && seen <= whole.frames
        && (!whole.bad ==> seen == whole.frames && gate.buffer == whole.rest)
      ensures sent == Concat(Released(seen))
      ensures forwardedBytes + withheldBytes == |Concat(seen)|
    {
      ghost var received := Received(chunks);
      var i := 0;
      assert FedAll([]) == Progress([], [], false);
      while i < |chunks| && chunks[i] != []
        invariant i <= |received|
        invariant Valid() && !error
        invariant FedAll(received[..i]) == Progress(seen, gate.buffer, false)
      {
        ReceivedUntil(chunks, i);
        FedNext(received, i);
        Round(chunks[i]);
        if error {
          FailedFeed(received, i + 1);
          Accounted();
          return;
        }
        i := i + 1;
      }
      ReceivedUntil(chunks, i);
      assert received[..i] == received;
      ChunkingInvariance(received);
      Accounted();
    }

    /** One recv and the frames it completes. */
    method Round(data: seq<byte>)
      requires Valid() && !error
      modifies this, gate
      ensures Valid()
      ensures Progress(seen, gate.buffer, error) == Fed(Progress(old(seen), old(gate.buffer), false), data)
    {
      hide Split, Released, Answered, Concat;
      var frames := gate.Feed(data);
      if frames.None? {
        error := true;
        return;
      }
      ghost var before, kept := seen, gate.buffer;
      for j := 0 to |frames.value|
        invariant Valid() && !error && gate.buffer == kept
        invariant seen == before + frames.value[..j]
      {
        Handle(frames.value[j]);
      }
    }

    lemma Accounted()
      requires Valid()
      ensures forwardedBytes + withheldBytes == |Concat(seen)|
    {
      var k := |Released(seen)|;
      ConcatAppend(seen[..k], seen[k..]);
      assert seen == seen[..k] + seen[k..];
    }
  }

  lemma FedNext(chunks: seq<seq<byte>>, i: nat)
    requires i < |chunks|
    ensures FedAll(chunks[..i + 1]) == Fed(FedAll(chunks[..i]), chunks[i])
  {
    assert chunks[..i + 1][..i] == chunks[..i];
  }

  /** Once a feed has raised, the stream as a whole is bad and what came out before is part of its good frames. */
  lemma FailedFeed(chunks: seq<seq<byte>>, n: nat)
    requires n <= |chunks| && FedAll(chunks[..n]).failed
    ensures var whole := Split(Concat(chunks));
      whole.bad && FedAll(chunks[..n]).frames <= whole.frames
  {
    ChunkingInvariance(chunks[..n]);
    BadStaysBad(Concat(chunks[..n]), Concat(chunks[n..]));
    ConcatAppend(chunks[..n], chunks[n..]);
    assert chunks == chunks[..n] + chunks[n..];
  }
}

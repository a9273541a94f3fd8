/** Reassembly of the byte stream: what the read handler hands over, for any cut into reads. */
module Reassembly {
  import opened Bytes
  import opened Sequences
  import opened Wrappers
  import opened Framing

  const BUF_SIZE: nat := 128 * 1024

  // held is buf[0..total_bytes_read); one completed read adds segment to it. The whole buffer is
  // handed over when its last byte is a delimiter.
  function Feed(held: seq<byte>, segment: seq<byte>): (r: (Option<seq<byte>>, seq<byte>)) {
    var all := held + segment;
    if all != [] && all[|all| - 1] == SIGN then (Some(all), []) else (None, all)
  }

  function FeedAll(held: seq<byte>, segments: seq<seq<byte>>): (r: (seq<seq<byte>>, seq<byte>))
    decreases |segments|
  {
    if segments == [] then ([], held)
    else
      var (chunk, rest) := Feed(held, segments[0]);
      var (chunks, end) := FeedAll(rest, segments[1..]);
      (if chunk.Some? then [chunk.value] + chunks else chunks, end)
  }

  ghost predicate EndsInSign(s: seq<byte>) {
    s != [] && s[|s| - 1] == SIGN
  }

  ghost predicate AllEndInSign(chunks: seq<seq<byte>>) {
    forall i :: 0 <= i < |chunks| ==> EndsInSign(chunks[i])
  }

  ghost predicate AllFit(chunks: seq<seq<byte>>) {
    forall i :: 0 <= i < |chunks| ==> |chunks[i]| <= BUF_SIZE
  }

  // Nothing is lost, duplicated or reordered, every chunk ends in a delimiter and what is still held does
  // not. As long as the reads fit the space left in the buffer, what is handed over and what is held fit
  // the buffer too.
  ghost predicate Accumulates(held: seq<byte>, segments: seq<seq<byte>>) {
    var (chunks, rest) := FeedAll(held, segments);
    && Concat(chunks) + rest == held + Concat(segments)
    && AllEndInSign(chunks) && !EndsInSign(rest)
    && (|held| <= BUF_SIZE && Fits(held, segments) ==> |rest| <= BUF_SIZE && AllFit(chunks))
  }

  lemma OneMoreChunk(all: seq<byte>, chunks: seq<seq<byte>>)
    ensures Concat([all] + chunks) == all + Concat(chunks)
    ensures EndsInSign(all) && AllEndInSign(chunks) ==> AllEndInSign([all] + chunks)
    ensures |all| <= BUF_SIZE && AllFit(chunks) ==> AllFit([all] + chunks)
  {
    assert ([all] + chunks)[1..] == chunks;
  }

  lemma ReadCompletesChunk(held: seq<byte>, segments: seq<seq<byte>>)
    requires segments != [] && Feed(held, segments[0]).0.Some? && Accumulates([], segments[1..])
    ensures Accumulates(held, segments)
  {
    var seg, more := segments[0], Concat(segments[1..]);
    var (chunks, rest) := FeedAll([], segments[1..]);
    assert FeedAll(held, segments) == ([held + seg] + chunks, rest);
    OneMoreChunk(held + seg, chunks);
    assert [] + more == more;
    Associative(held + seg, Concat(chunks), rest);
    Associative(held, seg, more);
  }

  lemma ReadIsKept(held: seq<byte>, segments: seq<seq<byte>>)
    requires segments != [] && Feed(held, segments[0]).0.None? && Accumulates(held + segments[0], segments[1..])
    ensures Accumulates(held, segments)
  {
    Associative(held, segments[0], Concat(segments[1..]));
  }

  // Without any assumption on what the peer sends.
  lemma {:induction false} AccumulatorInvariant(held: seq<byte>, segments: seq<seq<byte>>)
    requires !EndsInSign(held)
    ensures Accumulates(held, segments)
    decreases |segments|
  {
    if segments == [] {
      assert [] + held == held == held + [];
    } else {
      var (chunk, rest) := Feed(held, segments[0]);
      AccumulatorInvariant(rest, segments[1..]);
      if chunk.Some? { ReadCompletesChunk(held, segments); } else { ReadIsKept(held, segments); }
    }
  }

  // Hence the decoder never throws on what is handed over, and its result ends in the delimiter.
  lemma HandedOverChunksDecode(held: seq<byte>, segments: seq<seq<byte>>)
    requires !EndsInSign(held)
    ensures var chunks := FeedAll(held, segments).0;
            forall i :: 0 <= i < |chunks| ==> Unstuff(chunks[i]).Some? && EndsInSign(Unstuff(chunks[i]).value)
  {
    AccumulatorInvariant(held, segments);
    var chunks := FeedAll(held, segments).0;
    forall i | 0 <= i < |chunks| ensures Unstuff(chunks[i]).Some? && EndsInSign(Unstuff(chunks[i]).value) {
      assert EndsInSign(chunks[i]);
      UnstuffKeepsFinalSign(chunks[i]);
    }
  }

  /* ------------------------- segmentation independence ------------------------- */

  ghost predicate NonEmptyReads(segments: seq<seq<byte>>) {
    forall i :: 0 <= i < |segments| ==> segments[i] != []
  }

  ghost predicate Frames(frames: seq<seq<byte>>) {
    forall i :: 0 <= i < |frames| ==> FrameShape(frames[i])
  }

  // The lengths of the reads respect the frame boundaries: got bytes of frames[0] are already held,
  // no read runs past the end of a frame, and none ends right after an opening delimiter.
  predicate Respects(segments: seq<seq<byte>>, frames: seq<seq<byte>>, got: nat) {
    if segments == [] then frames == [] && got == 0
    else if frames == [] then false
    else
      var now := got + |segments[0]|;
      if now == |frames[0]| then Respects(segments[1..], frames[1..], 0)
      else 1 < now < |frames[0]| && Respects(segments[1..], frames, now)
  }

  function Held(frames: seq<seq<byte>>, got: nat): seq<byte>
    requires got == 0 || (frames != [] && got <= |frames[0]|)
  {
    if got == 0 then [] else frames[0][..got]
  }

  lemma {:induction false} FirstChunkCoversHeld(held: seq<byte>, segments: seq<seq<byte>>)
    ensures var chunks := FeedAll(held, segments).0;
            chunks != [] ==> |chunks[0]| >= |held|
    decreases |segments|
  {
    if segments != [] {
      var rest := Feed(held, segments[0]).1;
      FirstChunkCoversHeld(rest, segments[1..]);
    }
  }

  // Where a read that starts inside (or at the start of) frame f leaves the buffer.
  lemma Align(held: seq<byte>, seg: seq<byte>, tail: seq<byte>, f: seq<byte>, more: seq<byte>)
    requires held + (seg + tail) == f + more
    ensures var now := |held| + |seg|;
            && (now <= |f| ==> held + seg == f[..now] && f[..now] + tail == f + more)
            && (now == |f| ==> held + seg == f && tail == more)
  {
    var all, now := held + seg, |held| + |seg|;
    Associative(held, seg, tail);
    assert all == (all + tail)[..now] && tail == (all + tail)[now..];
    if now <= |f| { assert (f + more)[..now] == f[..now]; }
    if now == |f| { assert (f + more)[now..] == more; }
  }

  lemma FeedInside(held: seq<byte>, seg: seq<byte>, f: seq<byte>)
    requires FrameShape(f) && 1 < |held| + |seg| < |f|
    requires held + seg == f[..|held| + |seg|]
    ensures Feed(held, seg) == (None, held + seg)
  {
    var now := |held| + |seg|;
    assert (held + seg)[now - 1] == f[now - 1];
  }

  // The frames are handed over one by one and nothing is left.
  ghost predicate HandsOver(held: seq<byte>, segments: seq<seq<byte>>, frames: seq<seq<byte>>) {
    FeedAll(held, segments).0 == frames && FeedAll(held, segments).1 == []
  }

  // For well-shaped frames cut into non-empty reads, the frames are handed over one by one, with
  // nothing left, exactly when the reads respect the frame boundaries.
  lemma {:induction false} ReassemblyIff(segments: seq<seq<byte>>, frames: seq<seq<byte>>, got: nat)
    requires NonEmptyReads(segments)
    requires Frames(frames)
    requires got == 0 || (frames != [] && 1 < got < |frames[0]|)
    requires Held(frames, got) + Concat(segments) == Concat(frames)
    ensures HandsOver(Held(frames, got), segments, frames) <==> Respects(segments, frames, got)
  {
    if segments != [] {
      var rest := segments[1..];
      assert |Concat(segments)| == |segments[0]| + |Concat(rest)| > 0;
      assert frames != [];
      var now := got + |segments[0]|;
      assert FrameShape(frames[0]);
      if 1 < now < |frames[0]| {
        FirstReadInside(segments, frames, got);
        ReassemblyIff(rest, frames, now);
      } else if now == |frames[0]| {
        FirstReadExact(segments, frames, got);
        ReassemblyIff(rest, frames[1..], 0);
      } else {
        FirstReadMisses(segments, frames, got);
      }
    }
  }

  lemma FirstReadInside(segments: seq<seq<byte>>, frames: seq<seq<byte>>, got: nat)
    requires segments != [] && frames != [] && FrameShape(frames[0]) && got < |frames[0]|
    requires Held(frames, got) + Concat(segments) == Concat(frames)
    requires 1 < got + |segments[0]| < |frames[0]|
    ensures var now := got + |segments[0]|;
            && Held(frames, now) + Concat(segments[1..]) == Concat(frames)
            && (HandsOver(Held(frames, got), segments, frames) <==>
                HandsOver(Held(frames, now), segments[1..], frames))
  {
    Align(Held(frames, got), segments[0], Concat(segments[1..]), frames[0], Concat(frames[1..]));
    FeedInside(Held(frames, got), segments[0], frames[0]);
  }

  lemma FirstReadExact(segments: seq<seq<byte>>, frames: seq<seq<byte>>, got: nat)
    requires segments != [] && frames != [] && FrameShape(frames[0]) && got < |frames[0]|
    requires Held(frames, got) + Concat(segments) == Concat(frames)
    requires got + |segments[0]| == |frames[0]|
    ensures [] + Concat(segments[1..]) == Concat(frames[1..])
    ensures HandsOver(Held(frames, got), segments, frames) <==> HandsOver([], segments[1..], frames[1..])
  {
    Align(Held(frames, got), segments[0], Concat(segments[1..]), frames[0], Concat(frames[1..]));
    FeedExact(segments, frames, Held(frames, got));
  }

  lemma FirstReadMisses(segments: seq<seq<byte>>, frames: seq<seq<byte>>, got: nat)
    requires segments != [] && frames != [] && FrameShape(frames[0]) && got < |frames[0]|
    requires Held(frames, got) + Concat(segments) == Concat(frames)
    requires got + |segments[0]| == 1 || got + |segments[0]| > |frames[0]|
    ensures !HandsOver(Held(frames, got), segments, frames)
  {
    Align(Held(frames, got), segments[0], Concat(segments[1..]), frames[0], Concat(frames[1..]));
    assert frames[0][..1] == [SIGN];
    FeedMisses(segments, frames, Held(frames, got));
  }

  // A read that ends right after an opening delimiter, or runs past the end of the frame, spoils it.
  lemma FeedMisses(segments: seq<seq<byte>>, frames: seq<seq<byte>>, held: seq<byte>)
    requires segments != [] && frames != [] && FrameShape(frames[0])
    requires held + segments[0] == [SIGN] || |held + segments[0]| > |frames[0]|
    ensures !HandsOver(held, segments, frames)
  {
    var (chunk, rest) := Feed(held, segments[0]);
    FirstChunkCoversHeld(rest, segments[1..]);
    var chunks := FeedAll(held, segments).0;
    if chunk.Some? { assert chunks[0] == held + segments[0]; }
  }

  lemma FeedExact(segments: seq<seq<byte>>, frames: seq<seq<byte>>, held: seq<byte>)
    requires segments != [] && frames != [] && FrameShape(frames[0])
    requires held + segments[0] == frames[0]
    ensures HandsOver(held, segments, frames) <==> HandsOver([], segments[1..], frames[1..])
  {
    var (chunks, end) := FeedAll([], segments[1..]);
    assert FeedAll(held, segments) == ([frames[0]] + chunks, end);
    assert frames == [frames[0]] + frames[1..];
    assert ([frames[0]] + chunks)[1..] == chunks;
  }

  // Every read fits the space that is left in the buffer.
  predicate Fits(held: seq<byte>, segments: seq<seq<byte>>)
    decreases |segments|
  {
    segments == [] ||
    (|held| + |segments[0]| <= BUF_SIZE && Fits(Feed(held, segments[0]).1, segments[1..]))
  }

  lemma {:induction false} RespectedFramesFit(segments: seq<seq<byte>>, frames: seq<seq<byte>>, got: nat)
    requires NonEmptyReads(segments)
    requires Frames(frames) && forall i :: 0 <= i < |frames| ==> |frames[i]| <= BUF_SIZE
    requires got == 0 || (frames != [] && 1 < got < |frames[0]|)
    requires Held(frames, got) + Concat(segments) == Concat(frames)
    requires Respects(segments, frames, got)
    ensures Fits(Held(frames, got), segments)
  {
    var held := Held(frames, got);
    if segments != [] {
      var seg, rest := segments[0], segments[1..];
      var f, now := frames[0], got + |seg|;
      assert FrameShape(f);
      Align(held, seg, Concat(rest), f, Concat(frames[1..]));
      if now == |f| {
        assert [] + Concat(rest) == Concat(rest);
        RespectedFramesFit(rest, frames[1..], 0);
      } else {
        FeedInside(held, seg, f);
        RespectedFramesFit(rest, frames, now);
      }
    }
  }

  // One read per frame always respects the boundaries.
  lemma {:induction false} WholeFramesRespect(frames: seq<seq<byte>>)
    requires Frames(frames)
    ensures Respects(frames, frames, 0)
  {
    if frames != [] {
      assert FrameShape(frames[0]);
      WholeFramesRespect(frames[1..]);
    }
  }
}

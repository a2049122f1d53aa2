/** The run as a whole, stated on values: what the chunk loop has accumulated
    after any prefix of the stream, and the frames it has asked to draw.
    A chunk is the delta content of one streamed choice; `None` is a chunk
    without content. */
module Stream {
  import opened Wrappers
  import opened TokenCounter
  import opened FrameBuilder

  /** The text one chunk contributes. */
  function Content(chunk: Option<string>): string {
    if chunk.Some? then chunk.value else ""
  }

  /** Tokens one chunk contributes; a chunk without content contributes none. */
  function ChunkTokens(encoding: Option<Encoder>, chunk: Option<string>): nat {
    if chunk.Some? then Count(encoding, chunk.value) else 0
  }

  /** The accumulated response text after the chunks. */
  function Text(chunks: seq<Option<string>>): string {
    if chunks == [] then ""
    else Text(chunks[..|chunks| - 1]) + Content(chunks[|chunks| - 1])
  }

  /** The accumulated token count after the chunks. */
  function Tokens(encoding: Option<Encoder>, chunks: seq<Option<string>>): nat {
    if chunks == [] then 0
    else Tokens(encoding, chunks[..|chunks| - 1]) + ChunkTokens(encoding, chunks[|chunks| - 1])
  }

  /** The recorded first-token instant after the chunks, where `clock[i]` is
      what the clock reads when chunk `i` has been counted: set at the first
      chunk with content after which the count is positive, then kept. */
  function FirstTokenTime(encoding: Option<Encoder>, chunks: seq<Option<string>>, clock: seq<real>): Option<real>
    requires |clock| == |chunks|
  {
    if chunks == [] then None
    else
      var n := |chunks| - 1;
      var before := FirstTokenTime(encoding, chunks[..n], clock[..n]);
      if chunks[n].Some? && before.None? && Tokens(encoding, chunks) > 0 then Some(clock[n])
      else before
  }

  /** The session state after the chunks, before completion. */
  function StateAfter(encoding: Option<Encoder>, startTime: real, chunks: seq<Option<string>>, clock: seq<real>): Snapshot
    requires |clock| == |chunks|
  {
    Snapshot(startTime, FirstTokenTime(encoding, chunks, clock), Tokens(encoding, chunks), Text(chunks), false)
  }

  /** The frames requested while streaming: one after every chunk with
      content, drawn at `drawClock[i]` from the state after that chunk. */
  function LiveFrames(encoding: Option<Encoder>, startTime: real, chunks: seq<Option<string>>,
                      tokenClock: seq<real>, drawClock: seq<real>): seq<Frame>
    requires |tokenClock| == |chunks| && |drawClock| == |chunks|
  {
    if chunks == [] then []
    else
      var n := |chunks| - 1;
      var before := LiveFrames(encoding, startTime, chunks[..n], tokenClock[..n], drawClock[..n]);
      if chunks[n].Some? then before + [BuildFrame(StateAfter(encoding, startTime, chunks, tokenClock), drawClock[n])]
      else before
  }

  /** Processing one more chunk adds a frame exactly when the chunk has content. */
  lemma LiveFramesStep(encoding: Option<Encoder>, startTime: real, chunks: seq<Option<string>>,
                       tokenClock: seq<real>, drawClock: seq<real>, chunk: Option<string>, stamp: real, draw: real)
    requires |tokenClock| == |chunks| && |drawClock| == |chunks|
    ensures LiveFrames(encoding, startTime, chunks + [chunk], tokenClock + [stamp], drawClock + [draw])
      == LiveFrames(encoding, startTime, chunks, tokenClock, drawClock)
         + (if chunk.Some?
            then [BuildFrame(StateAfter(encoding, startTime, chunks + [chunk], tokenClock + [stamp]), draw)]
            else [])
  {
    assert (chunks + [chunk])[..|chunks|] == chunks;
    assert (tokenClock + [stamp])[..|chunks|] == tokenClock;
    assert (drawClock + [draw])[..|chunks|] == drawClock;
  }

  // Reference definitions

  /** The contents of the chunks that have one, in order. */
  function Fragments(chunks: seq<Option<string>>): seq<string> {
    if chunks == [] then []
    else if chunks[0].Some? then [chunks[0].value] + Fragments(chunks[1..])
    else Fragments(chunks[1..])
  }

  /** The strings one after the other. */
  function Concat(parts: seq<string>): string {
    if parts == [] then "" else parts[0] + Concat(parts[1..])
  }

  /** The non-empty strings, in order. */
  function NonEmpty(parts: seq<string>): seq<string> {
    if parts == [] then []
    else if parts[0] != "" then [parts[0]] + NonEmpty(parts[1..])
    else NonEmpty(parts[1..])
  }

  lemma {:induction false} FragmentsSnoc(chunks: seq<Option<string>>, chunk: Option<string>)
    ensures Fragments(chunks + [chunk]) == Fragments(chunks) + (if chunk.Some? then [chunk.value] else [])
    decreases |chunks|
  {
    if chunks == [] {
      assert [chunk][1..] == [];
    } else {
      assert (chunks + [chunk])[1..] == chunks[1..] + [chunk];
      FragmentsSnoc(chunks[1..], chunk);
    }
  }

  lemma {:induction false} ConcatSnoc(parts: seq<string>, part: string)
    ensures Concat(parts + [part]) == Concat(parts) + part
    decreases |parts|
  {
    if parts == [] {
      assert [part][1..] == [];
    } else {
      assert (parts + [part])[1..] == parts[1..] + [part];
      ConcatSnoc(parts[1..], part);
    }
  }

  lemma {:induction false} NonEmptySnoc(parts: seq<string>, part: string)
    ensures NonEmpty(parts + [part]) == NonEmpty(parts) + (if part != "" then [part] else [])
    decreases |parts|
  {
    if parts == [] {
      assert [part][1..] == [];
    } else {
      assert (parts + [part])[1..] == parts[1..] + [part];
      NonEmptySnoc(parts[1..], part);
    }
  }

  // Accumulation

  /** The response text is the in-order concatenation of every present content. */
  lemma {:induction false} TextIsConcatOfFragments(chunks: seq<Option<string>>)
    ensures Text(chunks) == Concat(Fragments(chunks))
    decreases |chunks|
  {
    if chunks != [] {
      var n := |chunks| - 1;
      TextIsConcatOfFragments(chunks[..n]);
      assert chunks == chunks[..n] + [chunks[n]];
      FragmentsSnoc(chunks[..n], chunks[n]);
      if chunks[n].Some? {
        ConcatSnoc(Fragments(chunks[..n]), chunks[n].value);
      } else {
        assert Fragments(chunks[..n]) + [] == Fragments(chunks[..n]);
      }
    }
  }

  /** The text and the count of two consecutive parts of the stream add up. */
  lemma {:induction false} AccumulationSplits(encoding: Option<Encoder>, a: seq<Option<string>>, b: seq<Option<string>>)
    ensures Text(a + b) == Text(a) + Text(b)
    ensures Tokens(encoding, a + b) == Tokens(encoding, a) + Tokens(encoding, b)
    decreases |b|
  {
    if b == [] {
      assert a + b == a;
    } else {
      var n := |b| - 1;
      AccumulationSplits(encoding, a, b[..n]);
      assert (a + b)[..|a + b| - 1] == a + b[..n];
    }
  }

  /** Chunks past a prefix only extend the text and never lower the count. */
  lemma PrefixAccumulation(encoding: Option<Encoder>, chunks: seq<Option<string>>, k: nat)
    requires k <= |chunks|
    ensures Tokens(encoding, chunks[..k]) <= Tokens(encoding, chunks)
    ensures |Text(chunks[..k])| <= |Text(chunks)|
    ensures Text(chunks)[..|Text(chunks[..k])|] == Text(chunks[..k])
  {
    assert chunks == chunks[..k] + chunks[k..];
    AccumulationSplits(encoding, chunks[..k], chunks[k..]);
  }

  /** A chunk without content leaves the text and the count as they were,
      wherever it occurs. */
  lemma AbsentChunkChangesNothing(encoding: Option<Encoder>, a: seq<Option<string>>, b: seq<Option<string>>)
    ensures Text(a + [None] + b) == Text(a + b)
    ensures Tokens(encoding, a + [None] + b) == Tokens(encoding, a + b)
  {
    AccumulationSplits(encoding, a + [None], b);
    AccumulationSplits(encoding, a, b);
    assert (a + [None])[..|a|] == a;
  }

  /** With the fallback counter the count is the number of non-empty fragments. */
  lemma {:induction false} FallbackCountsNonEmptyFragments(chunks: seq<Option<string>>)
    ensures Tokens(None, chunks) == |NonEmpty(Fragments(chunks))|
    decreases |chunks|
  {
    if chunks != [] {
      var n := |chunks| - 1;
      FallbackCountsNonEmptyFragments(chunks[..n]);
      assert chunks == chunks[..n] + [chunks[n]];
      FragmentsSnoc(chunks[..n], chunks[n]);
      if chunks[n].Some? {
        NonEmptySnoc(Fragments(chunks[..n]), chunks[n].value);
      } else {
        assert Fragments(chunks[..n]) + [] == Fragments(chunks[..n]);
      }
    }
  }

  /** The three fragments "Hello", " world" and "!" under the fallback counter. */
  lemma HelloWorld()
    ensures Tokens(None, [Some("Hello"), Some(" world"), Some("!")]) == 3
    ensures Text([Some("Hello"), Some(" world"), Some("!")]) == "Hello world!"
  {
    var chunks := [Some("Hello"), Some(" world"), Some("!")];
    var one, two := chunks[..1], chunks[..2];
    assert one[..0] == [] && two[..1] == one;
    assert Text(one) == "Hello" && Tokens(None, one) == 1;
    assert Text(two) == "Hello" + " world" && Tokens(None, two) == 2;
    assert "Hello" + " world" + "!" == "Hello world!";
  }

  // First token

  /** The first-token instant is set exactly when the count is positive. */
  lemma {:induction false} FirstTokenTimeSetIffCounted(encoding: Option<Encoder>, chunks: seq<Option<string>>, clock: seq<real>)
    requires |clock| == |chunks|
    ensures FirstTokenTime(encoding, chunks, clock).Some? <==> Tokens(encoding, chunks) > 0
    decreases |chunks|
  {
    if chunks != [] {
      var n := |chunks| - 1;
      FirstTokenTimeSetIffCounted(encoding, chunks[..n], clock[..n]);
    }
  }

  /** The first-token instant is the clock reading at the chunk that takes the
      count from zero to positive. */
  lemma {:induction false} FirstTokenTimeAtFirstCount(encoding: Option<Encoder>, chunks: seq<Option<string>>, clock: seq<real>, k: nat)
    requires |clock| == |chunks|
    requires k < |chunks|
    requires Tokens(encoding, chunks[..k]) == 0 < Tokens(encoding, chunks[..k + 1])
    ensures FirstTokenTime(encoding, chunks, clock) == Some(clock[k])
    decreases |chunks|
  {
    var n := |chunks| - 1;
    if n == k {
      assert chunks[..k + 1] == chunks;
      FirstTokenTimeSetIffCounted(encoding, chunks[..n], clock[..n]);
    } else {
      assert chunks[..n][..k] == chunks[..k];
      assert chunks[..n][..k + 1] == chunks[..k + 1];
      FirstTokenTimeAtFirstCount(encoding, chunks[..n], clock[..n], k);
    }
  }

  /** Once set, the first-token instant never changes. */
  lemma {:induction false} FirstTokenTimeWriteOnce(encoding: Option<Encoder>, chunks: seq<Option<string>>, clock: seq<real>, k: nat)
    requires |clock| == |chunks|
    requires k <= |chunks|
    requires FirstTokenTime(encoding, chunks[..k], clock[..k]).Some?
    ensures FirstTokenTime(encoding, chunks, clock) == FirstTokenTime(encoding, chunks[..k], clock[..k])
    decreases |chunks|
  {
    if k < |chunks| {
      var n := |chunks| - 1;
      assert chunks[..n][..k] == chunks[..k];
      assert clock[..n][..k] == clock[..k];
      FirstTokenTimeWriteOnce(encoding, chunks[..n], clock[..n], k);
    } else {
      assert chunks[..k] == chunks && clock[..k] == clock;
    }
  }

  /** The first-token instant is one of the clock readings. */
  lemma {:induction false} FirstTokenTimeIsAReading(encoding: Option<Encoder>, chunks: seq<Option<string>>, clock: seq<real>)
    requires |clock| == |chunks|
    ensures FirstTokenTime(encoding, chunks, clock).Some? ==> FirstTokenTime(encoding, chunks, clock).value in clock
    decreases |chunks|
  {
    if chunks != [] {
      var n := |chunks| - 1;
      FirstTokenTimeIsAReading(encoding, chunks[..n], clock[..n]);
    }
  }

  /** With a clock that never reads before the start, the first token is
      never recorded before the start. */
  lemma FirstTokenNotBeforeStart(encoding: Option<Encoder>, chunks: seq<Option<string>>, clock: seq<real>, startTime: real)
    requires |clock| == |chunks|
    requires forall i :: 0 <= i < |clock| ==> startTime <= clock[i]
    ensures FirstTokenTime(encoding, chunks, clock).Some? ==> startTime <= FirstTokenTime(encoding, chunks, clock).value
  {
    FirstTokenTimeIsAReading(encoding, chunks, clock);
  }

  /** A fragment "" then a fragment "hi" under the fallback counter: the
      count goes 0 then 1, and the first token is recorded at the second. */
  lemma EmptyThenHi(t0: real, t1: real)
    ensures Tokens(None, [Some("")]) == 0
    ensures FirstTokenTime(None, [Some("")], [t0]) == None
    ensures Tokens(None, [Some(""), Some("hi")]) == 1
    ensures FirstTokenTime(None, [Some(""), Some("hi")], [t0, t1]) == Some(t1)
  {
    var chunks, clock := [Some(""), Some("hi")], [t0, t1];
    assert chunks[..1] == [Some("")] && clock[..1] == [t0];
  }

  // Frames

  /** As many live frames are requested as there are chunks with content. */
  lemma {:induction false} OneFramePerFragment(encoding: Option<Encoder>, startTime: real, chunks: seq<Option<string>>,
                                               tokenClock: seq<real>, drawClock: seq<real>)
    requires |tokenClock| == |chunks| && |drawClock| == |chunks|
    ensures |LiveFrames(encoding, startTime, chunks, tokenClock, drawClock)| == |Fragments(chunks)|
    decreases |chunks|
  {
    if chunks != [] {
      var n := |chunks| - 1;
      OneFramePerFragment(encoding, startTime, chunks[..n], tokenClock[..n], drawClock[..n]);
      assert chunks == chunks[..n] + [chunks[n]];
      FragmentsSnoc(chunks[..n], chunks[n]);
    }
  }

  /** The chunk at index `i`, when it has content, requests the live frame
      that follows the frames of the earlier chunks with content, and that
      frame is built from the state right after chunk `i` at the reading
      `drawClock[i]`. */
  lemma {:induction false} LiveFrameAt(encoding: Option<Encoder>, startTime: real, chunks: seq<Option<string>>,
                                       tokenClock: seq<real>, drawClock: seq<real>, i: nat)
    requires |tokenClock| == |chunks| && |drawClock| == |chunks|
    requires i < |chunks| && chunks[i].Some?
    ensures |Fragments(chunks[..i])| < |LiveFrames(encoding, startTime, chunks, tokenClock, drawClock)|
    ensures LiveFrames(encoding, startTime, chunks, tokenClock, drawClock)[|Fragments(chunks[..i])|]
      == BuildFrame(StateAfter(encoding, startTime, chunks[..i + 1], tokenClock[..i + 1]), drawClock[i])
    decreases |chunks|
  {
    var n := |chunks| - 1;
    OneFramePerFragment(encoding, startTime, chunks[..n], tokenClock[..n], drawClock[..n]);
    if i == n {
      assert chunks[..i + 1] == chunks && tokenClock[..i + 1] == tokenClock;
      assert chunks[..i] == chunks[..n];
    } else {
      LiveFrameAt(encoding, startTime, chunks[..n], tokenClock[..n], drawClock[..n], i);
      assert chunks[..n][..i] == chunks[..i];
      assert chunks[..n][..i + 1] == chunks[..i + 1];
      assert tokenClock[..n][..i + 1] == tokenClock[..i + 1];
    }
  }

  /** The last live frame shows the streaming view of the whole text; with no
      live frame at all, no text has arrived. */
  lemma {:induction false} LastLiveFrameText(encoding: Option<Encoder>, startTime: real, chunks: seq<Option<string>>,
                                             tokenClock: seq<real>, drawClock: seq<real>)
    requires |tokenClock| == |chunks| && |drawClock| == |chunks|
    ensures var live := LiveFrames(encoding, startTime, chunks, tokenClock, drawClock);
      && (live == [] ==> Text(chunks) == "")
      && (live != [] ==> live[|live| - 1].displayText == DisplayText(Text(chunks), false))
    decreases |chunks|
  {
    if chunks != [] {
      var n := |chunks| - 1;
      LastLiveFrameText(encoding, startTime, chunks[..n], tokenClock[..n], drawClock[..n]);
      var before := LiveFrames(encoding, startTime, chunks[..n], tokenClock[..n], drawClock[..n]);
      if chunks[n].Some? {
        var f := BuildFrame(StateAfter(encoding, startTime, chunks, tokenClock), drawClock[n]);
        assert LiveFrames(encoding, startTime, chunks, tokenClock, drawClock) == before + [f];
        assert f.displayText == DisplayText(Text(chunks), false);
      } else {
        assert LiveFrames(encoding, startTime, chunks, tokenClock, drawClock) == before;
        assert Text(chunks) == Text(chunks[..n]);
      }
    }
  }

  /** No frame shows more than `bound` tokens. */
  predicate CountsAtMost(frames: seq<Frame>, bound: nat) {
    forall i :: 0 <= i < |frames| ==> frames[i].tokenCount <= bound
  }

  /** The frames show token counts in non-decreasing order. */
  predicate CountsNonDecreasing(frames: seq<Frame>) {
    forall i, j :: 0 <= i <= j < |frames| ==> frames[i].tokenCount <= frames[j].tokenCount
  }

  /** The token counts the live frames show never decrease and never exceed
      the count at the end of the stream. */
  lemma {:induction false} LiveFrameCountsGrow(encoding: Option<Encoder>, startTime: real, chunks: seq<Option<string>>,
                                               tokenClock: seq<real>, drawClock: seq<real>)
    requires |tokenClock| == |chunks| && |drawClock| == |chunks|
    ensures CountsAtMost(LiveFrames(encoding, startTime, chunks, tokenClock, drawClock), Tokens(encoding, chunks))
    ensures CountsNonDecreasing(LiveFrames(encoding, startTime, chunks, tokenClock, drawClock))
    decreases |chunks|
  {
    if chunks != [] {
      var n := |chunks| - 1;
      LiveFrameCountsGrow(encoding, startTime, chunks[..n], tokenClock[..n], drawClock[..n]);
      var before := LiveFrames(encoding, startTime, chunks[..n], tokenClock[..n], drawClock[..n]);
      var total := Tokens(encoding, chunks);
      assert Tokens(encoding, chunks[..n]) <= total;
      assert CountsAtMost(before, total);
      if chunks[n].Some? {
        var f := BuildFrame(StateAfter(encoding, startTime, chunks, tokenClock), drawClock[n]);
        assert f.tokenCount == total;
        assert LiveFrames(encoding, startTime, chunks, tokenClock, drawClock) == before + [f];
      }
    }
  }
}

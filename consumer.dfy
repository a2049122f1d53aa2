/** One chat turn's streaming loop: a session whose state the loop updates
    chunk by chunk, a redraw requested after every chunk with content and once
    more after completion, and the final metrics. */
module Consumer {
  import opened Wrappers
  import opened TokenCounter
  import opened Metrics
  import opened FrameBuilder
  import opened Stream

  /** The numbers of the final report. */
  datatype Report = Report(
    tokenCount: nat,
    totalTime: real,
    finalThroughput: real,
    timeToFirstToken: Option<real>)

  /** The final report after the whole stream, with the clock reading `endTime`:
      the total count, the time since the start, the guarded throughput over
      it, and the time to first token under the same truthiness test as the
      live view. */
  function FinalReport(encoding: Option<Encoder>, startTime: real, chunks: seq<Option<string>>,
                       tokenClock: seq<real>, endTime: real): (r: Report)
    requires |tokenClock| == |chunks|
    ensures r.tokenCount == Tokens(encoding, chunks)
    ensures r.totalTime == endTime - startTime
    ensures r.finalThroughput >= 0.0
    ensures r.totalTime > 0.0 ==> r.finalThroughput * r.totalTime == r.tokenCount as real
    ensures r.totalTime <= 0.0 ==> r.finalThroughput == 0.0
    ensures r.timeToFirstToken.Some? <==>
      r.tokenCount > 0 && FirstTokenTime(encoding, chunks, tokenClock) != Some(0.0)
    ensures r.timeToFirstToken.Some? ==>
      Some(startTime + r.timeToFirstToken.value) == FirstTokenTime(encoding, chunks, tokenClock)
  {
    FirstTokenTimeSetIffCounted(encoding, chunks, tokenClock);
    var tokens := Tokens(encoding, chunks);
    Report(tokens, endTime - startTime, Throughput(tokens, endTime - startTime),
           TimeToFirstToken(startTime, FirstTokenTime(encoding, chunks, tokenClock)))
  }

  /** An empty stream completes normally with a zero count, zero throughput
      and no time to first token. */
  lemma EmptyStreamReport(encoding: Option<Encoder>, startTime: real, endTime: real)
    ensures FinalReport(encoding, startTime, [], [], endTime) == Report(0, endTime - startTime, 0.0, None)
  {
  }

  /** The mutable state of one streaming run. `chunks` and `stamps` record,
      for the proof only, the chunks seen so far and the clock reading at each. */
  class Session {
    const encoding: Option<Encoder>
    const startTime: real
    var firstTokenTime: Option<real>
    var tokenCount: nat
    var responseText: string
    var streamingComplete: bool
    ghost var chunks: seq<Option<string>>
    ghost var stamps: seq<real>

    /** The fields hold what the chunks seen so far accumulate to. */
    ghost predicate Valid()
      reads this
    {
      && |stamps| == |chunks|
      && responseText == Text(chunks)
      && tokenCount == Tokens(encoding, chunks)
      && firstTokenTime == FirstTokenTime(encoding, chunks, stamps)
    }

    /** The state a redraw reads. */
    function Current(): Snapshot
      reads this
    {
      Snapshot(startTime, firstTokenTime, tokenCount, responseText, streamingComplete)
    }

    constructor (encoding: Option<Encoder>, startTime: real)
      ensures Valid()
      ensures this.encoding == encoding && this.startTime == startTime
      ensures chunks == [] && stamps == []
      ensures firstTokenTime == None && tokenCount == 0 && responseText == "" && !streamingComplete
    {
      this.encoding := encoding;
      this.startTime := startTime;
      firstTokenTime := None;
      tokenCount := 0;
      responseText := "";
      streamingComplete := false;
      chunks := [];
      stamps := [];
    }

    /** Processes one chunk; `now` is what the clock reads once the chunk has
        been counted. A chunk with content is appended and counted, and the
        first-token instant is recorded when it is still unset and the count
        has become positive; a chunk without content changes nothing. */
    method OnFragment(content: Option<string>, now: real)
      requires Valid()
      modifies this`firstTokenTime, this`tokenCount, this`responseText, this`chunks, this`stamps
      ensures Valid()
      ensures chunks == old(chunks) + [content] && stamps == old(stamps) + [now]
      ensures content.None? ==>
        responseText == old(responseText) && tokenCount == old(tokenCount) && firstTokenTime == old(firstTokenTime)
      ensures content.Some? ==> responseText == old(responseText) + content.value
      ensures content.Some? ==> tokenCount == old(tokenCount) + Count(encoding, content.value)
      ensures old(tokenCount) <= tokenCount
      ensures old(firstTokenTime).Some? ==> firstTokenTime == old(firstTokenTime)
      ensures old(firstTokenTime).None? ==>
        firstTokenTime == (if content.Some? && tokenCount > 0 then Some(now) else None)
    {
      if content.Some? {
        var fragment := content.value;
        responseText := responseText + fragment;
        var tokensInChunk := Count(encoding, fragment);
        tokenCount := tokenCount + tokensInChunk;
        if firstTokenTime.None? && tokenCount > 0 {
          firstTokenTime := Some(now);
        }
      }
      chunks := chunks + [content];
      stamps := stamps + [now];
      assert chunks[..|chunks| - 1] == old(chunks) && stamps[..|stamps| - 1] == old(stamps);
    }

    /** Marks the stream as exhausted; calling it again changes nothing more. */
    method Complete()
      requires Valid()
      modifies this`streamingComplete
      ensures Valid() && streamingComplete
    {
      streamingComplete := true;
    }
  }

  /** The chunk loop: feeds every chunk to a fresh session and returns the
      redraws it requests, one after every chunk with content. */
  method ConsumeStream(session: Session, chunks: seq<Option<string>>, tokenClock: seq<real>, drawClock: seq<real>)
    returns (live: seq<Frame>)
    requires |tokenClock| == |chunks| && |drawClock| == |chunks|
    requires session.Valid() && session.chunks == [] && !session.streamingComplete
    modifies session
    ensures session.Valid() && !session.streamingComplete
    ensures session.chunks == chunks && session.stamps == tokenClock
    ensures live == LiveFrames(session.encoding, session.startTime, chunks, tokenClock, drawClock)
  {
    live := [];
    var i := 0;
    while i < |chunks|
      invariant 0 <= i <= |chunks|
      invariant session.Valid() && !session.streamingComplete
      invariant session.chunks == chunks[..i] && session.stamps == tokenClock[..i]
      invariant live == LiveFrames(session.encoding, session.startTime, session.chunks, session.stamps, drawClock[..i])
    {
      ghost var seen, stamps := session.chunks, session.stamps;
      session.OnFragment(chunks[i], tokenClock[i]);
      LiveFramesStep(session.encoding, session.startTime, seen, stamps, drawClock[..i], chunks[i], tokenClock[i], drawClock[i]);
      if chunks[i].Some? {
        live := live + [BuildFrame(session.Current(), drawClock[i])];
      }
      assert chunks[..i] + [chunks[i]] == chunks[..i + 1];
      assert tokenClock[..i] + [tokenClock[i]] == tokenClock[..i + 1];
      assert drawClock[..i] + [drawClock[i]] == drawClock[..i + 1];
      i := i + 1;
    }
    assert chunks[..i] == chunks && tokenClock[..i] == tokenClock && drawClock[..i] == drawClock;
  }

  /** The whole turn. `tokenClock[i]` and `drawClock[i]` are the clock
      readings when chunk `i` has been counted and when its redraw is built;
      `openDraw`, `closeDraw` and `endTime` are the readings for the first
      redraw, the redraw requested after completion and the final report.
      `frames` are the redraws requested, in order. The one after completion
      is requested once the live view has stopped, so it is never drawn:
      `onScreen` is the frame the view is left showing when it stops, the last
      one requested while it ran. */
  method Run(encoding: Option<Encoder>, startTime: real, chunks: seq<Option<string>>,
             tokenClock: seq<real>, drawClock: seq<real>, openDraw: real, closeDraw: real, endTime: real)
    returns (frames: seq<Frame>, onScreen: Frame, report: Report)
    requires |tokenClock| == |chunks| && |drawClock| == |chunks|
    ensures frames ==
      [BuildFrame(StateAfter(encoding, startTime, [], []), openDraw)]
      + LiveFrames(encoding, startTime, chunks, tokenClock, drawClock)
      + [BuildFrame(StateAfter(encoding, startTime, chunks, tokenClock).(streamingComplete := true), closeDraw)]
    ensures |frames| == |Fragments(chunks)| + 2
    ensures frames[|frames| - 1].displayText == Text(chunks)
    ensures onScreen == frames[|frames| - 2]
    ensures onScreen.displayText == DisplayText(Text(chunks), false)
    ensures report == FinalReport(encoding, startTime, chunks, tokenClock, endTime)
  {
    var session := new Session(encoding, startTime);
    assert session.Current() == StateAfter(encoding, startTime, [], []);
    var opening := BuildFrame(session.Current(), openDraw);
    var live := ConsumeStream(session, chunks, tokenClock, drawClock);
    LastLiveFrameText(encoding, startTime, chunks, tokenClock, drawClock);
    onScreen := if |live| == 0 then opening else live[|live| - 1];
    session.Complete();
    var closing := BuildFrame(session.Current(), closeDraw);
    frames := [opening] + live + [closing];
    OneFramePerFragment(encoding, startTime, chunks, tokenClock, drawClock);
    var totalTime := endTime - startTime;
    var finalTps := Throughput(session.tokenCount, totalTime);
    report := Report(session.tokenCount, totalTime, finalTps, TimeToFirstToken(startTime, session.firstTokenTime));
  }
}

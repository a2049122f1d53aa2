/** What one redraw shows: the metrics of a session snapshot at an instant and
    the display text, tail-truncated while streaming and full once complete. */
module FrameBuilder {
  import opened Wrappers
  import opened Lines
  import Metrics

  /** Marker put in front of a truncated display. */
  const Ellipsis: string := "...\n"
  /** Shown while streaming before any text arrived. */
  const Placeholder: string := "Generating..."
  /** Number of trailing lines shown while streaming. */
  const LiveLines: nat := 10

  /** The loop-local state that one redraw reads. */
  datatype Snapshot = Snapshot(
    startTime: real,
    firstTokenTime: Option<real>,
    tokenCount: nat,
    responseText: string,
    streamingComplete: bool)

  /** The computed content of one redraw: the metrics table and the response text. */
  datatype Frame = Frame(
    tokenCount: nat,
    elapsed: real,
    throughput: real,
    timeToFirstToken: Option<real>,
    displayText: string)

  /** The response text as displayed. While streaming, a text of more than
      `LiveLines` lines shows the marker and then its last `LiveLines` lines;
      a shorter text shows itself, or the placeholder when empty. */
  function DisplayText(text: string, complete: bool): (shown: string)
    ensures complete ==> shown == text
    ensures !complete ==> shown != ""
  {
    if complete then text
    else
      var lines := Split(text, '\n');
      if |lines| > LiveLines then Ellipsis + Join(lines[|lines| - LiveLines..], '\n')
      else if text != "" then text
      else Placeholder
  }

  /** While streaming, a text of more than `LiveLines` lines displays as the
      marker followed by its last `LiveLines` lines rejoined. */
  lemma TruncatedDisplay(text: string)
    requires |Split(text, '\n')| > LiveLines
    ensures var lines := Split(text, '\n');
      DisplayText(text, false) == Ellipsis + Join(lines[|lines| - LiveLines..], '\n')
  {
  }

  /** While streaming, a text with fewer than `LiveLines` line breaks is
      shown as it is, or as the placeholder when it is empty. */
  lemma ShortStreamingDisplay(text: string)
    requires Occurrences(text, '\n') < LiveLines
    ensures DisplayText(text, false) == (if text == "" then Placeholder else text)
  {
    SplitCount(text, '\n');
  }

  /** While streaming, a text with at least `LiveLines` line breaks is shown
      as the marker followed by a final segment of the text that holds exactly
      `LiveLines - 1` line breaks and consists of the text's last `LiveLines`
      lines. */
  lemma LongStreamingDisplay(text: string)
    requires Occurrences(text, '\n') >= LiveLines
    ensures var shown := DisplayText(text, false);
      && |Ellipsis| <= |shown|
      && shown[..|Ellipsis|] == Ellipsis
      && IsSuffix(shown[|Ellipsis|..], text)
      && Occurrences(shown[|Ellipsis|..], '\n') == LiveLines - 1
      && |Split(text, '\n')| == Occurrences(text, '\n') + 1
      && Split(shown[|Ellipsis|..], '\n') == Split(text, '\n')[|Split(text, '\n')| - LiveLines..]
  {
    SplitCount(text, '\n');
    TruncatedDisplay(text);
    LastPieces(text, '\n', LiveLines);
    var lines := Split(text, '\n');
    var tailText := Join(lines[|lines| - LiveLines..], '\n');
    assert (Ellipsis + tailText)[|Ellipsis|..] == tailText;
    assert (Ellipsis + tailText)[..|Ellipsis|] == Ellipsis;
  }

  /** Fifteen lines: while streaming the display is the marker and the last ten
      lines; once complete it is all fifteen. */
  lemma FifteenLines(lines: seq<string>)
    requires |lines| == 15
    requires forall i :: 0 <= i < |lines| ==> '\n' !in lines[i]
    ensures DisplayText(Join(lines, '\n'), false) == Ellipsis + Join(lines[5..], '\n')
    ensures Split(DisplayText(Join(lines, '\n'), false)[|Ellipsis|..], '\n') == lines[5..]
    ensures DisplayText(Join(lines, '\n'), true) == Join(lines, '\n')
  {
    var text := Join(lines, '\n');
    SplitJoin(lines, '\n');
    TruncatedDisplay(text);
    LastPieces(text, '\n', LiveLines);
    assert (Ellipsis + Join(lines[5..], '\n'))[|Ellipsis|..] == Join(lines[5..], '\n');
  }

  /** The frame a redraw shows for a snapshot at the instant `now`. */
  function BuildFrame(s: Snapshot, now: real): (f: Frame)
    ensures f.tokenCount == s.tokenCount
    ensures f.elapsed == now - s.startTime
    ensures f.throughput >= 0.0
    ensures f.elapsed > 0.0 ==> f.throughput * f.elapsed == s.tokenCount as real
    ensures f.elapsed <= 0.0 ==> f.throughput == 0.0
    ensures f.timeToFirstToken.Some? <==> s.firstTokenTime.Some? && s.firstTokenTime.value != 0.0
    ensures f.timeToFirstToken.Some? ==> s.startTime + f.timeToFirstToken.value == s.firstTokenTime.value
    ensures s.streamingComplete ==> f.displayText == s.responseText
    ensures !s.streamingComplete ==> f.displayText != ""
  {
    var elapsed := now - s.startTime;
    Frame(
      s.tokenCount,
      elapsed,
      Metrics.Throughput(s.tokenCount, elapsed),
      Metrics.TimeToFirstToken(s.startTime, s.firstTokenTime),
      DisplayText(s.responseText, s.streamingComplete))
  }
}

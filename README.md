# Streaming metrics aggregator of a local LLM chat client

`main()` in `main.py` sends a chat to a local inference server, reads the
answer as a stream of chunks and keeps a live terminal view up to date: a
metrics table (tokens generated, elapsed time, running tokens per second,
time to first token) and the response text, cut to its last ten lines while
the stream runs. After the stream ends it marks the run complete and builds a
view of the full text, but by then the live view has already stopped: it
stays on the last view requested while it ran, and the full-text view is
never drawn. This project models that aggregator in Dafny and proves what it
promises.

- `TokenCounter` (`token_counter.dfy`): the per-chunk token count. The exact
  tokenizer is a parameter `Option<string -> nat>` (the length of its encoding);
  `None` stands for a tokenizer that failed to load, which selects the fallback
  "1 for a non-empty chunk, 0 for an empty one" for the whole run.
- `Metrics` (`metrics.dfy`): throughput with the division guarded to 0, and the
  time to first token, shown only when the first-token instant passes the
  code's truthiness test.
- `Lines` (`lines.dfy`): Python's `str.split('\n')` and `'\n'.join(...)`,
  with their round trips.
- `FrameBuilder` (`frame_builder.dfy`): a snapshot of the loop's state, the
  frame one redraw shows, and the truncation policy.
- `Stream` (`stream.dfy`): the loop's results stated on values, for any prefix
  of the stream: accumulated text, token count, first-token instant, and the
  frames it asks to draw.
- `Consumer` (`consumer.dfy`): the class `Session` holding the loop-local state
  that `main()` mutates, with `OnFragment` (the body of the chunk loop) and
  `Complete`, the method `ConsumeStream`, which is `main()`'s chunk loop, and
  the method `Run`, which is the whole turn: the requested redraws, the view
  left on screen, and the final report.

Time is a parameter everywhere: the start instant, the clock reading when
chunk `i` has been counted (`tokenClock[i]`), the reading when its redraw is
built (`drawClock[i]`), the readings for the first redraw, the redraw after
completion, and the final report. Times and throughput are `real`.

The elapsed time is `now - start` and is not clamped at zero (a clock that
steps back gives a negative elapsed time); only the throughput guard
(`elapsed > 0`) protects the division. The time-to-first-token row is shown
when the recorded instant is truthy, so an instant equal to `0.0` is treated
as unset, as the code's `if first_token_time:` does.

## Model

| member | source | states |
|---|---|---|
| TokenCounter.Count | main.py:106-115 | with a tokenizer, the count is the length of the fragment's encoding; without one, at most 1, and 0 exactly for the empty fragment |
| Metrics.Throughput | main.py:60 | never negative; exactly 0 when the elapsed time is not positive or no token was counted; otherwise multiplying by the elapsed time gives back the token count |
| Metrics.TimeToFirstToken | main.py:71-73 | available exactly when the first-token instant is set and non-zero, and then start plus the interval is that instant |
| Lines.Split | main.py:81 | a split has at least one piece, so the empty text is one empty line |
| Lines.Join | main.py:83 | the inverse of a split: JoinSplit and SplitJoin give the two round trips, and JoinOccurrences the number of separators it inserts |
| Lines.SplitPiecesPlain | main.py:81 | no piece of a split holds the separator |
| Lines.JoinSplit | main.py:81-83 | joining the pieces of a split gives back the text |
| Lines.SplitJoin | main.py:81-83 | splitting a join of separator-free pieces gives back the pieces |
| Lines.JoinOccurrences | main.py:83 | a join of n separator-free pieces holds n - 1 separators |
| Lines.SplitCount | main.py:81-82 | a text has one more line than line breaks |
| Lines.JoinDropIsSuffix | main.py:83 | joining a final run of the pieces gives a final segment of the joined text |
| Lines.LastPieces | main.py:81-83 | the last n lines rejoined are a final segment of the text, hold n - 1 line breaks and split back into those lines |
| FrameBuilder.DisplayText | main.py:77-85 | once streaming is complete the display is the response text itself; while streaming it is never empty |
| FrameBuilder.ShortStreamingDisplay | main.py:84-85 | while streaming, a text with fewer than ten line breaks displays as itself, or as "Generating..." when empty |
| FrameBuilder.LongStreamingDisplay | main.py:81-83 | while streaming, a text with at least ten line breaks displays as "...\n" followed by a final segment of the text that holds exactly nine line breaks and splits into exactly the text's last ten lines |
| FrameBuilder.FifteenLines | main.py:77-85 | fifteen lines show as the marker and the last ten while streaming, and in full once complete |
| FrameBuilder.BuildFrame | main.py:57-85 | a frame shows the snapshot's token count, the elapsed time since start, a non-negative throughput consistent with them, the time to first token when available, and the full text once complete |
| Stream.Text | main.py:104 | the text accumulated over a prefix of the stream; TextIsConcatOfFragments relates it to the in-order contents, AccumulationSplits and PrefixAccumulation to its parts |
| Stream.ChunkTokens | main.py:106-115 | one chunk's share of the count: TokenCounter.Count of its content, nothing for a chunk without content (AbsentChunkChangesNothing) |
| Stream.Tokens | main.py:115 | the count accumulated over a prefix of the stream; AccumulationSplits, PrefixAccumulation and FallbackCountsNonEmptyFragments state its properties |
| Stream.TextIsConcatOfFragments | main.py:101-104 | the accumulated text is the in-order concatenation of every chunk content that is present |
| Stream.AccumulationSplits | main.py:101-115 | the text and the token count of two consecutive stretches of the stream add up |
| Stream.PrefixAccumulation | main.py:104-115 | later chunks never lower the count and only append to the text |
| Stream.AbsentChunkChangesNothing | main.py:101-102 | a chunk without content, anywhere in the stream, changes neither text nor count |
| Stream.FallbackCountsNonEmptyFragments | main.py:109-115 | with the fallback counter the count is the number of non-empty fragments |
| Stream.HelloWorld | main.py:101-115 | "Hello", " world", "!" under the fallback give 3 tokens and the text "Hello world!" |
| Stream.FirstTokenTime | main.py:117-119 | the first-token instant recorded over a prefix of the stream; FirstTokenTimeSetIffCounted, FirstTokenTimeAtFirstCount, FirstTokenTimeWriteOnce and FirstTokenTimeIsAReading state its properties |
| Stream.FirstTokenTimeSetIffCounted | main.py:117-119 | the first-token instant is set if and only if the count is positive |
| Stream.FirstTokenTimeAtFirstCount | main.py:117-119 | the first-token instant is the clock reading at the chunk that takes the count from zero to positive |
| Stream.FirstTokenTimeWriteOnce | main.py:117-119 | once set after some prefix of the stream, the first-token instant stays the same for the rest of it |
| Stream.FirstTokenTimeIsAReading | main.py:118-119 | a recorded first-token instant is one of the clock readings |
| Stream.FirstTokenNotBeforeStart | main.py:118-119 | with a clock that never reads before the start, the first token is not recorded before the start |
| Stream.EmptyThenHi | main.py:109-119 | "" then "hi" under the fallback: count 0 then 1, instant unset after the first and the second chunk's reading after the second |
| Stream.LiveFrames | main.py:101-122 | the redraws requested inside the chunk loop; OneFramePerFragment, LiveFrameAt, LastLiveFrameText and LiveFrameCountsGrow state their number, their contents and their order |
| Stream.OneFramePerFragment | main.py:101-122 | as many live frames are requested as there are chunks with content |
| Stream.LiveFrameAt | main.py:101-122 | the chunk at index i, when it has content, requests the live frame at position "number of earlier chunks with content", built from the state right after chunk i at that redraw's clock reading |
| Stream.LastLiveFrameText | main.py:100-122 | the last live frame shows the streaming view of the whole text, and with no live frame no text has arrived |
| Stream.LiveFrameCountsGrow | main.py:115-122 | the token counts the live frames show never decrease and never exceed the final count |
| Consumer.FinalReport | main.py:129-138 | the report holds the total count, the time since the start, a non-negative throughput that times the total time gives back the count (0 when the total time is not positive), and a time to first token present exactly when tokens were counted and the instant is not 0.0, equal to the instant minus the start |
| Consumer.EmptyStreamReport | main.py:129-131 | an empty stream reports 0 tokens, throughput 0 and no time to first token |
| Consumer.Session.constructor | main.py:39-43 | a new session has no text, no tokens, no first-token instant and is not complete |
| Consumer.Session.OnFragment | main.py:101-119 | a chunk with content is appended and counted and sets the first-token instant when unset and the count became positive; a chunk without content changes nothing; the count never decreases and a set instant never changes; the state stays what the chunks seen so far accumulate to |
| Consumer.Session.Complete | main.py:125 | marks the stream complete and changes nothing else, so a second call changes nothing |
| Consumer.ConsumeStream | main.py:101-122 | feeding every chunk to a fresh session leaves it holding what the whole stream accumulates to, and returns the redraws requested along the way |
| Consumer.Run | main.py:100-131 | the requested frames are the opening redraw, one per chunk with content, and one after completion whose text is the full text; the frame left on screen is the last one requested while the view ran, and its text is the streaming view of the whole text; the report is FinalReport |

## Left out

- The request to the inference server and the client set-up (main.py:17-20, 47-54): network I/O; the stream is a given sequence of chunk contents, `None` for a chunk without delta content.
- Loading and running the tokenizer (main.py:22-29, 108): a foreign library; its encoding length is a parameter `string -> nat` and a failed load is `None`.
- Terminal rendering (main.py:45, 62-75, 87-97, 100, 122, 126): tables, panels, the live view and its four-redraws-per-second throttling are presentation; a frame holds only the computed numbers and text, and `Run` returns every requested redraw in order, not the subset the throttled view actually paints.
- Clock reads (main.py:39, 58, 119, 129): each call site's reading is a parameter; the model does not assume the clock is monotonic.
- Two-decimal float formatting and float rounding: times and throughput are exact `real`s.
- The final report text (main.py:133-141): presentation; `Consumer.Report` holds the count, the total time, the final throughput and the time to first token the text is built from. Because the adjacent string literals are joined before the conditional applies, the printed panel holds only the "N/A" line when no first token was recorded; the model does not encode this.
- An error raised while reading the stream: it propagates out of `main()`; the model's stream is a finite sequence that cannot fail.
- A chunk whose `choices` list is empty (main.py:102): `chunk.choices[0]` raises `IndexError` and ends `main()`; the model's chunk is already the optional delta content, so it cannot express this case.
- A fragment holding a special-token string such as `<|endoftext|>` (main.py:108): `encoding.encode` raises `ValueError` by default and ends `main()`; the model's tokenizer is a total function `string -> nat`, so it cannot express this case.
- The redraw after completion (main.py:125-126): it runs after the `with Live(...)` block has exited, so the view has stopped and `update` without `refresh=True` only stores the new view. The model keeps it as the last requested frame of `Run`, and `Run`'s `onScreen` is the frame actually left showing. The full-text display the comment at main.py:124 intends is never drawn.
- The `Message` record and the example entry point (main.py:32-35, 144-150): plain data and a script entry point.

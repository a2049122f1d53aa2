/** Derived performance metrics: throughput with a guarded division and the
    time to first token, shown only when the first-token instant is set. */
module Metrics {
  import opened Wrappers

  /** Tokens per second over an elapsed time; an elapsed time that is not
      positive gives exactly zero instead of a division. */
  function Throughput(tokens: nat, elapsed: real): (tps: real)
    ensures tps >= 0.0
    ensures elapsed <= 0.0 ==> tps == 0.0
    ensures elapsed > 0.0 ==> tps * elapsed == tokens as real
    ensures tokens == 0 ==> tps == 0.0
  {
    if elapsed > 0.0 then tokens as real / elapsed else 0.0
  }

  /** The interval from the run's start to the first token. The guard is
      main.py's `if first_token_time:` test on the instant, so an unset instant and an
      instant equal to 0.0 both give "not available". */
  function TimeToFirstToken(startTime: real, firstTokenTime: Option<real>): (ttft: Option<real>)
    ensures ttft.Some? <==> firstTokenTime.Some? && firstTokenTime.value != 0.0
    ensures ttft.Some? ==> startTime + ttft.value == firstTokenTime.value
  {
    if firstTokenTime.Some? && firstTokenTime.value != 0.0
    then Some(firstTokenTime.value - startTime)
    else None
  }
}

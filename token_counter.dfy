/** Per-fragment token counting: the exact tokenizer when it loaded, otherwise
    the fallback that counts one token per non-empty stream entry. */
module TokenCounter {
  import opened Wrappers

  /** The number of tokens the tokenizer assigns to a text (the length of its
      encoding), treated as an uninterpreted capability. */
  type Encoder = string -> nat

  /** Tokens in one fragment, counted on that fragment alone. `None` stands for
      a tokenizer that could not be loaded, which selects the fallback for the
      whole run. */
  function Count(encoding: Option<Encoder>, content: string): (n: nat)
    ensures encoding.Some? ==> n == encoding.value(content)
    ensures encoding.None? ==> n <= 1 && (n == 0 <==> content == "")
  {
    match encoding
    case Some(encode) => encode(content)
    case None => if content != "" then 1 else 0
  }
}

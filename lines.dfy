/** Splitting a text into lines and joining lines back, with the semantics of
    Python's `str.split(sep)` and `sep.join(pieces)` for a one-character
    separator: splitting never yields an empty list, and an empty text, or a
    separator at either end, yields an empty piece. */
module Lines {

  /** Number of occurrences of `c` in `s`. */
  function Occurrences(s: string, c: char): nat {
    multiset(s)[c]
  }

  /** `t` is a final segment of `s`. */
  predicate IsSuffix(t: string, s: string) {
    |t| <= |s| && s[|s| - |t|..] == t
  }

  /** The maximal separator-free pieces of `s`, in order. */
  function Split(s: string, sep: char): (pieces: seq<string>)
    ensures |pieces| >= 1
    decreases |s|
  {
    if s == [] then [""]
    else
      var rest := Split(s[1..], sep);
      if s[0] == sep then [""] + rest
      else [[s[0]] + rest[0]] + rest[1..]
  }

  /** No piece of a split holds the separator. */
  lemma {:induction false} SplitPiecesPlain(s: string, sep: char)
    ensures forall i :: 0 <= i < |Split(s, sep)| ==> sep !in Split(s, sep)[i]
    decreases |s|
  {
    if s != [] {
      SplitPiecesPlain(s[1..], sep);
      var rest := Split(s[1..], sep);
      if s[0] != sep {
        assert sep !in [s[0]] + rest[0];
        assert forall i :: 1 <= i < |Split(s, sep)| ==> Split(s, sep)[i] == rest[i];
      } else {
        assert forall i :: 1 <= i < |Split(s, sep)| ==> Split(s, sep)[i] == rest[i - 1];
      }
    }
  }

  /** The pieces with one separator between neighbours; the empty list joins to "". */
  function Join(pieces: seq<string>, sep: char): string
    decreases |pieces|
  {
    if |pieces| == 0 then ""
    else if |pieces| == 1 then pieces[0]
    else pieces[0] + [sep] + Join(pieces[1..], sep)
  }

  /** Joining the pieces of a split gives back the text. */
  lemma {:induction false} JoinSplit(s: string, sep: char)
    ensures Join(Split(s, sep), sep) == s
    decreases |s|
  {
    if s != [] {
      var rest := Split(s[1..], sep);
      JoinSplit(s[1..], sep);
      if s[0] == sep {
        assert Split(s, sep) == [""] + rest;
        assert ([""] + rest)[1..] == rest;
      } else {
        var pieces := [[s[0]] + rest[0]] + rest[1..];
        assert Split(s, sep) == pieces;
        if |rest| > 1 {
          assert pieces[1..] == rest[1..];
          assert Join(rest, sep) == rest[0] + [sep] + Join(rest[1..], sep);
        }
      }
      assert s == [s[0]] + s[1..];
    }
  }

  /** Splitting a separator-free head followed by anything glues the head to
      the first piece of the rest. */
  lemma {:induction false} SplitAfterPlainHead(head: string, t: string, sep: char)
    requires sep !in head
    ensures Split(head + t, sep) == [head + Split(t, sep)[0]] + Split(t, sep)[1..]
    decreases |head|
  {
    var p := Split(t, sep);
    if head == [] {
      assert head + t == t && head + p[0] == p[0];
      assert p == [p[0]] + p[1..];
    } else {
      var s := head + t;
      assert s[0] == head[0] && s[0] != sep;
      assert s[1..] == head[1..] + t;
      SplitAfterPlainHead(head[1..], t, sep);
      var r := Split(s[1..], sep);
      assert r == [head[1..] + p[0]] + p[1..];
      assert Split(s, sep) == [[s[0]] + r[0]] + r[1..];
      assert [head[0]] + (head[1..] + p[0]) == head + p[0];
    }
  }

  /** Splitting a join of separator-free pieces gives back the pieces. */
  lemma {:induction false} SplitJoin(pieces: seq<string>, sep: char)
    requires |pieces| >= 1
    requires forall i :: 0 <= i < |pieces| ==> sep !in pieces[i]
    ensures Split(Join(pieces, sep), sep) == pieces
    decreases |pieces|
  {
    if |pieces| == 1 {
      SplitAfterPlainHead(pieces[0], "", sep);
      assert pieces[0] + "" == pieces[0];
    } else {
      var tail := Join(pieces[1..], sep);
      SplitJoin(pieces[1..], sep);
      assert Split([sep] + tail, sep) == [""] + pieces[1..];
      SplitAfterPlainHead(pieces[0], [sep] + tail, sep);
      assert pieces[0] + [sep] + tail == pieces[0] + ([sep] + tail);
      assert pieces[0] + "" == pieces[0];
      assert ([""] + pieces[1..])[1..] == pieces[1..];
    }
  }

  /** A join of separator-free pieces holds one separator fewer than pieces. */
  lemma {:induction false} JoinOccurrences(pieces: seq<string>, sep: char)
    requires |pieces| >= 1
    requires forall i :: 0 <= i < |pieces| ==> sep !in pieces[i]
    ensures Occurrences(Join(pieces, sep), sep) == |pieces| - 1
    decreases |pieces|
  {
    assert multiset(pieces[0])[sep] == 0;
    if |pieces| > 1 {
      JoinOccurrences(pieces[1..], sep);
      assert multiset(pieces[0] + [sep] + Join(pieces[1..], sep))
          == multiset(pieces[0]) + multiset([sep]) + multiset(Join(pieces[1..], sep));
    }
  }

  /** A text has one more line than it has separators. */
  lemma SplitCount(s: string, sep: char)
    ensures |Split(s, sep)| == Occurrences(s, sep) + 1
  {
    JoinSplit(s, sep);
    SplitPiecesPlain(s, sep);
    JoinOccurrences(Split(s, sep), sep);
  }

  /** Joining a final run of the pieces gives a final segment of the join. */
  lemma {:induction false} JoinDropIsSuffix(pieces: seq<string>, k: nat, sep: char)
    requires k < |pieces|
    ensures IsSuffix(Join(pieces[k..], sep), Join(pieces, sep))
    decreases k
  {
    if k > 0 {
      JoinDropIsSuffix(pieces[1..], k - 1, sep);
      assert pieces[1..][k - 1..] == pieces[k..];
      var whole := Join(pieces, sep);
      var rest := Join(pieces[1..], sep);
      assert whole == (pieces[0] + [sep]) + rest;
      assert whole[|whole| - |rest|..] == rest;
    }
  }

  /** The last `n` pieces of a split, rejoined, form a final segment of the
      text that holds `n - 1` separators and splits back into those pieces. */
  lemma LastPieces(s: string, sep: char, n: nat)
    requires 1 <= n <= |Split(s, sep)|
    ensures var pieces := Split(s, sep);
      var tail := Join(pieces[|pieces| - n..], sep);
      && IsSuffix(tail, s)
      && Occurrences(tail, sep) == n - 1
      && Split(tail, sep) == pieces[|pieces| - n..]
  {
    LastPiecesAreSuffix(s, sep, n);
    LastPiecesRejoin(s, sep, n);
  }

  lemma LastPiecesAreSuffix(s: string, sep: char, n: nat)
    requires 1 <= n <= |Split(s, sep)|
    ensures var pieces := Split(s, sep);
      IsSuffix(Join(pieces[|pieces| - n..], sep), s)
  {
    JoinSplit(s, sep);
    JoinDropIsSuffix(Split(s, sep), |Split(s, sep)| - n, sep);
  }

  lemma LastPiecesRejoin(s: string, sep: char, n: nat)
    requires 1 <= n <= |Split(s, sep)|
    ensures var pieces := Split(s, sep);
      var tail := Join(pieces[|pieces| - n..], sep);
      && Occurrences(tail, sep) == n - 1
      && Split(tail, sep) == pieces[|pieces| - n..]
  {
    var pieces := Split(s, sep);
    var last := pieces[|pieces| - n..];
    SplitPiecesPlain(s, sep);
    forall i | 0 <= i < |last|
      ensures sep !in last[i]
    {
      assert last[i] == pieces[|pieces| - n + i];
    }
    JoinPlainPieces(last, sep);
  }

  /** Separator-free pieces join into a text with one separator fewer than
      pieces, which splits back into them. */
  lemma JoinPlainPieces(pieces: seq<string>, sep: char)
    requires |pieces| >= 1
    requires forall i :: 0 <= i < |pieces| ==> sep !in pieces[i]
    ensures Occurrences(Join(pieces, sep), sep) == |pieces| - 1
    ensures Split(Join(pieces, sep), sep) == pieces
  {
    JoinOccurrences(pieces, sep);
    SplitJoin(pieces, sep);
  }
}

/**
 * The reader that the tokenizers consume, abstracted to a cursor over the
 * decoded chars.  Past the end of the input it yields `'\0'` forever, as the
 * buffered readers do; `Peek(d)` follows the convention of
 * rust/src/old2/peek_reader.rs:57: `Peek(0)` is the last char popped,
 * `Peek(1)` the next one to pop and `Peek(2)` the one after.
 */
module Cursors {
  import opened Positions
  import opened Utf8Source

  /**
   * One iteration of a tokenizer loop: go on with a new loop state after
   * popping one char, or leave the loop with a result.
   */
  datatype Step<S, R> = Continue(next: S) | Exit(result: R)

  /** Chars `i..j` of the padded stream. */
  function Slice(input: seq<char>, i: nat, j: nat): (s: seq<char>)
    requires i <= j
    ensures |s| == j - i && forall k :: 0 <= k < j - i ==> s[k] == StreamAt(input, i + k)
  {
    seq(j - i, k => StreamAt(input, i + k))
  }

  /** Inside the input, the padded stream is the input itself. */
  lemma SliceInside(input: seq<char>, i: nat, j: nat)
    requires i <= j <= |input|
    ensures Slice(input, i, j) == input[i..j]
  {
  }

  lemma SliceStep(input: seq<char>, i: nat, j: nat)
    requires i <= j
    ensures Slice(input, i, j + 1) == Slice(input, i, j) + [StreamAt(input, j)]
  {
  }

  lemma SliceAppend(input: seq<char>, i: nat, j: nat, k: nat)
    requires i <= j <= k
    ensures Slice(input, i, k) == Slice(input, i, j) + Slice(input, j, k)
  {
  }

  /** The position after `j` chars is the one after `i` chars walked over the chars between. */
  lemma {:induction false} StreamPosSlice(input: seq<char>, i: nat, j: nat)
    requires i <= j
    ensures StreamPos(input, j) == WalkAll(StreamPos(input, i), Slice(input, i, j))
  {
    if j > i {
      StreamPosSlice(input, i, j - 1);
      SliceStep(input, i, j - 1);
      assert Slice(input, i, j)[..j - i - 1] == Slice(input, i, j - 1);
    } else {
      assert Slice(input, i, j) == [];
    }
  }

  /** A span from the position after `i` chars to the one after `j` covers the bytes of the chars between. */
  lemma SpanOfSlice(input: seq<char>, i: nat, j: nat)
    requires i <= j
    ensures Span(StreamPos(input, i), StreamPos(input, j)).Len() == ByteLen(Slice(input, i, j))
  {
    StreamPosSlice(input, i, j);
    SpanOfWalk(StreamPos(input, i), Slice(input, i, j));
  }

  /** On one line of ASCII text, the position after `n` chars is byte `n`, column `n`. */
  lemma {:induction false} AsciiLinePos(input: seq<char>, n: nat)
    requires n <= |input|
    requires forall k :: 0 <= k < n ==> input[k] as int < 0x80 && !IsCharNewLine(input[k])
    ensures StreamPos(input, n) == Position(n, 1, n)
  {
    if n > 0 {
      AsciiLinePos(input, n - 1);
    }
  }

  class Cursor {
    const input: seq<char>
    /** The number of chars popped. */
    var at: nat
    /** `get_pos`: the position after the popped chars. */
    var pos: Position

    ghost predicate Valid()
      reads this
    {
      pos == StreamPos(input, at)
    }

    constructor (s: seq<char>)
      ensures Valid() && input == s && at == 0
    {
      input, at, pos := s, 0, Start;
    }

    /** `peek(d)`: the char `d - 1` places after the next one to pop. */
    function Peek(d: int): char
      reads this
    {
      StreamAt(input, at + d - 1)
    }

    /** `pop`: the next char, and the position walked over it. */
    method Pop() returns (c: char)
      requires Valid()
      modifies this
      ensures Valid() && c == StreamAt(input, old(at)) && at == old(at) + 1
    {
      c := StreamAt(input, at);
      at, pos := at + 1, pos.Walk(c);
    }
  }
}

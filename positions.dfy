/**
 * Byte/line/column positions: `CharPos::walk` (rust/src/old2/char_reader.rs)
 * and the `Position`/`Span` records of rust/src/pos.rs, whose `step` advances
 * exactly like `walk`.
 */
module Positions {
  import opened Wrappers
  import Chars

  /**
   * The line terminators of section 5.8 of the Unicode Standard, except CR,
   * which is left out so that CR LF counts as one break.
   */
  predicate IsCharNewLine(c: char)
    ensures IsCharNewLine(c) <==> c as int in {0x0A, 0x0B, 0x0C, 0x85, 0x2028, 0x2029}
  {
    c == '\n' || c == '\U{000B}' || c == '\U{000C}' || c == '\U{0085}' || c == '\U{2028}' || c == '\U{2029}'
  }

  datatype Position = Position(byte: nat, line: nat, col: nat)
  {
    /** The position just after `c`, when `c` starts at this one. */
    function Walk(c: char): (p: Position)
      ensures p.byte == byte + Chars.Utf8Len(c)
      ensures IsCharNewLine(c) ==> p.line == line + 1 && p.col == 0
      ensures !IsCharNewLine(c) ==> p.line == line && p.col == col + 1
    {
      var b := byte + Chars.Utf8Len(c);
      if IsCharNewLine(c) then Position(b, line + 1, 0) else Position(b, line, col + 1)
    }

    /** `walk_opt`: walking over nothing leaves the position where it is. */
    function WalkOpt(c: Option<char>): (p: Position)
      ensures c.None? ==> p == this
      ensures c.Some? ==> p == Walk(c.value)
    {
      match c
      case Some(ch) => Walk(ch)
      case None => this
    }
  }

  /** The position that the tokenizers' readers start from: byte 0, line 1, column 0. */
  const Start := Position(0, 1, 0)

  /** `pos` walked over every char of `s` in turn. */
  function WalkAll(pos: Position, s: seq<char>): Position
  {
    if s == [] then pos else WalkAll(pos, s[..|s| - 1]).Walk(s[|s| - 1])
  }

  /** The number of UTF-8 bytes in `s`. */
  function ByteLen(s: seq<char>): nat
  {
    if s == [] then 0 else ByteLen(s[..|s| - 1]) + Chars.Utf8Len(s[|s| - 1])
  }

  /** The number of line terminators in `s`. */
  function NewLines(s: seq<char>): nat
  {
    if s == [] then 0 else NewLines(s[..|s| - 1]) + (if IsCharNewLine(s[|s| - 1]) then 1 else 0)
  }

  /** The number of chars after the last line terminator of `s` (all of them if there is none). */
  function LastLineLength(s: seq<char>): nat
  {
    if s == [] then 0
    else if IsCharNewLine(s[|s| - 1]) then 0
    else LastLineLength(s[..|s| - 1]) + 1
  }

  /**
   * Walking over a string adds its UTF-8 length to the byte offset and its
   * number of line terminators to the line; the column counts the chars
   * since the last terminator, or continues the old column if there is none.
   */
  lemma {:induction false} WalkAllCounts(pos: Position, s: seq<char>)
    ensures WalkAll(pos, s).byte == pos.byte + ByteLen(s)
    ensures WalkAll(pos, s).line == pos.line + NewLines(s)
    ensures WalkAll(pos, s).col
         == if NewLines(s) == 0 then pos.col + |s| else LastLineLength(s)
  {
    if s != [] {
      var init := s[..|s| - 1];
      WalkAllCounts(pos, init);
      if NewLines(init) == 0 && !IsCharNewLine(s[|s| - 1]) {
        NoNewLinesLastLine(init);
      }
    }
  }

  lemma {:induction false} NoNewLinesLastLine(s: seq<char>)
    requires NewLines(s) == 0
    ensures LastLineLength(s) == |s|
  {
    if s != [] {
      NoNewLinesLastLine(s[..|s| - 1]);
    }
  }

  /** Walking over `a + b` is walking over `a`, then over `b`. */
  lemma {:induction false} WalkAllAppend(pos: Position, a: seq<char>, b: seq<char>)
    ensures WalkAll(pos, a + b) == WalkAll(WalkAll(pos, a), b)
    decreases |b|
  {
    if b == [] {
      assert a + b == a;
    } else {
      assert (a + b)[..|a + b| - 1] == a + b[..|b| - 1];
      WalkAllAppend(pos, a, b[..|b| - 1]);
    }
  }

  /** The UTF-8 length of a string is the length of its encoding. */
  lemma {:induction false} ByteLenEncoding(s: seq<char>)
    ensures ByteLen(s) == |Chars.EncodeString(s)|
  {
    if s != [] {
      ByteLenEncoding(s[..|s| - 1]);
    }
  }

  /** A string never has fewer UTF-8 bytes than chars. */
  lemma {:induction false} ByteLenAtLeastLength(s: seq<char>)
    ensures ByteLen(s) >= |s|
  {
    if s != [] {
      ByteLenAtLeastLength(s[..|s| - 1]);
    }
  }

  /** `Span` of rust/src/pos.rs: where a token starts and ends. */
  datatype Span = Span(start: Position, end: Position)
  {
    /** The number of bytes the span covers. */
    function Len(): int
    {
      end.byte - start.byte
    }

    /** `step`: the end moves over `c`, so the span grows by its UTF-8 length. */
    function Step(c: char): (r: Span)
      ensures r.start == start && r.Len() == Len() + Chars.Utf8Len(c)
    {
      Span(start, end.Walk(c))
    }
  }

  /** The span covering the chars `s` read from `start`, and its byte length. */
  lemma SpanOfWalk(start: Position, s: seq<char>)
    ensures Span(start, WalkAll(start, s)).Len() == ByteLen(s)
  {
    WalkAllCounts(start, s);
  }
}

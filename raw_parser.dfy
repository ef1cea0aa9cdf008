/**
 * `RawParser` (rust/src/raw_parser.rs:45-122): the same 64-char buffer as the
 * first draft's `PeekReader`, but with no reserve of popped chars.  A read
 * cycle moves only the unpopped chars to the front; `peek(d)` for 1 <= d <= 3
 * looks `d` places past the next char to pop.
 *
 * The byte source is the UTF-8 form of a ghost `text`; `popped` counts the
 * chars handed out, `filled` the chars decoded so far.
 */
module RawParser {
  import Chars
  import opened Positions
  import opened Utf8Source
  import PeekReader

  const ReadBufSize := 64
  const ReadLimit := ReadBufSize - 4

  class RawParser {
    var buf: array<char>
    var bufPos: nat
    var pos: Position
    const src: seq<Chars.byte>
    var srcAt: nat
    var eof: bool
    ghost const text: seq<char>
    ghost var popped: nat
    ghost var filled: nat

    /** Slot `j` holds char `popped - bufPos + j` of the stream. */
    ghost predicate Window()
      reads this, buf
    {
      && buf.Length == ReadBufSize
      && forall j :: 0 <= j < ReadBufSize ==> buf[j] == StreamAt(text, popped - bufPos + j)
    }

    /** The byte source has been read exactly up to the end of the `filled` decoded chars. */
    ghost predicate SourceTracked()
      reads this
    {
      && src == Chars.EncodeString(text)
      && srcAt == |EncodedPrefix(text, filled)|
      && eof == (filled > |text|)
    }

    ghost predicate BufferValid()
      reads this, buf
    {
      && bufPos <= ReadLimit + 1
      && bufPos <= popped
      && filled == popped + ReadBufSize - bufPos
      && Window()
      && SourceTracked()
    }

    ghost predicate Valid()
      reads this, buf
    {
      BufferValid() && pos == StreamPos(text, popped)
    }

    /** What a read cycle needs: a fresh parser, or a buffer in its usual state. */
    ghost predicate CycleReady()
      reads this, buf
    {
      && buf.Length == ReadBufSize
      && SourceTracked()
      && if popped == 0 then
           filled == 0
         else
           bufPos <= ReadBufSize && bufPos <= popped && filled == popped + ReadBufSize - bufPos && Window()
    }

    /** `new`: an empty buffer, then a first read cycle that fills all of it. */
    constructor New(source: seq<Chars.byte>, ghost t: seq<char>)
      requires source == Chars.EncodeString(t)
      ensures Valid() && fresh(buf) && src == source && text == t && popped == 0
      ensures bufPos == 0
      ensures forall j :: 0 <= j < ReadBufSize ==> buf[j] == StreamAt(t, j)
    {
      buf := new char[ReadBufSize](_ => '\0');
      bufPos, eof, pos, src, srcAt := 0, false, Start, source, 0;
      text, popped, filled := t, 0, 0;
      new;
      ReadCycle();
    }

    /**
     * `peek(d)`: the char `d` places after the next one to pop.  The source
     * panics for `d` outside 1..3 and indexes past the buffer when
     * `buf_pos + d` reaches 64.
     */
    method Peek(d: nat) returns (c: char)
      requires Valid()
      requires 1 <= d <= 3 && bufPos + d < ReadBufSize
      ensures c == StreamAt(text, popped + d)
    {
      c := buf[bufPos + d];
    }

    /** `pop`: hand out the next char, refilling the buffer first when it runs low. */
    method Pop() returns (c: char)
      requires Valid()
      modifies this, buf
      ensures Valid() && buf == old(buf)
      ensures c == old(buf[bufPos]) == StreamAt(text, old(popped))
      ensures popped == old(popped) + 1
      ensures pos == old(pos).Walk(c)
    {
      if bufPos > ReadLimit {
        RefillWindow();
      }
      c := buf[bufPos];
      bufPos := bufPos + 1;
      pos := pos.Walk(c);
      popped := popped + 1;
      assert Window();
    }

    /** The read cycle `pop` runs when the buffer runs low: the window moves, the stream stays. */
    method RefillWindow()
      requires Valid() && bufPos > ReadLimit
      modifies this`bufPos, this`srcAt, this`eof, this`filled, buf
      ensures Valid() && bufPos == 0
    {
      StreamPosBytes(text, popped);
      ReadCycle();
    }

    /**
     * `read_cycle`: move the unpopped chars to the front (skipped on the first
     * cycle, recognised by a byte offset of 0), then decode chars into the
     * rest of the buffer.
     */
    method ReadCycle()
      requires CycleReady() && (pos.byte == 0 <==> popped == 0)
      modifies this`bufPos, this`srcAt, this`eof, this`filled, buf
      ensures BufferValid() && bufPos == 0
      ensures old(popped) > 0 ==>
        forall j :: 0 <= j < ReadBufSize - old(bufPos) ==> buf[j] == old(buf[j + bufPos])
    {
      var from := Compact();
      ghost var kept := buf[..];
      FillFrom(from);
      assert forall j :: 0 <= j < from ==> buf[j] == kept[j];
    }

    /**
     * The first half of `read_cycle`: unless this is the first cycle, move
     * the unpopped chars to the front.  Returns the first slot to decode into.
     */
    method Compact() returns (from: nat)
      requires CycleReady() && (pos.byte == 0 <==> popped == 0)
      modifies buf
      ensures from == if popped == 0 then 0 else ReadBufSize - bufPos
      ensures popped > 0 ==> forall k :: 0 <= k < from ==> buf[k] == old(buf[k + bufPos])
      ensures forall k :: 0 <= k < from ==> buf[k] == StreamAt(text, popped + k)
    {
      from := 0;
      if pos.byte != 0 {
        PeekReader.MoveReserve(buf, bufPos);
        from := buf.Length - bufPos;
      }
    }

    /** The second half of `read_cycle`: decode chars into slots `from..64`. */
    method FillFrom(from: nat)
      requires buf.Length == ReadBufSize && SourceTracked()
      requires from <= ReadBufSize && filled == popped + from
      requires forall k :: 0 <= k < from ==> buf[k] == StreamAt(text, popped + k)
      modifies this`bufPos, this`srcAt, this`eof, this`filled, buf
      ensures BufferValid() && bufPos == 0
      ensures forall k :: 0 <= k < from ==> buf[k] == old(buf[k])
    {
      bufPos := 0;
      var hit;
      srcAt, hit := Refill(buf, from, src, srcAt, text, popped);
      if hit {
        eof := true;
      }
      filled := popped + ReadBufSize;
      assert Window();
    }
  }
}

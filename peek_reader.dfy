/**
 * `PeekReader` (rust/src/peek_reader.rs): decodes a UTF-8 byte source into a
 * 64-char buffer and hands the chars out one at a time, with `peek(d)` for
 * -4 <= d <= 4 around the next char.  When fewer than four chars are left
 * ahead of `buf_pos`, a read cycle moves the last four popped chars and the
 * unpopped ones to the front and decodes more chars into the rest.
 *
 * The byte source is the encoding of a ghost `text`; `popped` counts the chars
 * handed out, `filled` the chars decoded so far.
 */
module PeekReader {
  import Chars
  import opened Positions
  import opened Utf8Source

  const ReadBufSize := 64
  const PeekReserve := 4
  const ReadLimit := ReadBufSize - PeekReserve

  class PeekReader {
    var buf: array<char>
    var bufPos: nat
    var pos: Position
    const src: seq<Chars.byte>
    var srcAt: nat
    var eof: bool
    ghost const text: seq<char>
    ghost var popped: nat
    ghost var filled: nat

    /** Slot `j` holds char `popped - bufPos + j` of the stream. */
    ghost predicate Window()
      reads this, buf
    {
      && buf.Length == ReadBufSize
      && forall j :: 0 <= j < ReadBufSize ==> buf[j] == StreamAt(text, popped - bufPos + j)
    }

    /** The byte source has been read exactly up to the end of the `filled` decoded chars. */
    ghost predicate SourceTracked()
      reads this
    {
      && src == Chars.EncodeString(text)
      && srcAt == |EncodedPrefix(text, filled)|
      && eof == (filled > |text|)
    }

    /** The buffer and the byte source agree with the stream. */
    ghost predicate BufferValid()
      reads this, buf
    {
      && PeekReserve <= bufPos <= ReadLimit + 1
      && bufPos <= popped + PeekReserve
      && filled == popped + ReadBufSize - bufPos
      && Window()
      && SourceTracked()
    }

    ghost predicate Valid()
      reads this, buf
    {
      BufferValid() && pos == StreamPos(text, popped)
    }

    /**
     * What a read cycle needs, in the two situations where the source runs
     * one: the very first cycle (nothing popped, nothing decoded, the reserve
     * slots still `'\0'`), or a buffer in its usual state.
     */
    ghost predicate CycleReady()
      reads this, buf
    {
      && buf.Length == ReadBufSize
      && SourceTracked()
      && if popped == 0 then
           filled == 0 && forall j :: 0 <= j < PeekReserve ==> buf[j] == '\0'
         else
           PeekReserve <= bufPos <= ReadBufSize && filled == popped + ReadBufSize - bufPos && Window()
    }

    /** `new`: an empty buffer, then a first read cycle. */
    constructor New(source: seq<Chars.byte>, ghost t: seq<char>)
      requires source == Chars.EncodeString(t)
      ensures Valid() && fresh(buf) && src == source && text == t && popped == 0
      ensures bufPos == PeekReserve
      ensures forall j :: 0 <= j < ReadBufSize ==> buf[j] == StreamAt(t, j - PeekReserve)
    {
      buf := new char[ReadBufSize](_ => '\0');
      bufPos, eof, pos, src, srcAt := 1, false, Start, source, 0;
      text, popped, filled := t, 0, 0;
      new;
      ReadCycle();
    }

    /**
     * `peek(d)`: the char `d` places after the next one to pop (so `peek(0)`
     * is the next one and `peek(-1)` the last one popped).  The source panics
     * for `d` outside -4..4 and indexes past the buffer when `buf_pos + d`
     * reaches 64.
     */
    method Peek(d: int) returns (c: char)
      requires Valid()
      requires -PeekReserve <= d <= PeekReserve && bufPos + d < ReadBufSize
      ensures c == StreamAt(text, popped + d)
    {
      var tmp := bufPos + d;
      c := buf[tmp];
    }

    /** `pop`: hand out the next char, refilling the buffer first when it runs low. */
    method Pop() returns (c: char)
      requires Valid()
      modifies this, buf
      ensures Valid() && buf == old(buf)
      ensures c == old(buf[bufPos]) == StreamAt(text, old(popped))
      ensures popped == old(popped) + 1
      ensures pos == old(pos).Walk(c)
    {
      if bufPos > ReadLimit {
        RefillWindow();
      }
      c := buf[bufPos];
      bufPos := bufPos + 1;
      pos := pos.Walk(c);
      popped := popped + 1;
      assert Window();
    }

    /** The read cycle `pop` runs when fewer than four chars are left ahead: the window moves, the stream stays. */
    method RefillWindow()
      requires Valid() && bufPos > ReadLimit
      modifies this`bufPos, this`srcAt, this`eof, this`filled, buf
      ensures Valid() && bufPos == PeekReserve
    {
      StreamPosBytes(text, popped);
      ReadCycle();
    }

    /**
     * `read_cycle`: keep the last four popped chars and the unpopped ones,
     * moved to the front (skipped on the first cycle, recognised by a byte
     * offset of 0), then decode chars into the rest of the buffer.
     */
    method ReadCycle()
      requires CycleReady() && (pos.byte == 0 <==> popped == 0)
      modifies this`bufPos, this`srcAt, this`eof, this`filled, buf
      ensures BufferValid() && bufPos == PeekReserve
      ensures old(popped) > 0 ==>
        forall j :: 0 <= j < ReadBufSize - old(bufPos) + PeekReserve ==>
          buf[j] == old(buf[j + bufPos - PeekReserve])
    {
      var from := Compact();
      ghost var kept := buf[..];
      FillFrom(from);
      assert forall j :: 0 <= j < from ==> buf[j] == kept[j];
    }

    /**
     * The second half of `read_cycle`: decode chars into slots `from..64`,
     * with the reserve at the front of the buffer.
     */
    method FillFrom(from: nat)
      requires buf.Length == ReadBufSize && SourceTracked()
      requires PeekReserve <= from <= ReadBufSize && popped + from >= PeekReserve
      requires filled == popped - PeekReserve + from
      requires forall k :: 0 <= k < from ==> buf[k] == StreamAt(text, popped - PeekReserve + k)
      modifies this`bufPos, this`srcAt, this`eof, this`filled, buf
      ensures BufferValid() && bufPos == PeekReserve
      ensures forall k :: 0 <= k < from ==> buf[k] == old(buf[k])
    {
      bufPos := PeekReserve;
      ghost var base := popped - PeekReserve;
      var hit;
      srcAt, hit := Refill(buf, from, src, srcAt, text, base);
      if hit {
        eof := true;
      }
      filled := popped + ReadBufSize - PeekReserve;
      forall j | 0 <= j < ReadBufSize
        ensures buf[j] == StreamAt(text, base + j)
      {
      }
      assert Window();
    }

    /**
     * The first half of `read_cycle`: unless this is the first cycle, move the
     * reserve and the unpopped chars to the front.  Returns the first slot to
     * decode into.
     */
    method Compact() returns (from: nat)
      requires CycleReady() && (pos.byte == 0 <==> popped == 0)
      modifies buf
      ensures from == if popped == 0 then PeekReserve else ReadBufSize - bufPos + PeekReserve
      ensures popped > 0 ==> forall k :: 0 <= k < from ==> buf[k] == old(buf[k + bufPos - PeekReserve])
      ensures forall k :: 0 <= k < from ==> buf[k] == StreamAt(text, popped - PeekReserve + k)
    {
      from := PeekReserve;
      if pos.byte != 0 {
        MoveReserve(buf, bufPos - PeekReserve);
        from := buf.Length - bufPos + PeekReserve;
      }
    }
  }

  /**
   * The copy loop of `read_cycle` (rust/src/peek_reader.rs:60-70): move
   * `buf[from..]` to the front of the buffer, in order.
   */
  method MoveReserve(buf: array<char>, from: nat)
    requires from <= buf.Length
    modifies buf
    ensures forall k :: 0 <= k < buf.Length - from ==> buf[k] == old(buf[k + from])
    ensures forall k :: buf.Length - from <= k < buf.Length ==> buf[k] == old(buf[k])
  {
    var i := 0;
    var j := from;
    while j < buf.Length
      invariant from <= j <= buf.Length && i == j - from
      invariant forall k :: 0 <= k < i ==> buf[k] == old(buf[k + from])
      invariant forall k :: i <= k < buf.Length ==> buf[k] == old(buf[k])
    {
      buf[i] := buf[j];
      i := i + 1;
      j := j + 1;
    }
  }
}

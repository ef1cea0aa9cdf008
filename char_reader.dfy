/**
 * `CharReader` (rust/src/old2/char_reader.rs): a char reader that looks
 * ahead by keeping a small window of the source's next chars.  The window is
 * a fixed-length buffer of `Option<char>`; `None` marks the end of the source.
 * `real_pos` is the position after everything read from the source,
 * `fake_pos` the position after everything handed out by `next`.
 */
module CharReader {
  import opened Wrappers
  import opened Positions

  /** `CharPos::new(0, 0, 0)`, where a `CharReader` starts. */
  const Origin := Position(0, 0, 0)

  datatype CharAndPos = CharAndPos(ch: char, pos: Position)

  function Min(a: nat, b: nat): nat { if a < b then a else b }

  /** What the source's char iterator yields on its `i`-th call. */
  function Get(src: seq<char>, i: nat): Option<char>
  {
    if i < |src| then Some(src[i]) else None
  }

  /** The position after the first `n` results of the iterator. */
  function PosAfter(src: seq<char>, n: nat): Position
  {
    WalkAll(Origin, src[..Min(n, |src|)])
  }

  /** One more call of the iterator walks the position over what it yields. */
  lemma PosAfterStep(src: seq<char>, n: nat)
    ensures PosAfter(src, n + 1) == PosAfter(src, n).WalkOpt(Get(src, n))
  {
    if n < |src| {
      assert src[..n + 1][..n] == src[..n];
    }
  }

  class CharReader {
    const src: seq<char>
    /** The iterator's place in `src`. */
    var iterAt: nat
    var realPos: Position
    var fakePos: Position
    var buffer: array<Option<char>>
    /** How many times `Next` has been called. */
    ghost var taken: nat

    ghost predicate Valid()
      reads this, buffer
    {
      && iterAt == Min(taken + buffer.Length, |src|)
      && (forall j :: 0 <= j < buffer.Length ==> buffer[j] == Get(src, taken + j))
      && realPos == PosAfter(src, taken + buffer.Length)
      && fakePos == PosAfter(src, taken)
    }

    /** `new`: a reader with the default window of three chars. */
    constructor New(s: seq<char>)
      ensures Valid() && fresh(buffer) && src == s && taken == 0 && buffer.Length == 3
    {
      src, iterAt, realPos, fakePos, taken := s, 0, Origin, Origin, 0;
      buffer := new Option<char>[3];
      new;
      Fill();
    }

    /** `new2`: a reader whose window holds `bufferSize` chars. */
    constructor New2(s: seq<char>, bufferSize: nat)
      ensures Valid() && fresh(buffer) && src == s && taken == 0
      ensures buffer.Length == bufferSize
      ensures forall j :: 0 <= j < bufferSize ==> buffer[j] == Get(s, j)
      ensures realPos == WalkAll(Origin, s[..Min(bufferSize, |s|)])
    {
      src, iterAt, realPos, fakePos, taken := s, 0, Origin, Origin, 0;
      buffer := new Option<char>[bufferSize];
      new;
      Fill();
    }

    /** The loop of `new2`: read one char per buffer slot, walking `real_pos`. */
    method Fill()
      requires iterAt == 0 && realPos == Origin && fakePos == Origin && taken == 0
      modifies this`iterAt, this`realPos, buffer
      ensures Valid()
    {
      var len := 0;
      while len < buffer.Length
        invariant 0 <= len <= buffer.Length
        invariant iterAt == Min(len, |src|)
        invariant forall j :: 0 <= j < len ==> buffer[j] == Get(src, j)
        invariant realPos == PosAfter(src, len)
      {
        var c := IterNext();
        buffer[len] := c;
        PosAfterStep(src, len);
        realPos := realPos.WalkOpt(c);
        len := len + 1;
      }
    }

    /** `src_iter.next()`: the next char of the source, or None once it is exhausted. */
    method IterNext() returns (c: Option<char>)
      requires iterAt <= |src|
      modifies this`iterAt
      ensures c == Get(src, old(iterAt))
      ensures iterAt == Min(old(iterAt) + 1, |src|)
    {
      if iterAt < |src| {
        c := Some(src[iterAt]);
        iterAt := iterAt + 1;
      } else {
        c := None;
      }
    }

    /** `real_next`: shift the window left by one and read the next source char into its last slot. */
    method RealNext()
      requires buffer.Length >= 1 && iterAt <= |src|
      modifies this`iterAt, this`realPos, buffer
      ensures buffer[..] == old(buffer[1..]) + [Get(src, old(iterAt))]
      ensures iterAt == Min(old(iterAt) + 1, |src|)
      ensures realPos == old(realPos).WalkOpt(Get(src, old(iterAt)))
    {
      var i := 0;
      while i < buffer.Length - 1
        invariant 0 <= i <= buffer.Length - 1
        invariant forall j :: 0 <= j < i ==> buffer[j] == old(buffer[j + 1])
        invariant forall j :: i <= j < buffer.Length ==> buffer[j] == old(buffer[j])
        modifies buffer
      {
        buffer[i] := buffer[i + 1];
        i := i + 1;
      }
      var c := IterNext();
      buffer[buffer.Length - 1] := c;
      realPos := realPos.WalkOpt(c);
    }

    /**
     * `next`: hand out the first char of the window with the position just
     * after it; None once the source is exhausted, on every later call too.
     */
    method Next() returns (r: Option<CharAndPos>)
      requires Valid() && buffer.Length >= 1
      modifies this, buffer
      ensures Valid() && buffer == old(buffer) && taken == old(taken) + 1
      ensures r.Some? <==> old(taken) < |src|
      ensures r.Some? ==> r.value == CharAndPos(src[old(taken)], PosAfter(src, old(taken) + 1))
      ensures fakePos == old(fakePos).WalkOpt(old(buffer[0]))
      ensures buffer[..] == old(buffer[1..]) + [Get(src, old(taken) + buffer.Length)]
    {
      var c := buffer[0];
      ghost var before := buffer[..];
      PosAfterStep(src, taken);
      assert c == Get(src, taken);
      fakePos := fakePos.WalkOpt(c);
      assert fakePos == PosAfter(src, taken + 1);
      PosAfterStep(src, taken + buffer.Length);
      assert Get(src, iterAt) == Get(src, taken + buffer.Length);
      assert realPos.WalkOpt(Get(src, iterAt)) == PosAfter(src, taken + buffer.Length + 1);
      RealNext();
      assert realPos == PosAfter(src, taken + 1 + buffer.Length);
      taken := taken + 1;
      forall j | 0 <= j < buffer.Length
        ensures buffer[j] == Get(src, taken + j)
      {
        if j < buffer.Length - 1 {
          assert buffer[j] == before[j + 1];
        }
      }
      match c {
        case Some(ch) => r := Some(CharAndPos(ch, fakePos));
        case None => r := None;
      }
    }

    /**
     * `peek(n)`: the char `n` places ahead of the next one to be handed out,
     * with the position where it starts; the reader does not change.
     */
    method Peek(n: nat) returns (r: Option<CharAndPos>)
      requires Valid() && n < buffer.Length
      ensures r.Some? <==> taken + n < |src|
      ensures r.Some? ==> r.value == CharAndPos(src[taken + n], PosAfter(src, taken + n))
    {
      var pos := fakePos;
      var i := 0;
      while i < n
        invariant 0 <= i <= n
        invariant pos == PosAfter(src, taken + i)
      {
        PosAfterStep(src, taken + i);
        pos := pos.WalkOpt(buffer[i]);
        i := i + 1;
      }
      match buffer[n] {
        case Some(c) => r := Some(CharAndPos(c, pos));
        case None => r := None;
      }
    }
  }
}

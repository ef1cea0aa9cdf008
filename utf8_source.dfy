/**
 * The byte source behind the buffered readers of rust/src/peek_reader.rs and
 * rust/src/raw_parser.rs, and the one step their read cycles repeat: read a
 * lead byte, read the continuation bytes it announces, decode.
 *
 * The source is the UTF-8 form of a (ghost) text.  Past its end the readers
 * decode a NUL byte for every slot, so what they deliver is the text followed
 * by `'\0'` forever; `StreamAt` is that padded stream, `'\0'` also before the
 * start (the readers' buffers start out filled with `'\0'`).
 */
module Utf8Source {
  import Chars
  import opened Wrappers
  import opened Positions

  function Min(a: nat, b: nat): nat { if a < b then a else b }

  /** The `k`-th char delivered from `text`: `'\0'` outside the text. */
  function StreamAt(text: seq<char>, k: int): char
  {
    if 0 <= k < |text| then text[k] else '\0'
  }

  /** The first `n` chars delivered from `text`. */
  function Stream(text: seq<char>, n: nat): (s: seq<char>)
    ensures |s| == n && forall i :: 0 <= i < n ==> s[i] == StreamAt(text, i)
  {
    seq(n, i => StreamAt(text, i))
  }

  /** Delivering one more char extends the stream by it. */
  lemma StreamStep(text: seq<char>, n: nat)
    ensures Stream(text, n + 1) == Stream(text, n) + [StreamAt(text, n)]
  {
  }

  /** The bytes consumed once `n` chars have been decoded. */
  function EncodedPrefix(text: seq<char>, n: nat): seq<Chars.byte>
  {
    Chars.EncodeString(text[..Min(n, |text|)])
  }

  /** Where the bytes of char `k` sit in the source. */
  lemma EncodedPrefixStep(text: seq<char>, k: nat)
    ensures k < |text| ==>
      && EncodedPrefix(text, k + 1) == EncodedPrefix(text, k) + Chars.Utf8Encode(text[k])
      && Chars.EncodeString(text)
         == EncodedPrefix(text, k) + Chars.Utf8Encode(text[k]) + Chars.EncodeString(text[k + 1..])
    ensures k >= |text| ==>
      EncodedPrefix(text, k + 1) == EncodedPrefix(text, k) == Chars.EncodeString(text)
  {
    if k < |text| {
      EncodedPrefixInside(text, k);
    } else {
      assert text[..|text|] == text;
    }
  }

  lemma EncodedPrefixInside(text: seq<char>, k: nat)
    requires k < |text|
    ensures EncodedPrefix(text, k + 1) == EncodedPrefix(text, k) + Chars.Utf8Encode(text[k])
    ensures Chars.EncodeString(text) == EncodedPrefix(text, k) + Chars.Utf8Encode(text[k]) + Chars.EncodeString(text[k + 1..])
  {
    var a := text[..k + 1];
    assert EncodedPrefix(text, k) == Chars.EncodeString(text[..k]);
    assert EncodedPrefix(text, k + 1) == Chars.EncodeString(a);
    assert a[..|a| - 1] == text[..k] && a[|a| - 1] == text[k];
    Chars.EncodeStringAt(text, k);
  }

  /** A NUL lead byte decodes to `'\0'` whatever the other scratch bytes hold. */
  lemma DecodeNul(scratch: seq<Chars.byte>)
    requires |scratch| == 4 && scratch[0] == 0
    ensures Chars.CharSize(0) == Ok(1)
    ensures Chars.ReadSingleChar(scratch) == Returns(('\0', 1))
  {
  }

  /** The bytes that the `k`-th slot reads, as seen from the source. */
  lemma SlotBytes(text: seq<char>, k: nat)
    ensures var p := |EncodedPrefix(text, k)|;
      && (k < |text| <==> p < |Chars.EncodeString(text)|)
      && (k < |text| ==>
            && p + |Chars.Utf8Encode(text[k])| <= |Chars.EncodeString(text)|
            && |EncodedPrefix(text, k + 1)| == p + |Chars.Utf8Encode(text[k])|
            && forall i :: 0 <= i < |Chars.Utf8Encode(text[k])| ==>
                 Chars.EncodeString(text)[p + i] == Chars.Utf8Encode(text[k])[i])
      && (k >= |text| ==> |EncodedPrefix(text, k + 1)| == p)
  {
    EncodedPrefixStep(text, k);
  }

  /** A scratch buffer that starts with the encoding of `c` decodes to `c`. */
  lemma DecodeScratch(scratch: seq<Chars.byte>, c: char)
    requires |scratch| == 4
    requires forall i :: 0 <= i < |Chars.Utf8Encode(c)| ==> scratch[i] == Chars.Utf8Encode(c)[i]
    ensures Chars.ReadSingleChar(scratch) == Returns((c, Chars.Utf8Len(c)))
  {
    var n := |Chars.Utf8Encode(c)|;
    assert scratch[..n] == Chars.Utf8Encode(c);
    assert scratch == scratch[..n] + scratch[n..];
    Chars.ReadSingleCharEncoded(c, scratch[n..]);
  }

  /**
   * One slot of a read cycle (rust/src/peek_reader.rs:80-95): read a lead
   * byte, or note the end of input and use a NUL byte; read as many more bytes
   * as the lead byte announces into the four-byte scratch buffer; decode it.
   * Reading the `k`-th char of the stream, it delivers `StreamAt(text, k)`.
   */
  method ReadChar(src: seq<Chars.byte>, at: nat, scratch: seq<Chars.byte>,
                  ghost text: seq<char>, ghost k: nat)
    returns (c: char, next: nat, scratch': seq<Chars.byte>, hitEof: bool)
    requires src == Chars.EncodeString(text) && |scratch| == 4
    requires at == |EncodedPrefix(text, k)|
    ensures c == StreamAt(text, k)
    ensures hitEof <==> k >= |text|
    ensures next == |EncodedPrefix(text, k + 1)| && |scratch'| == 4
  {
    SlotBytes(text, k);
    var lead: Chars.byte;
    if at < |src| {
      lead, next, hitEof := src[at], at + 1, false;
    } else {
      lead, next, hitEof := 0, at, true;
    }
    scratch' := scratch[0 := lead];
    if hitEof {
      DecodeNul(scratch');
      var r := Chars.ReadSingleChar(scratch');
      c := r.value.0;
      return;
    }
    ghost var e := Chars.Utf8Encode(text[k]);
    Chars.EncodedLeadSize(text[k]);
    var size := Chars.CharSize(lead).value;
    var j := 1;
    while j < size
      invariant 1 <= j <= size == |e|
      invariant next == at + j
      invariant |scratch'| == 4
      invariant forall i :: 0 <= i < j ==> scratch'[i] == e[i]
    {
      scratch' := scratch'[j := src[next]];
      next := next + 1;
      j := j + 1;
    }
    DecodeScratch(scratch', text[k]);
    var r := Chars.ReadSingleChar(scratch');
    c := r.value.0;
  }

  /**
   * The fill loop of a read cycle (rust/src/peek_reader.rs:77-97,
   * rust/src/raw_parser.rs:99-119): decode one char into every slot from
   * `from` to the end of `buf`.  Slot `j` receives char `base + j` of the
   * stream; the slots before `from` are kept.
   */
  method Refill(buf: array<char>, from: nat, src: seq<Chars.byte>, at: nat,
                ghost text: seq<char>, ghost base: int)
    returns (next: nat, hitEof: bool)
    requires src == Chars.EncodeString(text) && from <= buf.Length && 0 <= base + from
    requires at == |EncodedPrefix(text, base + from)|
    modifies buf
    ensures forall j :: 0 <= j < from ==> buf[j] == old(buf[j])
    ensures forall j :: from <= j < buf.Length ==> buf[j] == StreamAt(text, base + j)
    ensures next == |EncodedPrefix(text, base + buf.Length)|
    ensures hitEof <==> from < buf.Length && base + buf.Length > |text|
  {
    var i := from;
    var scratch: seq<Chars.byte> := [0, 0, 0, 0];
    next, hitEof := at, false;
    while i < buf.Length
      invariant from <= i <= buf.Length && |scratch| == 4
      invariant next == |EncodedPrefix(text, base + i)|
      invariant forall j :: 0 <= j < from ==> buf[j] == old(buf[j])
      invariant forall j :: from <= j < i ==> buf[j] == StreamAt(text, base + j)
      invariant hitEof <==> from < i && base + i > |text|
    {
      var c, hit;
      c, next, scratch, hit := ReadChar(src, next, scratch, text, base + i);
      hitEof := hitEof || hit;
      buf[i] := c;
      i := i + 1;
    }
  }

  /** The position after the first `n` chars of the stream, starting from `Start`. */
  function StreamPos(text: seq<char>, n: nat): Position
  {
    if n == 0 then Start else StreamPos(text, n - 1).Walk(StreamAt(text, n - 1))
  }

  /** `StreamPos` is `Start` walked over the first `n` chars of the stream. */
  lemma {:induction false} StreamPosIsWalk(text: seq<char>, n: nat)
    ensures StreamPos(text, n) == WalkAll(Start, Stream(text, n))
  {
    if n > 0 {
      StreamPosIsWalk(text, n - 1);
      assert Stream(text, n)[..n - 1] == Stream(text, n - 1);
    }
  }

  /** Every char takes at least one byte, so the byte offset bounds the chars read. */
  lemma {:induction false} StreamPosBytes(text: seq<char>, n: nat)
    ensures StreamPos(text, n).byte >= n
  {
    if n > 0 {
      StreamPosBytes(text, n - 1);
    }
  }

  /** The position depends only on the first `n` chars of the stream. */
  lemma {:induction false} StreamPosAgree(a: seq<char>, b: seq<char>, n: nat)
    requires forall k :: 0 <= k < n ==> StreamAt(a, k) == StreamAt(b, k)
    ensures StreamPos(a, n) == StreamPos(b, n)
  {
    if n > 0 {
      StreamPosAgree(a, b, n - 1);
    }
  }
}

/**
 * Character classification and UTF-8 decoding of one scalar value
 * (rust/src/chars.rs) and its panicking twin (rust/src/hacks.rs).
 *
 * The source tests lead bytes with bit masks and assembles the scalar with
 * shifts and ors.  Here a byte is a number 0..255 and the same operations are
 * written arithmetically: `b & 0x3f` is `b % 64`, `x << n` is `x * 2^n`, and an
 * `|` of values whose bits do not overlap is `+`.  `MaskTests` checks the
 * lead-byte tests against their bit-vector forms.
 */
module Chars {
  import opened Wrappers

  newtype byte = b: int | 0 <= b < 0x100

  /** `CharErrorEnum`: the ways a decode can fail. */
  datatype CharError =
    | InvalidFirstByte(first: byte)
    | ScalarTooLarge(value: int)
    | SurrogateInUtf8(value: int)
    | SliceTooShort(needed: nat, slice: seq<byte>)

  /** The characters that CPTML reserves as markup. */
  predicate IsReservedChar(c: char)
    ensures IsReservedChar(c) <==> c in "<>{}\\|"
  {
    c == '<' || c == '>' || c == '{' || c == '}' || c == '\\' || c == '|'
  }

  /** A Unicode scalar value: a code point that is not a surrogate. */
  predicate IsScalar(v: int)
  {
    0 <= v <= 0x10FFFF && !(0xD800 <= v <= 0xDFFF)
  }

  /** Every Dafny `char` is a Unicode scalar value. */
  lemma CharIsScalar(c: char)
    ensures IsScalar(c as int)
  {
  }

  /** `u32_to_char`: a `u32` becomes a char when it is a scalar value. */
  function U32ToChar(v: int): (r: Result<char, CharError>)
    requires 0 <= v < 0x1_0000_0000
    ensures r == Err(ScalarTooLarge(v)) <==> v > 0x10FFFF
    ensures r == Err(SurrogateInUtf8(v)) <==> 0xD800 <= v <= 0xDFFF
    ensures r.Ok? <==> IsScalar(v)
    ensures r.Ok? ==> r.value as int == v
  {
    if v > 0x10FFFF then Err(ScalarTooLarge(v))
    else if 0xD800 <= v && v <= 0xDFFF then Err(SurrogateInUtf8(v))
    else Ok(v as char)
  }

  // The lead-byte tests of the source, `(v0 & 0xe0) == 0xc0` and so on.
  predicate IsLead2(b: byte) { b / 32 == 6 }
  predicate IsLead3(b: byte) { b / 16 == 14 }
  predicate IsLead4(b: byte) { b / 8 == 30 && b <= 0xF4 }

  /** The arithmetic lead-byte tests are the source's mask tests. */
  lemma MaskTests(b: byte)
    ensures IsLead2(b) <==> (b as bv8) & 0xE0 == 0xC0
    ensures IsLead3(b) <==> (b as bv8) & 0xF0 == 0xE0
    ensures IsLead4(b) <==> (b as bv8) & 0xF8 == 0xF0 && b <= 0xF4
  {
  }

  /** The payload bits of a `size`-byte sequence, assembled as the source does. */
  function Assemble(v: seq<byte>, size: nat): int
    requires 1 <= size <= 4 <= |v| || 1 <= size <= |v|
  {
    if size == 1 then v[0] as int
    else if size == 2 then (v[0] as int % 32) * 64 + v[1] as int % 64
    else if size == 3 then (v[0] as int % 16) * 4096 + (v[1] as int % 64) * 64 + v[2] as int % 64
    else (v[0] as int % 8) * 262144 + (v[1] as int % 64) * 4096 + (v[2] as int % 64) * 64 + v[3] as int % 64
  }

  /** `char_size`: the length of a sequence, read from its lead byte alone. */
  function CharSize(b: byte): (r: Result<nat, CharError>)
    ensures r.Ok? ==> 1 <= r.value <= 4
    ensures r.Err? ==> r.error == InvalidFirstByte(b)
    ensures r == Ok(1) <==> b < 0x80
    ensures r == Ok(2) <==> 0xC0 <= b <= 0xDF
    ensures r == Ok(3) <==> 0xE0 <= b <= 0xEF
    ensures r == Ok(4) <==> 0xF0 <= b <= 0xF4
  {
    if b < 0x80 then Ok(1)
    else if IsLead2(b) then Ok(2)
    else if IsLead3(b) then Ok(3)
    else if IsLead4(b) then Ok(4)
    else Err(InvalidFirstByte(b))
  }

  /** `bytes_to_char`: decode the scalar at the front of `v`, with its size. */
  function BytesToChar(v: seq<byte>): (r: Result<(char, nat), CharError>)
    ensures |v| == 0 ==> r == Err(SliceTooShort(1, v))
    ensures |v| > 0 && CharSize(v[0]).Err? ==> r == Err(InvalidFirstByte(v[0]))
    ensures |v| > 0 && CharSize(v[0]).Ok? && |v| < CharSize(v[0]).value
            ==> r == Err(SliceTooShort(CharSize(v[0]).value, v))
    ensures |v| > 0 && CharSize(v[0]).Ok? && CharSize(v[0]).value <= |v| ==>
              var ans := Assemble(v, CharSize(v[0]).value);
              && (r == Err(ScalarTooLarge(ans)) <==> ans > 0x10FFFF)
              && (r == Err(SurrogateInUtf8(ans)) <==> 0xD800 <= ans <= 0xDFFF)
    ensures r.Ok? ==> |v| > 0 && CharSize(v[0]) == Ok(r.value.1) && r.value.1 <= |v|
    ensures r.Ok? ==> r.value.0 as int == Assemble(v, r.value.1)
  {
    if |v| < 1 then Err(SliceTooShort(1, v))
    else
      var size :=
        if v[0] < 0x80 then 1
        else if IsLead2(v[0]) then 2
        else if IsLead3(v[0]) then 3
        else if IsLead4(v[0]) then 4
        else 0;
      if size == 0 then Err(InvalidFirstByte(v[0]))
      else if |v| < size then Err(SliceTooShort(size, v))
      else
        var ans := Assemble(v, size);
        if ans > 0x10FFFF then Err(ScalarTooLarge(ans))
        else if 0xD800 <= ans && ans <= 0xDFFF then Err(SurrogateInUtf8(ans))
        else Ok((ans as char, size))
  }

  /** Bytes after the decoded size never change what `BytesToChar` returns. */
  lemma BytesToCharIgnoresTail(v: seq<byte>, w: seq<byte>, n: nat)
    requires |v| > 0 && CharSize(v[0]) == Ok(n) && n <= |v| && n <= |w|
    requires v[..n] == w[..n]
    ensures BytesToChar(v) == BytesToChar(w)
  {
    assert v[0] == v[..n][0] == w[0];
    assert forall k :: 0 <= k < n ==> v[k] == v[..n][k] == w[k];
  }

  /** The number of bytes in the UTF-8 form of `c` (Rust's `char::len_utf8`). */
  function Utf8Len(c: char): (n: nat)
    ensures 1 <= n <= 4
  {
    if c as int < 0x80 then 1
    else if c as int < 0x800 then 2
    else if c as int < 0x10000 then 3
    else 4
  }

  /** The UTF-8 form of a scalar value, after section 3 of RFC 3629. */
  function Utf8Encode(c: char): (e: seq<byte>)
    ensures |e| == Utf8Len(c)
  {
    var v := c as int;
    if v < 0x80 then [v as byte]
    else if v < 0x800 then
      [(0xC0 + v / 64) as byte, (0x80 + v % 64) as byte]
    else if v < 0x10000 then
      [(0xE0 + v / 4096) as byte, (0x80 + v / 64 % 64) as byte, (0x80 + v % 64) as byte]
    else
      [(0xF0 + v / 262144) as byte, (0x80 + v / 4096 % 64) as byte,
       (0x80 + v / 64 % 64) as byte, (0x80 + v % 64) as byte]
  }

  lemma Reassemble2(v: int)
    requires 0x80 <= v < 0x800
    ensures ((0xC0 + v / 64) % 32) * 64 + (0x80 + v % 64) % 64 == v
  {
  }

  lemma Reassemble3(v: int)
    requires 0x800 <= v < 0x10000
    ensures ((0xE0 + v / 4096) % 16) * 4096 + ((0x80 + v / 64 % 64) % 64) * 64 + (0x80 + v % 64) % 64 == v
  {
    var q1, q2 := v / 64, v / 4096;
    assert q1 / 64 == q2;
    assert v == q1 * 64 + v % 64;
    assert q1 == q2 * 64 + q1 % 64;
    assert (0xE0 + q2) % 16 == q2;
  }

  lemma Reassemble4(v: int)
    requires 0x10000 <= v < 0x110000
    ensures ((0xF0 + v / 262144) % 8) * 262144 + ((0x80 + v / 4096 % 64) % 64) * 4096
            + ((0x80 + v / 64 % 64) % 64) * 64 + (0x80 + v % 64) % 64 == v
  {
    var q1, q2 := v / 64, v / 4096;
    assert q1 / 64 == q2;
    assert q2 / 64 == v / 262144;
    assert v == q1 * 64 + v % 64;
    assert q1 == q2 * 64 + q1 % 64;
    assert q2 == (v / 262144) * 64 + q2 % 64;
  }

  /** Decoding the RFC 3629 form of a scalar, whatever follows it, gives the scalar back. */
  lemma {:induction false} DecodeEncoded(c: char, rest: seq<byte>)
    ensures BytesToChar(Utf8Encode(c) + rest) == Ok((c, Utf8Len(c)))
  {
    var v := c as int;
    var s := Utf8Encode(c) + rest;
    if v < 0x80 {
    } else if v < 0x800 {
      Reassemble2(v);
      assert Assemble(s, 2) == v;
    } else if v < 0x10000 {
      Reassemble3(v);
      assert Assemble(s, 3) == v;
    } else {
      Reassemble4(v);
      assert Assemble(s, 4) == v;
    }
  }

  /** The lead byte of an encoded scalar announces the encoded length. */
  lemma EncodedLeadSize(c: char)
    ensures CharSize(Utf8Encode(c)[0]) == Ok(Utf8Len(c))
  {
    DecodeEncoded(c, []);
    assert Utf8Encode(c) + [] == Utf8Encode(c);
  }

  /**
   * `read_single_char`: the same decode on a slice of at least four bytes,
   * panicking where `bytes_to_char` returns an error.
   */
  function ReadSingleChar(v: seq<byte>): (r: Completion<(char, nat)>)
    requires |v| >= 4
    ensures r.Panics? <==> BytesToChar(v).Err?
    ensures r.Returns? ==> BytesToChar(v) == Ok(r.value)
  {
    var size :=
      if v[0] < 0x80 then 1
      else if IsLead2(v[0]) then 2
      else if IsLead3(v[0]) then 3
      else if IsLead4(v[0]) then 4
      else 0;
    if size == 0 then Panics("invalid UTF-8 'first' byte")
    else
      var ans := Assemble(v, size);
      if ans > 0x10FFFF then Panics("invalid Unicode scalar (too large)")
      else if 0xD800 <= ans && ans <= 0xDFFF then Panics("invalid Unicode scalar (surrogate in UTF-8)")
      else Returns((ans as char, size))
  }

  /** The panicking decoder reads back any encoded scalar padded to four bytes. */
  lemma {:induction false} ReadSingleCharEncoded(c: char, pad: seq<byte>)
    requires |Utf8Encode(c)| + |pad| >= 4
    ensures ReadSingleChar(Utf8Encode(c) + pad) == Returns((c, Utf8Len(c)))
  {
    DecodeEncoded(c, pad);
  }

  /** The UTF-8 form of a whole string: the forms of its chars, in order. */
  function EncodeString(s: seq<char>): seq<byte>
  {
    if s == [] then [] else EncodeString(s[..|s| - 1]) + Utf8Encode(s[|s| - 1])
  }

  /** Encoding distributes over concatenation. */
  lemma {:induction false} EncodeStringAppend(a: seq<char>, b: seq<char>)
    ensures EncodeString(a + b) == EncodeString(a) + EncodeString(b)
    decreases |b|
  {
    if b != [] {
      var b' := b[..|b| - 1];
      assert (a + b)[..|a + b| - 1] == a + b';
      EncodeStringAppend(a, b');
    } else {
      assert a + b == a;
    }
  }

  /**
   * In the encoding of `s`, the bytes of `s[k]` start right after the
   * encoding of the chars before it.
   */
  lemma {:induction false} EncodeStringAt(s: seq<char>, k: nat)
    requires k < |s|
    ensures EncodeString(s) == EncodeString(s[..k]) + Utf8Encode(s[k]) + EncodeString(s[k + 1..])
  {
    var a, b := s[..k + 1], s[k + 1..];
    assert s == a + b;
    EncodeStringAppend(a, b);
    assert a[..|a| - 1] == s[..k];
  }
}

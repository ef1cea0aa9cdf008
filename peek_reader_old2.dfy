/**
 * The second draft's `PeekReader` (rust/src/old2/peek_reader.rs).  It keeps the
 * 64-char buffer of the first draft, but every operation returns a `Result`:
 * the byte source may hold any bytes, and a bad lead byte, a scalar out of
 * range or a sequence cut off by the end of input is reported as a
 * `CharError`.  Peeks are numbered from the last popped char: `peek(0)` is
 * that char and `peek(1)` the next one to pop.
 *
 * `ReadOne` is one slot of a read cycle, error payload included (the four-byte
 * scratch buffer is fresh at every cycle, so a `SliceTooShort` carries bytes
 * left over from earlier slots of the same cycle).  `Decoding` is the stream
 * of chars the source yields from its start, which does not depend on that
 * scratch buffer.
 */
module ResultPeekReader {
  import opened Wrappers
  import Chars
  import opened Positions
  import opened Prelude
  import opened Utf8Source
  import FirstDraft = PeekReader

  const ReadBufSize := 64
  const PeekReserve := 4
  const ReadLimit := ReadBufSize - PeekReserve

  const FreshScratch: seq<Chars.byte> := [0, 0, 0, 0]

  /** The `n` bytes of `src` from offset `from` written over the scratch buffer from index 1 on. */
  function Overlay(scratch: seq<Chars.byte>, src: seq<Chars.byte>, from: nat, n: nat): (r: seq<Chars.byte>)
    requires |scratch| == 4 && n <= 3 && from + n <= |src|
    ensures |r| == 4 && r[0] == scratch[0]
  {
    [ scratch[0],
      if n >= 1 then src[from] else scratch[1],
      if n >= 2 then src[from + 1] else scratch[2],
      if n >= 3 then src[from + 2] else scratch[3] ]
  }

  /** One decoded slot: the char, the next byte offset, the scratch buffer, whether the input had ended. */
  datatype Slot = Slot(c: char, next: nat, scratch: seq<Chars.byte>, hitEof: bool)

  /**
   * One slot of `read_cycle` (rust/src/old2/peek_reader.rs:92-118) at byte
   * offset `at`: a missing lead byte is read as NUL, a missing continuation
   * byte is `SliceTooShort` carrying the scratch buffer as it then stands.
   */
  function ReadOne(src: seq<Chars.byte>, at: nat, scratch: seq<Chars.byte>): (r: Result<Slot, AnyError>)
    requires |scratch| == 4 && at <= |src|
    ensures r.Ok? ==> at <= r.value.next <= |src| && |r.value.scratch| == 4
  {
    var lead: Chars.byte := if at < |src| then src[at] else 0;
    var after := if at < |src| then at + 1 else at;
    var sc := scratch[0 := lead];
    match Chars.CharSize(lead)
    case Err(e) => Err(CharError(e))
    case Ok(size) =>
      if after + (size - 1) > |src| then
        Err(CharError(Chars.SliceTooShort(size, Overlay(sc, src, after, |src| - after))))
      else
        var full := Overlay(sc, src, after, size - 1);
        match Chars.BytesToChar(full)
        case Err(e) => Err(CharError(e))
        case Ok(d) => Ok(Slot(d.0, after + (size - 1), full, at == |src|))
  }

  /** A lead byte that starts no UTF-8 sequence is reported as such. */
  lemma ReadOneBadLead(src: seq<Chars.byte>, at: nat, scratch: seq<Chars.byte>)
    requires |scratch| == 4 && at < |src| && Chars.CharSize(src[at]).Err?
    ensures ReadOne(src, at, scratch) == Err(CharError(Chars.InvalidFirstByte(src[at])))
  {
  }

  /** A sequence cut off by the end of input is `SliceTooShort` of the size its lead byte announces. */
  lemma ReadOneTruncated(src: seq<Chars.byte>, at: nat, scratch: seq<Chars.byte>)
    requires |scratch| == 4 && at < |src|
    requires Chars.CharSize(src[at]).Ok? && at + Chars.CharSize(src[at]).value > |src|
    ensures ReadOne(src, at, scratch).Err?
    ensures var e := ReadOne(src, at, scratch).error;
      e.CharError? && e.charError.SliceTooShort? && e.charError.needed == Chars.CharSize(src[at]).value
      && e.charError.slice[0] == src[at]
      && forall i :: at < i < |src| ==> e.charError.slice[i - at] == src[i]
  {
  }

  /** At the end of input every slot is `'\0'`, and the offset stays put. */
  lemma ReadOneAtEnd(src: seq<Chars.byte>, scratch: seq<Chars.byte>)
    requires |scratch| == 4
    ensures ReadOne(src, |src|, scratch).Ok?
    ensures var s := ReadOne(src, |src|, scratch).value;
      s.c == '\0' && s.next == |src| && s.hitEof
  {
    var sc := scratch[0 := 0];
    assert Overlay(sc, src, |src|, 0) == sc;
    assert Chars.BytesToChar(sc) == Ok(('\0', 1));
  }

  /** The UTF-8 form of a char decodes to that char, whatever follows it. */
  lemma ReadOneEncoded(src: seq<Chars.byte>, at: nat, scratch: seq<Chars.byte>, c: char)
    requires |scratch| == 4 && at + Chars.Utf8Len(c) <= |src|
    requires src[at..at + Chars.Utf8Len(c)] == Chars.Utf8Encode(c)
    ensures ReadOne(src, at, scratch).Ok?
    ensures var s := ReadOne(src, at, scratch).value;
      s.c == c && s.next == at + Chars.Utf8Len(c) && !s.hitEof
  {
    var e := Chars.Utf8Encode(c);
    var n := Chars.Utf8Len(c);
    Chars.EncodedLeadSize(c);
    assert src[at] == e[0];
    var full := Overlay(scratch[0 := src[at]], src, at + 1, n - 1);
    assert full[..n] == e by {
      forall i | 0 < i < n
        ensures full[i] == e[i]
      {
        assert full[i] == src[at + i];
      }
    }
    Chars.DecodeEncoded(c, full[n..]);
    assert full == e + full[n..];
  }

  /** Only the error payload of a slot depends on what the scratch buffer held before. */
  lemma ReadOneScratch(src: seq<Chars.byte>, at: nat, s1: seq<Chars.byte>, s2: seq<Chars.byte>)
    requires |s1| == 4 && |s2| == 4 && at <= |src|
    ensures ReadOne(src, at, s1).Ok? <==> ReadOne(src, at, s2).Ok?
    ensures ReadOne(src, at, s1).Ok? ==>
      var a, b := ReadOne(src, at, s1).value, ReadOne(src, at, s2).value;
      a.c == b.c && a.next == b.next && a.hitEof == b.hitEof
  {
    var lead: Chars.byte := if at < |src| then src[at] else 0;
    var after := if at < |src| then at + 1 else at;
    if Chars.CharSize(lead).Ok? {
      var size := Chars.CharSize(lead).value;
      if after + (size - 1) <= |src| {
        var f1 := Overlay(s1[0 := lead], src, after, size - 1);
        var f2 := Overlay(s2[0 := lead], src, after, size - 1);
        assert f1[..size] == f2[..size] by {
          forall i | 0 <= i < size
            ensures f1[i] == f2[i]
          {
          }
        }
        Chars.BytesToCharIgnoresTail(f1, f2, size);
      }
    }
  }

  /**
   * A slot decoder: what a read cycle gets for one slot, given the byte offset
   * and the scratch buffer.  `SourceSlot(src)` is the reader's own; the
   * lemmas below about runs of slots hold for any decoder with the stated
   * properties.
   */
  type SlotReader = (nat, seq<Chars.byte>) -> Result<Slot, AnyError>

  function SourceSlot(src: seq<Chars.byte>): SlotReader
  {
    (at: nat, scratch: seq<Chars.byte>) =>
      if at <= |src| && |scratch| == 4 then ReadOne(src, at, scratch) else Err(EndOfInput)
  }

  /**
   * `slot` is the decoder of `src`.  Stated pointwise, so that a proof that
   * knows it meets the decoder's definition only at the offsets it reads.
   */
  ghost predicate Link(slot: SlotReader, src: seq<Chars.byte>)
  {
    && (forall at: nat, scratch: seq<Chars.byte> {:trigger ReadOne(src, at, scratch)} ::
          at <= |src| && |scratch| == 4 ==> slot(at, scratch) == ReadOne(src, at, scratch))
    && (forall at: nat, scratch: seq<Chars.byte> {:trigger slot(at, scratch)} ::
          !(at <= |src| && |scratch| == 4) ==> slot(at, scratch) == Err(EndOfInput))
  }

  lemma SourceLink(src: seq<Chars.byte>)
    ensures Link(SourceSlot(src), src)
  {
  }

  /** Chars decoded so far, the byte offset reached, whether the input ended. */
  datatype Progress = Progress(chars: seq<char>, next: nat, hitEof: bool)

  /**
   * The first `n` chars read from the start of the source, each with a fresh
   * scratch buffer, or `None` when one of them fails to decode.
   */
  function Decoding(slot: SlotReader, n: nat): (r: Option<Progress>)
    ensures r.Some? ==> |r.value.chars| == n
  {
    if n == 0 then Some(Progress([], 0, false))
    else
      match Decoding(slot, n - 1)
      case None => None
      case Some(p) =>
        match slot(p.next, FreshScratch)
        case Err(_) => None
        case Ok(s) => Some(Progress(p.chars + [s.c], s.next, p.hitEof || s.hitEof))
  }

  /** A decoder that, at offset `end`, yields `'\0'` and stays there. */
  predicate StuckAt(slot: SlotReader, end: nat)
  {
    var r := slot(end, FreshScratch);
    r.Ok? && r.value.c == '\0' && r.value.next == end && r.value.hitEof
  }

  /** Once the decoder is stuck at the end, the chars that follow are all `'\0'`. */
  lemma {:induction false} DecodingAfterEnd(slot: SlotReader, end: nat, n: nat, m: nat)
    requires StuckAt(slot, end)
    requires n <= m && Decoding(slot, n).Some? && Decoding(slot, n).value.next == end
    ensures Decoding(slot, m).Some?
    ensures var p, q := Decoding(slot, n).value, Decoding(slot, m).value;
      q.chars[..n] == p.chars && q.next == end && (m > n ==> q.hitEof)
      && forall i :: n <= i < m ==> q.chars[i] == '\0'
  {
    if m > n {
      DecodingAfterEnd(slot, end, n, m - 1);
      var q := Decoding(slot, m - 1).value;
      var r := Decoding(slot, m).value;
      assert r.chars == q.chars + ['\0'];
      assert r.chars[..n] == q.chars[..n];
    }
  }

  /** A decoder tied to its source stays inside it, and sits at its end once the end was hit. */
  lemma {:induction false} DecodingBounded(slot: SlotReader, src: seq<Chars.byte>, n: nat)
    requires Link(slot, src) && Decoding(slot, n).Some?
    ensures Decoding(slot, n).value.next <= |src|
    ensures Decoding(slot, n).value.hitEof ==> Decoding(slot, n).value.next == |src|
  {
    if n > 0 {
      DecodingBounded(slot, src, n - 1);
      var p := Decoding(slot, n - 1).value;
      assert ReadOne(src, p.next, FreshScratch).Ok?;
      if p.next == |src| {
        ReadOneAtEnd(src, FreshScratch);
      }
    }
  }

  /** Once the source's end has been hit, every further char is `'\0'`. */
  lemma NulAfterEnd(slot: SlotReader, src: seq<Chars.byte>, n: nat, m: nat)
    requires Link(slot, src) && n <= m
    requires Decoding(slot, n).Some? && Decoding(slot, n).value.hitEof
    ensures Decoding(slot, m).Some?
    ensures var q := Decoding(slot, m).value;
      q.chars[..n] == Decoding(slot, n).value.chars && forall i :: n <= i < m ==> q.chars[i] == '\0'
  {
    DecodingBounded(slot, src, n);
    LinkFacts(slot, src);
    DecodingAfterEnd(slot, |src|, n, m);
  }

  /** Where char `k` of `text` starts in its UTF-8 form. */
  function Offset(text: seq<char>, k: nat): nat
  {
    |EncodedPrefix(text, k)|
  }

  /** A decoder that reads `text` char by char from its UTF-8 offsets. */
  ghost predicate ReadsText(slot: SlotReader, text: seq<char>, n: nat)
  {
    forall k :: 0 <= k < n ==> ReadsCharAt(slot, text, k)
  }

  ghost predicate ReadsCharAt(slot: SlotReader, text: seq<char>, k: nat)
  {
    var r := slot(Offset(text, k), FreshScratch);
    r.Ok? && r.value.c == StreamAt(text, k) && r.value.next == Offset(text, k + 1) && r.value.hitEof == (k >= |text|)
  }

  lemma {:induction false} DecodingReadsText(slot: SlotReader, text: seq<char>, n: nat)
    requires ReadsText(slot, text, n)
    ensures Decoding(slot, n) == Some(Progress(Stream(text, n), Offset(text, n), n > |text|))
  {
    if n > 0 {
      DecodingReadsText(slot, text, n - 1);
      StreamStep(text, n - 1);
      assert ReadsCharAt(slot, text, n - 1);
    } else {
      assert text[..0] == [];
    }
  }

  /** The reader's decoder reads the char of `text` at each of its offsets. */
  lemma SourceReadsText(text: seq<char>, n: nat)
    ensures ReadsText(SourceSlot(Chars.EncodeString(text)), text, n)
  {
    var src := Chars.EncodeString(text);
    forall k | 0 <= k < n
      ensures ReadsCharAt(SourceSlot(src), text, k)
    {
      var at := Offset(text, k);
      EncodedPrefixStep(text, k);
      if k < |text| {
        var e := Chars.Utf8Encode(text[k]);
        assert src[at..at + |e|] == e;
        ReadOneEncoded(src, at, FreshScratch, text[k]);
      } else {
        ReadOneAtEnd(src, FreshScratch);
      }
    }
  }

  /**
   * Well-formed UTF-8 decodes to the text it encodes: the first `n` chars are
   * the text padded with `'\0'`, the end of input being hit once `n` exceeds it.
   */
  lemma DecodingEncoded(text: seq<char>, n: nat)
    ensures Decoding(SourceSlot(Chars.EncodeString(text)), n)
      == Some(Progress(Stream(text, n), |EncodedPrefix(text, n)|, n > |text|))
  {
    SourceReadsText(text, n);
    DecodingReadsText(SourceSlot(Chars.EncodeString(text)), text, n);
  }

  /** The slots of one read cycle from offset `at`, threading one scratch buffer from a fresh one. */
  function CycleScratch(slot: SlotReader, at: nat, n: nat): Result<(Progress, seq<Chars.byte>), AnyError>
  {
    if n == 0 then Ok((Progress([], at, false), FreshScratch))
    else
      match CycleScratch(slot, at, n - 1)
      case Err(e) => Err(e)
      case Ok(ps) =>
        match slot(ps.0.next, ps.1)
        case Err(e) => Err(e)
        case Ok(s) => Ok((Progress(ps.0.chars + [s.c], s.next, ps.0.hitEof || s.hitEof), s.scratch))
  }

  lemma CycleScratchStep(slot: SlotReader, at: nat, n: nat, p: Progress, scratch: seq<Chars.byte>, s: Result<Slot, AnyError>)
    requires CycleScratch(slot, at, n) == Ok((p, scratch)) && slot(p.next, scratch) == s
    ensures CycleScratch(slot, at, n + 1)
      == if s.Ok? then Ok((Progress(p.chars + [s.value.c], s.value.next, p.hitEof || s.value.hitEof), s.value.scratch))
         else Err(s.error)
  {
  }

  /** The outcome of `n` slots of one read cycle. */
  function CycleRun(slot: SlotReader, at: nat, n: nat): (r: Result<Progress, AnyError>)
    ensures r.Ok? ==> |r.value.chars| == n
  {
    match CycleScratch(slot, at, n)
    case Err(e) => Err(e)
    case Ok(ps) => CycleLength(slot, at, n); Ok(ps.0)
  }

  lemma {:induction false} CycleLength(slot: SlotReader, at: nat, n: nat)
    requires CycleScratch(slot, at, n).Ok?
    ensures |CycleScratch(slot, at, n).value.0.chars| == n
  {
    if n > 0 {
      CycleLength(slot, at, n - 1);
    }
  }

  /** Whether a slot succeeds, and what it yields, does not depend on the scratch buffer. */
  ghost predicate ScratchIrrelevant(slot: SlotReader)
  {
    forall at: nat, scratch: seq<Chars.byte> {:trigger slot(at, scratch)} :: |scratch| == 4 ==>
      var a, b := slot(at, scratch), slot(at, FreshScratch);
      a.Ok? == b.Ok? && (a.Ok? ==> a.value.c == b.value.c && a.value.next == b.value.next && a.value.hitEof == b.value.hitEof)
  }

  /** A decoder keeps its scratch buffer four bytes long. */
  ghost predicate KeepsScratch(slot: SlotReader)
  {
    forall at: nat, scratch: seq<Chars.byte> {:trigger slot(at, scratch)} :: |scratch| == 4 && slot(at, scratch).Ok? ==>
      |slot(at, scratch).value.scratch| == 4
  }

  /** What a decoder tied to its source inherits from `ReadOne`. */
  lemma LinkFacts(slot: SlotReader, src: seq<Chars.byte>)
    requires Link(slot, src)
    ensures ScratchIrrelevant(slot) && KeepsScratch(slot) && StuckAt(slot, |src|)
  {
    forall at: nat, scratch: seq<Chars.byte> | |scratch| == 4
      ensures var a, b := slot(at, scratch), slot(at, FreshScratch);
        a.Ok? == b.Ok? && (a.Ok? ==> a.value.c == b.value.c && a.value.next == b.value.next && a.value.hitEof == b.value.hitEof)
      ensures slot(at, scratch).Ok? ==> |slot(at, scratch).value.scratch| == 4
    {
      if at <= |src| {
        ReadOneScratch(src, at, scratch, FreshScratch);
      }
    }
    ReadOneAtEnd(src, FreshScratch);
  }

  /**
   * A read cycle continues the stream: its `n` slots succeed exactly when the
   * `n` chars that follow the first `k` decode, and then they are those chars.
   */
  lemma {:induction false} CycleContinues(slot: SlotReader, k: nat, n: nat)
    requires ScratchIrrelevant(slot) && KeepsScratch(slot)
    requires Decoding(slot, k).Some?
    ensures var c := CycleRun(slot, Decoding(slot, k).value.next, n);
      && (c.Ok? <==> Decoding(slot, k + n).Some?)
      && (c.Ok? ==> var p := Decoding(slot, k).value;
            Decoding(slot, k + n).value == Progress(p.chars + c.value.chars, c.value.next, p.hitEof || c.value.hitEof))
  {
    if n > 0 {
      var at := Decoding(slot, k).value.next;
      CycleContinues(slot, k, n - 1);
      if CycleScratch(slot, at, n - 1).Ok? {
        CycleScratchLength(slot, at, n - 1);
        var ps := CycleScratch(slot, at, n - 1).value;
        var a, b := slot(ps.0.next, ps.1), slot(ps.0.next, FreshScratch);
        assert a.Ok? == b.Ok?;
        if a.Ok? {
          var p := Decoding(slot, k).value;
          assert (p.chars + ps.0.chars) + [a.value.c] == p.chars + (ps.0.chars + [a.value.c]);
        }
      }
    }
  }

  lemma {:induction false} CycleScratchLength(slot: SlotReader, at: nat, n: nat)
    requires KeepsScratch(slot)
    requires CycleScratch(slot, at, n).Ok?
    ensures |CycleScratch(slot, at, n).value.1| == 4
  {
    if n > 0 {
      CycleScratchLength(slot, at, n - 1);
    }
  }

  /** Once a slot fails, the whole cycle fails with that error. */
  lemma {:induction false} CycleStaysFailed(slot: SlotReader, at: nat, n: nat, k: nat)
    requires CycleScratch(slot, at, n).Err?
    ensures CycleScratch(slot, at, n + k) == Err(CycleScratch(slot, at, n).error)
  {
    if k > 0 {
      CycleStaysFailed(slot, at, n, k - 1);
    }
  }

  /**
   * One slot as the source reads it (rust/src/old2/peek_reader.rs:93-118):
   * the lead byte, then a `for` loop over the continuation bytes, then the
   * decode.
   */
  method ReadSlot(src: seq<Chars.byte>, at: nat, scratch: seq<Chars.byte>) returns (r: Result<Slot, AnyError>)
    requires |scratch| == 4 && at <= |src|
    ensures r == ReadOne(src, at, scratch)
  {
    var buf := scratch;
    var next := at;
    if next < |src| {
      buf := buf[0 := src[next]];
      next := next + 1;
    } else {
      buf := buf[0 := 0];
    }
    var after := next;
    var size;
    match Chars.CharSize(buf[0]) {
      case Err(e) => return Err(CharError(e));
      case Ok(s) => size := s;
    }
    ghost var sc := scratch[0 := buf[0]];
    for j := 1 to size
      invariant next == after + (j - 1) <= |src|
      invariant buf == Overlay(sc, src, after, next - after)
    {
      if next >= |src| {
        return Err(CharError(Chars.SliceTooShort(size, buf)));
      }
      buf := buf[j := src[next]];
      next := next + 1;
    }
    match Chars.BytesToChar(buf) {
      case Err(e) => return Err(CharError(e));
      case Ok(d) => return Ok(Slot(d.0, next, buf, at == |src|));
    }
  }

  /**
   * One iteration of the fill loop: decode the slot at offset `next` into
   * `buf[i]`, extending a cycle run of `n` slots by one.
   */
  method FillOne(buf: array<char>, i: nat, src: seq<Chars.byte>, at: nat, next: nat, scratch: seq<Chars.byte>,
                 ghost n: nat, ghost p: Progress, ghost slot: SlotReader)
    returns (s: Result<Slot, AnyError>)
    requires Link(slot, src) && i < buf.Length && next <= |src| && |scratch| == 4
    requires CycleScratch(slot, at, n) == Ok((p, scratch)) && p.next == next
    modifies buf
    ensures s.Err? ==> CycleScratch(slot, at, n + 1) == Err(s.error)
    ensures s.Ok? ==>
      && s.value.next <= |src| && |s.value.scratch| == 4 && buf[i] == s.value.c
      && CycleScratch(slot, at, n + 1)
         == Ok((Progress(p.chars + [s.value.c], s.value.next, p.hitEof || s.value.hitEof), s.value.scratch))
    ensures forall j :: 0 <= j < buf.Length && j != i ==> buf[j] == old(buf[j])
  {
    s := ReadSlot(src, next, scratch);
    CycleScratchStep(slot, at, n, p, scratch, s);
    if s.Ok? {
      buf[i] := s.value.c;
    }
  }

  /**
   * The fill loop of `read_cycle` (rust/src/old2/peek_reader.rs:86-119):
   * decode into slots `from..64`, stopping at the first error.  On success
   * the slots hold the chars of the cycle's run and the slots before `from`
   * are kept.
   */
  method FillSlots(buf: array<char>, from: nat, src: seq<Chars.byte>, at: nat, ghost slot: SlotReader)
    returns (r: Result<Progress, AnyError>)
    requires from <= buf.Length && at <= |src| && Link(slot, src)
    modifies buf
    ensures r == CycleRun(slot, at, buf.Length - from)
    ensures r.Ok? ==>
      && (forall j :: 0 <= j < from ==> buf[j] == old(buf[j]))
      && (forall j :: from <= j < buf.Length ==> buf[j] == r.value.chars[j - from])
  {
    var scratch := FreshScratch;
    var next: nat := at;
    var hit := false;
    ghost var got: seq<char> := [];
    var i := from;
    while i < buf.Length
      invariant from <= i <= buf.Length && next <= |src| && |scratch| == 4 && |got| == i - from
      invariant CycleScratch(slot, at, i - from) == Ok((Progress(got, next, hit), scratch))
      invariant forall j :: 0 <= j < from ==> buf[j] == old(buf[j])
      invariant forall j :: from <= j < i ==> buf[j] == got[j - from]
    {
      var s := FillOne(buf, i, src, at, next, scratch, i - from, Progress(got, next, hit), slot);
      if s.Err? {
        CycleStaysFailed(slot, at, i - from + 1, buf.Length - i - 1);
        return Err(s.error);
      }
      got := got + [s.value.c];
      next, scratch, hit := s.value.next, s.value.scratch, hit || s.value.hitEof;
      i := i + 1;
    }
    r := Ok(Progress(buf[from..], next, hit));
    assert buf[from..] == got;
  }

  /** A read cycle from where the decoded chars end extends them, and fails exactly when decoding further fails. */
  lemma CycleExtends(slot: SlotReader, src: seq<Chars.byte>, chars: seq<char>, at: nat, hitEof: bool, n: nat,
                     c: Result<Progress, AnyError>)
    requires Link(slot, src) && Decoding(slot, |chars|) == Some(Progress(chars, at, hitEof))
    requires c == CycleRun(slot, at, n)
    ensures c.Ok? <==> Decoding(slot, |chars| + n).Some?
    ensures c.Ok? ==>
      && Decoding(slot, |chars| + n) == Some(Progress(chars + c.value.chars, c.value.next, hitEof || c.value.hitEof))
      && c.value.next <= |src|
  {
    LinkFacts(slot, src);
    CycleContinues(slot, |chars|, n);
    if c.Ok? {
      DecodingBounded(slot, src, |chars| + n);
    }
  }

  /**
   * The reader.  `slot` is the decoder of `src` and `stream` the chars decoded
   * so far; `popped` counts the chars handed out.  Slot `j` of the buffer holds
   * char `popped - bufPos + j` of the stream (`'\0'` before its start).
   */
  class PeekReader {
    var buf: array<char>
    var bufPos: nat
    var pos: Position
    const src: seq<Chars.byte>
    var srcAt: nat
    var eof: bool
    ghost const slot: SlotReader
    ghost var stream: seq<char>
    ghost var popped: nat

    /** The chars decoded so far are what the decoder yields from the start of the source. */
    ghost predicate Decoded()
      reads this`srcAt, this`eof, this`stream
    {
      && Link(slot, src)
      && srcAt <= |src|
      && Decoding(slot, |stream|) == Some(Progress(stream, srcAt, eof))
    }

    ghost predicate Window()
      reads this, buf
    {
      && buf.Length == ReadBufSize
      && forall j :: 0 <= j < ReadBufSize ==> buf[j] == StreamAt(stream, popped - bufPos + j)
    }

    ghost predicate BufferValid()
      reads this, buf
    {
      && PeekReserve <= bufPos <= ReadLimit + 1
      && bufPos <= popped + PeekReserve
      && |stream| == popped + ReadBufSize - bufPos
      && Window()
      && Decoded()
    }

    ghost predicate Valid()
      reads this, buf
    {
      BufferValid() && pos == StreamPos(stream, popped)
    }

    /**
     * What a read cycle needs: the state of a fresh reader (nothing popped or
     * decoded, the reserve slots `'\0'`), or a buffer in its usual state.
     */
    ghost predicate CycleReady()
      reads this, buf
    {
      && buf.Length == ReadBufSize
      && Decoded()
      && (pos.byte == 0 <==> popped == 0)
      && if popped == 0 then
           |stream| == 0 && forall j :: 0 <= j < PeekReserve ==> buf[j] == '\0'
         else
           && PeekReserve <= bufPos <= ReadBufSize && bufPos <= popped + PeekReserve
           && |stream| == popped + ReadBufSize - bufPos
           && Window()
    }

    /** The reader as `new` builds it before its first read cycle. */
    constructor Empty(source: seq<Chars.byte>)
      ensures CycleReady() && fresh(buf)
      ensures src == source && slot == SourceSlot(source)
      ensures popped == 0 && stream == [] && pos == Start && bufPos == 0
    {
      buf := new char[ReadBufSize](_ => '\0');
      bufPos, pos, src, srcAt, eof := 0, Start, source, 0, false;
      slot, stream, popped := SourceSlot(source), [], 0;
      new;
      SourceLink(source);
    }

    /**
     * `peek(d)`: `peek(0)` is the last char popped and `peek(1)` the next one.
     * A distance outside -3..4, or one that reaches outside the buffer, is
     * `OutOfRange`.
     */
    function Peek(d: int): (r: Result<char, AnyError>)
      requires buf.Length == ReadBufSize
      reads this, buf
      ensures !(-PeekReserve < d <= PeekReserve) ==> r == Err(OutOfRange(d, -PeekReserve + 1, PeekReserve))
      ensures -PeekReserve < d <= PeekReserve && !(0 <= bufPos + d - 1 < ReadBufSize)
              ==> r == Err(OutOfRange(bufPos + d - 1, 0, ReadBufSize - 1))
      ensures Valid() && r.Ok? ==> r.value == StreamAt(stream, popped + d - 1)
    {
      if !(-PeekReserve + 1 <= d && d <= PeekReserve) then
        Err(OutOfRange(d, -PeekReserve + 1, PeekReserve))
      else
        var tmp := bufPos + d - 1;
        if tmp < 0 || tmp >= buf.Length then
          Err(OutOfRange(tmp, 0, buf.Length - 1))
        else
          Ok(buf[tmp])
    }

    /**
     * In a valid reader every distance in -3..4 can be peeked, except 4 when
     * the next pop will start a read cycle: only three chars are then left
     * ahead in the buffer.
     */
    lemma PeekReach(d: int)
      requires Valid() && -PeekReserve < d <= PeekReserve
      ensures Peek(d).Ok? <==> bufPos + d <= ReadBufSize
      ensures Peek(d).Err? ==> d == PeekReserve && bufPos == ReadLimit + 1
    {
    }

    /**
     * `peek_string(from, to)`: the peeks `from..=to` in order, or the error of
     * the first one that fails.
     */
    method PeekString(first: int, last: int) returns (r: Result<string, AnyError>)
      requires buf.Length == ReadBufSize
      ensures r.Ok? <==> forall i :: first <= i <= last ==> Peek(i).Ok?
      ensures r.Ok? ==>
        && |r.value| == (if last < first then 0 else last - first + 1)
        && forall k :: 0 <= k < |r.value| ==> Peek(first + k) == Ok(r.value[k])
      ensures r.Ok? && Valid() ==>
        forall k :: 0 <= k < |r.value| ==> r.value[k] == StreamAt(stream, popped + first + k - 1)
      ensures r.Err? ==>
        exists i :: first <= i <= last && Peek(i) == Err(r.error) && forall j :: first <= j < i ==> Peek(j).Ok?
    {
      var ans := "";
      var i := first;
      while i < last + 1
        invariant first <= i && (i == first || i <= last + 1)
        invariant |ans| == i - first
        invariant forall j :: first <= j < i ==> Peek(j) == Ok(ans[j - first])
        decreases last + 1 - i
      {
        var c := Peek(i);
        if c.Err? {
          return Err(c.error);
        }
        ans := ans + [c.value];
        assert Peek(i) == Ok(ans[i - first]);
        i := i + 1;
      }
      forall k | 0 <= k < |ans|
        ensures Peek(first + k) == Ok(ans[k])
      {
        assert Peek(first + k) == Ok(ans[first + k - first]);
      }
      return Ok(ans);
    }

    /**
     * `pop`: hand out the next char, starting a read cycle first when the
     * buffer runs low.  It fails exactly when that cycle fails, which is when
     * the chars up to 60 past the popped ones cannot all be decoded.
     */
    method Pop() returns (r: Result<char, AnyError>)
      requires Valid()
      modifies this, buf
      ensures r.Err? <==> old(bufPos) > ReadLimit && Decoding(slot, old(popped) + ReadLimit).None?
      ensures r.Ok? ==>
        && Valid() && buf == old(buf)
        && r == old(Peek(1))
        && r.value == StreamAt(stream, old(popped))
        && popped == old(popped) + 1
        && pos == old(pos).Walk(r.value)
        && old(stream) <= stream
    {
      if bufPos > ReadLimit {
        StreamPosBytes(stream, popped);
        ghost var s0 := stream;
        var res := ReadCycle();
        if res.Err? {
          return Err(res.error);
        }
        StreamPosAgree(s0, stream, popped);
      }
      var c := Take();
      return Ok(c);
    }

    /** The second half of `pop`: hand out the char at `buf_pos` and step past it. */
    method Take() returns (c: char)
      requires BufferValid() && bufPos <= ReadLimit && pos == StreamPos(stream, popped)
      modifies this`bufPos, this`pos, this`popped
      ensures Valid()
      ensures c == old(buf[bufPos]) == StreamAt(stream, old(popped))
      ensures popped == old(popped) + 1 && pos == old(pos).Walk(c)
    {
      c := buf[bufPos];
      bufPos := bufPos + 1;
      pos := pos.Walk(c);
      popped := popped + 1;
      assert Window();
    }

    /**
     * `read_cycle`: keep the last four popped chars and the unpopped ones,
     * moved to the front (skipped on the first cycle, recognised by a byte
     * offset of 0), then decode chars into the rest of the buffer.  The cycle
     * succeeds exactly when those chars decode; the state a failed cycle
     * leaves behind is not described.
     */
    method ReadCycle() returns (r: Result<(), AnyError>)
      requires CycleReady()
      modifies this`bufPos, this`srcAt, this`eof, this`stream, buf
      ensures var n := if old(popped) == 0 then ReadLimit else old(bufPos) - PeekReserve;
        && (r.Ok? <==> Decoding(slot, old(|stream|) + n).Some?)
        && (r.Err? ==> CycleRun(slot, old(srcAt), n) == Err(r.error))
      ensures r.Ok? ==> BufferValid() && bufPos == PeekReserve && old(stream) <= stream
      ensures r.Ok? && old(popped) > 0 ==>
        forall j :: 0 <= j < ReadBufSize - old(bufPos) + PeekReserve ==>
          buf[j] == old(buf[j + bufPos - PeekReserve])
    {
      var from := Compact();
      ghost var kept := buf[..];
      r := FillCycle(from);
      if r.Ok? {
        assert forall j :: 0 <= j < from ==> buf[j] == kept[j];
      }
    }

    /**
     * The first half of `read_cycle`: unless this is the first cycle, move the
     * reserve and the unpopped chars to the front.  Returns the first slot to
     * decode into.
     */
    method Compact() returns (from: nat)
      requires CycleReady()
      modifies buf
      ensures from == if popped == 0 then PeekReserve else ReadBufSize - bufPos + PeekReserve
      ensures popped > 0 ==> forall k :: 0 <= k < from ==> buf[k] == old(buf[k + bufPos - PeekReserve])
      ensures forall k :: 0 <= k < from ==> buf[k] == StreamAt(stream, popped - PeekReserve + k)
    {
      from := PeekReserve;
      if pos.byte != 0 {
        FirstDraft.MoveReserve(buf, bufPos - PeekReserve);
        from := buf.Length - bufPos + PeekReserve;
      }
    }

    /**
     * The second half of `read_cycle`: decode chars into slots `from..64`,
     * with the reserve at the front of the buffer.
     */
    method FillCycle(from: nat) returns (r: Result<(), AnyError>)
      requires buf.Length == ReadBufSize && Decoded()
      requires PeekReserve <= from <= ReadBufSize && popped + from >= PeekReserve
      requires |stream| == popped - PeekReserve + from
      requires forall k :: 0 <= k < from ==> buf[k] == StreamAt(stream, popped - PeekReserve + k)
      modifies this`bufPos, this`srcAt, this`eof, this`stream, buf
      ensures r.Ok? <==> Decoding(slot, old(|stream|) + ReadBufSize - from).Some?
      ensures r.Err? ==> CycleRun(slot, old(srcAt), ReadBufSize - from) == Err(r.error)
      ensures r.Ok? ==> BufferValid() && bufPos == PeekReserve && old(stream) <= stream
      ensures r.Ok? ==> forall k :: 0 <= k < from ==> buf[k] == old(buf[k])
    {
      bufPos := PeekReserve;
      var res := FillSlots(buf, from, src, srcAt, slot);
      CycleExtends(slot, src, stream, srcAt, eof, ReadBufSize - from, res);
      if res.Err? {
        return Err(res.error);
      }
      Extend(from, res.value);
      return Ok(());
    }

    /** Record the chars a successful cycle decoded into slots `from..64`. */
    method Extend(from: nat, p: Progress)
      requires buf.Length == ReadBufSize && Decoded() && bufPos == PeekReserve
      requires PeekReserve <= from <= ReadBufSize && popped + from >= PeekReserve
      requires |stream| == popped - PeekReserve + from && |p.chars| == ReadBufSize - from
      requires forall k :: 0 <= k < from ==> buf[k] == StreamAt(stream, popped - PeekReserve + k)
      requires forall j :: from <= j < ReadBufSize ==> buf[j] == p.chars[j - from]
      requires Decoding(slot, |stream| + |p.chars|) == Some(Progress(stream + p.chars, p.next, eof || p.hitEof))
      requires p.next <= |src|
      modifies this`srcAt, this`eof, this`stream
      ensures BufferValid() && stream == old(stream) + p.chars
    {
      WindowAfterFill(buf[..], stream, p.chars, popped - PeekReserve, from);
      stream := stream + p.chars;
      srcAt := p.next;
      eof := eof || p.hitEof;
      assert Window();
    }
  }

  /** Slots `from..` filled with `chars` continue the stream that slots `..from` show. */
  lemma WindowAfterFill(b: seq<char>, s: seq<char>, chars: seq<char>, base: int, from: nat)
    requires from <= |b| && |chars| == |b| - from && base + from == |s|
    requires forall k :: 0 <= k < from ==> b[k] == StreamAt(s, base + k)
    requires forall j :: from <= j < |b| ==> b[j] == chars[j - from]
    ensures forall j :: 0 <= j < |b| ==> b[j] == StreamAt(s + chars, base + j)
  {
    forall j | 0 <= j < |b|
      ensures b[j] == StreamAt(s + chars, base + j)
    {
      if j >= from {
        assert (s + chars)[base + j] == chars[j - from];
      }
    }
  }

  /** `new`: an empty reader and its first read cycle, whose error it returns. */
  method NewReader(source: seq<Chars.byte>) returns (r: Result<PeekReader, AnyError>)
    ensures r.Ok? <==> Decoding(SourceSlot(source), ReadLimit).Some?
    ensures r.Err? ==> CycleRun(SourceSlot(source), 0, ReadLimit) == Err(r.error)
    ensures r.Ok? ==>
      && fresh(r.value) && fresh(r.value.buf) && r.value.Valid()
      && r.value.src == source && r.value.slot == SourceSlot(source)
      && r.value.popped == 0 && r.value.bufPos == PeekReserve
  {
    var reader := new PeekReader.Empty(source);
    var res := reader.ReadCycle();
    if res.Err? {
      return Err(res.error);
    }
    return Ok(reader);
  }
}

/**
 * Character data of the Go SAX reader (go/sax.go): the entity-escape state
 * machine of `CharData.writeRune`, the trailing-blank cut of `finish`, and
 * the positions kept by `Pos.advance`.
 */
module SaxText {
  import opened Wrappers

  /** Go's `unicode.IsSpace`: the characters with the Unicode White_Space property. */
  predicate IsSpace(c: char)
  {
    || c == '\t' || c == '\n' || c == '\U{000B}' || c == '\U{000C}' || c == '\r' || c == ' '
    || c == '\U{0085}' || c == '\U{00A0}' || c == '\U{1680}'
    || ('\U{2000}' <= c <= '\U{200A}')
    || c == '\U{2028}' || c == '\U{2029}' || c == '\U{202F}' || c == '\U{205F}' || c == '\U{3000}'
  }

  /** Go's `unicode.IsLetter` and `unicode.IsDigit`, which consult the Unicode tables. */
  datatype Classes = Classes(isLetter: char -> bool, isDigit: char -> bool)

  predicate IsAlnum(cls: Classes, c: char)
  {
    cls.isLetter(c) || cls.isDigit(c)
  }

  /** `CharData.mode`: plain text, the rune after `&`, or inside an entity name. */
  datatype Escape = Plain | Amp | Entity

  /**
   * The part of a `CharData` that `writeRune` changes. `last` is the length
   * of `val` after its last visible write. Go measures both in bytes; since
   * `last` is always a former length of `val`, counting runes cuts at the
   * same place.
   */
  datatype TextState = TextState(val: string, mode: Escape, tmpStr: string, gotFirst: bool, last: nat)

  /** The errors `writeRune` reports, named after their messages. */
  datatype TextError =
    | UnexpectedChar(r: char)      // "unexpected char (r) in entity name"
    | UnknownEntity(name: string)  // "unknown entity: name"
    | NoTerminator(name: string)   // "forgot terminator in entity name: name"

  /** A new `CharData`. */
  const Fresh := TextState("", Plain, "", false, 0)

  /** The runes that `&` escapes literally. */
  predicate Literal(r: char)
  {
    r == '&' || r == '"' || r == '<' || r == '>'
  }

  /**
   * `CharData.writeRune`: the state after writing `r`, and the error it
   * reports. `ent` is Go's `defaultEntites` table.
   */
  function NextText(cls: Classes, ent: map<string, string>, st: TextState, r: char): (res: (TextState, Option<TextError>))
    ensures st.val <= res.0.val
    ensures st.last <= |st.val| ==> res.0.last <= |res.0.val|
    ensures res.1.Some? <==>
      || (st.mode == Amp && !Literal(r) && !IsAlnum(cls, r))
      || (st.mode == Entity && r == ';' && st.tmpStr !in ent)
      || (st.mode == Entity && r != ';' && !IsAlnum(cls, r))
    ensures st.mode == Plain && !st.gotFirst && IsSpace(r) ==> res.0 == st
    ensures st.mode == Amp && Literal(r) ==> res.0.val == st.val + [r] && res.0.mode == Plain
    ensures st.mode == Entity && r == ';' && st.tmpStr in ent ==>
      res.0.val == st.val + ent[st.tmpStr] && res.0.mode == Plain
  {
    match st.mode
    case Plain =>
      var st1 :=
        if r == '&' then st.(gotFirst := true, mode := Amp)
        else if st.gotFirst then st.(val := st.val + [r])
        else if !IsSpace(r) then st.(gotFirst := true, val := st.val + [r])
        else st;
      (if !IsSpace(r) && r != '&' then st1.(last := |st1.val|) else st1, None)
    case Amp =>
      if Literal(r) then
        (st.(val := st.val + [r], last := |st.val| + 1, mode := Plain, tmpStr := []), None)
      else
        var st1 := st.(mode := Entity, tmpStr := [r]);
        if !IsAlnum(cls, r) then
          (st1, Some(UnexpectedChar(r)))
        else
          (st1.(last := |st.val|), None)
    case Entity =>
      if r == ';' then
        if st.tmpStr in ent then
          (st.(mode := Plain, val := st.val + ent[st.tmpStr], last := |st.val| + |ent[st.tmpStr]|), None)
        else
          (st.(mode := Plain), Some(UnknownEntity(st.tmpStr)))
      else if IsAlnum(cls, r) then
        (st.(tmpStr := st.tmpStr + [r]), None)
      else
        (st, Some(NoTerminator(st.tmpStr)))
  }

  /** The state after writing every rune of `s`, errors ignored as the reader ignores them. */
  function TextAfter(cls: Classes, ent: map<string, string>, st: TextState, s: string): TextState
    decreases |s|
  {
    if s == [] then st else TextAfter(cls, ent, NextText(cls, ent, st, s[0]).0, s[1..])
  }

  /** `CharData.finish`: the value cut after its last visible write. */
  function Final(st: TextState): string
    requires st.last <= |st.val|
  {
    st.val[..st.last]
  }

  /** `s` without its leading white space. */
  function TrimStart(s: string): (t: string)
    ensures |t| <= |s| && t == s[|s| - |t|..]
    ensures forall i | 0 <= i < |s| - |t| :: IsSpace(s[i])
    ensures t == [] || !IsSpace(t[0])
  {
    if s != [] && IsSpace(s[0]) then TrimStart(s[1..]) else s
  }

  /** `s` without its trailing white space. */
  function TrimEnd(s: string): (t: string)
    ensures |t| <= |s| && t == s[..|t|]
    ensures forall i | |t| <= i < |s| :: IsSpace(s[i])
    ensures t == [] || !IsSpace(t[|t| - 1])
  {
    if s != [] && IsSpace(s[|s| - 1]) then TrimEnd(s[..|s| - 1]) else s
  }

  lemma {:induction false} TextAfterAppend(cls: Classes, ent: map<string, string>, st: TextState, a: string, b: string)
    ensures TextAfter(cls, ent, st, a + b) == TextAfter(cls, ent, TextAfter(cls, ent, st, a), b)
    decreases |a|
  {
    if a != [] {
      assert (a + b)[0] == a[0];
      assert (a + b)[1..] == a[1..] + b;
      TextAfterAppend(cls, ent, NextText(cls, ent, st, a[0]).0, a[1..], b);
    } else {
      assert a + b == b;
    }
  }

  lemma TextAfterSnoc(cls: Classes, ent: map<string, string>, st: TextState, s: string, c: char)
    ensures TextAfter(cls, ent, st, s + [c]) == NextText(cls, ent, TextAfter(cls, ent, st, s), c).0
  {
    TextAfterAppend(cls, ent, st, s, [c]);
  }

  lemma {:induction false} TrimStartSnoc(s: string, c: char)
    ensures TrimStart(s + [c]) == if TrimStart(s) == [] && IsSpace(c) then [] else TrimStart(s) + [c]
  {
    if s == [] {
      assert s + [c] == [c];
    } else if IsSpace(s[0]) {
      assert (s + [c])[0] == s[0];
      assert (s + [c])[1..] == s[1..] + [c];
      TrimStartSnoc(s[1..], c);
    } else {
      assert (s + [c])[0] == s[0];
    }
  }

  lemma TrimEndSnoc(t: string, c: char)
    ensures TrimEnd(t + [c]) == if IsSpace(c) then TrimEnd(t) else t + [c]
  {
    assert (t + [c])[..|t|] == t;
  }

  /** The state after writing text without `&`: leading blanks skipped, `last` at the trimmed end. */
  lemma {:induction false} PlainWritten(cls: Classes, ent: map<string, string>, s: string)
    requires forall i | 0 <= i < |s| :: s[i] != '&'
    ensures TextAfter(cls, ent, Fresh, s)
      == TextState(TrimStart(s), Plain, "", TrimStart(s) != [], |TrimEnd(TrimStart(s))|)
  {
    if s != [] {
      var p, c := s[..|s| - 1], s[|s| - 1];
      assert s == p + [c];
      PlainWritten(cls, ent, p);
      TextAfterSnoc(cls, ent, Fresh, p, c);
      TrimStartSnoc(p, c);
      TrimEndSnoc(TrimStart(p), c);
    }
  }

  /**
   * Text without `&` reads as itself with leading and trailing white space
   * removed, and is an empty token exactly when it is blank.
   */
  lemma PlainTextTrimmed(cls: Classes, ent: map<string, string>, s: string)
    requires forall i | 0 <= i < |s| :: s[i] != '&'
    ensures var t := TextAfter(cls, ent, Fresh, s);
      && t.last <= |t.val|
      && Final(t) == TrimEnd(TrimStart(s))
      && (t.val == [] <==> forall i | 0 <= i < |s| :: IsSpace(s[i]))
  {
    PlainWritten(cls, ent, s);
    var t := TrimStart(s);
    if t != [] {
      assert !IsSpace(s[|s| - |t|]);
    }
  }

  lemma TextAfterCons(cls: Classes, ent: map<string, string>, st: TextState, c: char, s: string)
    ensures TextAfter(cls, ent, st, [c] + s) == TextAfter(cls, ent, NextText(cls, ent, st, c).0, s)
  {
    assert ([c] + s)[1..] == s;
  }

  /** `&` and one of `&`, `"`, `<`, `>` append that rune, visibly, and clear the entity name. */
  lemma LiteralEscape(cls: Classes, ent: map<string, string>, st: TextState, r: char, rest: string)
    requires st.mode == Plain && Literal(r)
    ensures TextAfter(cls, ent, st, ['&', r] + rest)
      == TextAfter(cls, ent, st.(val := st.val + [r], gotFirst := true, last := |st.val| + 1, tmpStr := []), rest)
  {
    assert ['&', r] + rest == ['&'] + ([r] + rest);
    TextAfterCons(cls, ent, st, '&', [r] + rest);
    TextAfterCons(cls, ent, st.(gotFirst := true, mode := Amp), r, rest);
  }

  /** Letters and digits inside an entity name extend it. */
  lemma {:induction false} EntityNameRun(cls: Classes, ent: map<string, string>, st: TextState, name: string, rest: string)
    requires st.mode == Entity
    requires forall i | 0 <= i < |name| :: IsAlnum(cls, name[i]) && name[i] != ';'
    ensures TextAfter(cls, ent, st, name + rest) == TextAfter(cls, ent, st.(tmpStr := st.tmpStr + name), rest)
    decreases |name|
  {
    if name == [] {
      assert name + rest == rest;
      assert st.tmpStr + name == st.tmpStr;
    } else {
      assert name + rest == [name[0]] + (name[1..] + rest);
      TextAfterCons(cls, ent, st, name[0], name[1..] + rest);
      var next := st.(tmpStr := st.tmpStr + [name[0]]);
      EntityNameRun(cls, ent, next, name[1..], rest);
      assert next.tmpStr + name[1..] == st.tmpStr + name;
    }
  }

  /** The state once `&name` has been read. */
  lemma EntityOpen(cls: Classes, ent: map<string, string>, st: TextState, name: string, rest: string)
    requires st.mode == Plain && |name| > 0 && !Literal(name[0])
    requires forall i | 0 <= i < |name| :: IsAlnum(cls, name[i]) && name[i] != ';'
    ensures TextAfter(cls, ent, st, ['&'] + name + rest)
      == TextAfter(cls, ent, st.(gotFirst := true, mode := Entity, tmpStr := name, last := |st.val|), rest)
  {
    assert ['&'] + name + rest == ['&'] + ([name[0]] + (name[1..] + rest));
    TextAfterCons(cls, ent, st, '&', [name[0]] + (name[1..] + rest));
    var amp := st.(gotFirst := true, mode := Amp);
    TextAfterCons(cls, ent, amp, name[0], name[1..] + rest);
    var open := st.(gotFirst := true, mode := Entity, tmpStr := [name[0]], last := |st.val|);
    EntityNameRun(cls, ent, open, name[1..], rest);
    assert [name[0]] + name[1..] == name;
  }

  /** `&name;` appends the entity's text, visibly. */
  lemma EntityEscape(cls: Classes, ent: map<string, string>, st: TextState, name: string, rest: string)
    requires st.mode == Plain && |name| > 0 && !Literal(name[0])
    requires forall i | 0 <= i < |name| :: IsAlnum(cls, name[i]) && name[i] != ';'
    requires name in ent
    ensures TextAfter(cls, ent, st, ['&'] + name + [';'] + rest)
      == TextAfter(cls, ent, st.(val := st.val + ent[name], gotFirst := true, tmpStr := name,
                                 last := |st.val| + |ent[name]|), rest)
  {
    assert ['&'] + name + [';'] + rest == ['&'] + name + ([';'] + rest);
    EntityOpen(cls, ent, st, name, [';'] + rest);
    TextAfterCons(cls, ent, st.(gotFirst := true, mode := Entity, tmpStr := name, last := |st.val|), ';', rest);
  }

  /**
   * `&name;` with a name the table lacks reports the name, appends nothing
   * and leaves the escape.
   */
  lemma UnknownEntityDropped(cls: Classes, ent: map<string, string>, st: TextState, name: string, rest: string)
    requires st.mode == Plain && |name| > 0 && !Literal(name[0])
    requires forall i | 0 <= i < |name| :: IsAlnum(cls, name[i]) && name[i] != ';'
    requires name !in ent
    ensures var open := st.(gotFirst := true, mode := Entity, tmpStr := name, last := |st.val|);
      && NextText(cls, ent, open, ';') == (open.(mode := Plain), Some(UnknownEntity(name)))
      && TextAfter(cls, ent, st, ['&'] + name + [';'] + rest) == TextAfter(cls, ent, open.(mode := Plain), rest)
  {
    assert ['&'] + name + [';'] + rest == ['&'] + name + ([';'] + rest);
    EntityOpen(cls, ent, st, name, [';'] + rest);
    TextAfterCons(cls, ent, st.(gotFirst := true, mode := Entity, tmpStr := name, last := |st.val|), ';', rest);
  }

  /** A `Pos`: byte offset, line and column. */
  datatype Pos = Pos(byte: int, line: int, col: int)

  /** `Pos.advance`: one rune of `size` bytes further. */
  function Advance(p: Pos, r: char, size: int): (q: Pos)
    ensures q.byte == p.byte + size
    ensures r == '\n' ==> q.line == p.line + 1 && q.col == 0
    ensures r != '\n' ==> q.line == p.line && q.col == p.col + 1
  {
    var q := p.(byte := p.byte + size, col := p.col + 1);
    if r == '\n' then q.(line := q.line + 1, col := 0) else q
  }

  /** The number of bytes of `c` in UTF-8, which `ReadRune` reports. */
  function Width(c: char): (n: nat)
    ensures 1 <= n <= 4
  {
    if c < '\U{0080}' then 1 else if c < '\U{0800}' then 2 else if c < '\U{10000}' then 3 else 4
  }

  /** The position after reading every rune of `s`. */
  function Walk(p: Pos, s: string): Pos
    decreases |s|
  {
    if s == [] then p else Walk(Advance(p, s[0], Width(s[0])), s[1..])
  }

  lemma {:induction false} WalkAppend(p: Pos, a: string, b: string)
    ensures Walk(p, a + b) == Walk(Walk(p, a), b)
    decreases |a|
  {
    if a != [] {
      assert (a + b)[0] == a[0];
      assert (a + b)[1..] == a[1..] + b;
      WalkAppend(Advance(p, a[0], Width(a[0])), a[1..], b);
    } else {
      assert a + b == b;
    }
  }

  /**
   * Lines count the newlines read, and a line without a newline adds one
   * column per rune.
   */
  lemma {:induction false} WalkLines(p: Pos, s: string)
    ensures Walk(p, s).line == p.line + multiset(s)['\n']
    ensures '\n' !in s ==> Walk(p, s).col == p.col + |s|
    decreases |s|
  {
    if s != [] {
      assert s == [s[0]] + s[1..];
      WalkLines(Advance(p, s[0], Width(s[0])), s[1..]);
    }
  }

  /** After a newline the column counts the runes read since it. */
  lemma ColumnAfterNewline(p: Pos, a: string, b: string)
    requires '\n' !in b
    ensures Walk(p, a + "\n" + b).col == |b|
  {
    WalkAppend(p, a + "\n", b);
    WalkAppend(p, a, "\n");
    WalkLines(Walk(p, a + "\n"), b);
  }

  /** A `CharData` token being written. */
  class CharData {
    var val: string
    var mode: Escape
    var tmpStr: string
    var final: string
    var gotFirst: bool
    var last: nat
    var startPos: Pos

    function State(): TextState
      reads this
    {
      TextState(val, mode, tmpStr, gotFirst, last)
    }

    constructor (p: Pos)
      ensures State() == Fresh && final == "" && startPos == p
    {
      val, mode, tmpStr, final := "", Plain, "", "";
      gotFirst, last, startPos := false, 0, p;
    }

    /** `isZero`: nothing has been written into the value. */
    function IsZero(): (z: bool)
      reads this
      ensures z <==> State().val == Fresh.val
    {
      |val| == 0
    }

    method WriteRune(cls: Classes, ent: map<string, string>, r: char) returns (err: Option<TextError>)
      modifies this
      ensures (State(), err) == NextText(cls, ent, old(State()), r)
      ensures final == old(final) && startPos == old(startPos)
    {
      err := None;
      if mode == Plain {
        var isSpace := IsSpace(r);
        if r == '&' {
          gotFirst := true;
          mode := Amp;
        } else if gotFirst {
          val := val + [r];
        } else if !isSpace {
          gotFirst := true;
          val := val + [r];
        }
        if !isSpace && r != '&' {
          last := |val|;
        }
      } else if mode == Amp {
        if Literal(r) {
          val := val + [r];
          last := |val|;
          mode := Plain;
          tmpStr := [];
        } else {
          mode := Entity;
          tmpStr := [r];
          if !IsAlnum(cls, r) {
            err := Some(UnexpectedChar(r));
            return;
          }
          last := |val|;
        }
      } else {
        if r == ';' {
          mode := Plain;
          if tmpStr !in ent {
            err := Some(UnknownEntity(tmpStr));
            return;
          }
          val := val + ent[tmpStr];
          last := |val|;
        } else if IsAlnum(cls, r) {
          tmpStr := tmpStr + [r];
        } else {
          err := Some(NoTerminator(tmpStr));
        }
      }
    }

    method Finish()
      requires last <= |val|
      modifies this
      ensures final == Final(old(State()))
      ensures State() == old(State()).(val := "") && startPos == old(startPos)
    {
      final := val[..last];
      val := "";
    }
  }
}

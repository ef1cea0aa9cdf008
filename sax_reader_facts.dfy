/**
 * What one `ReadToken` call of the Go SAX reader returns for inline text,
 * a start tag and an end tag, for every input of that shape.
 */
module SaxReaderFacts {
  import opened Wrappers
  import opened SaxText
  import opened SaxReader
  import Cursors

  /** The last rune of `s`, or `r` when `s` is empty: the loop's `r` after reading `s`. */
  function Last(r: char, s: string): char
  {
    if s == [] then r else s[|s| - 1]
  }

  /** Every rune of `s` is a tag rune. */
  predicate TagRunes(cls: Classes, s: string)
  {
    s == [] || (IsTagChar(cls, s[0]) && TagRunes(cls, s[1..]))
  }

  /** No rune of `s` is `c`. */
  predicate Without(s: string, c: char)
  {
    s == [] || (s[0] != c && Without(s[1..], c))
  }

  lemma {:induction false} TagRunesAll(cls: Classes, s: string)
    requires forall i | 0 <= i < |s| :: IsTagChar(cls, s[i])
    ensures TagRunes(cls, s)
    decreases |s|
  {
    if s != [] {
      TagRunesAll(cls, s[1..]);
    }
  }

  lemma {:induction false} WithoutAll(s: string, c: char)
    requires forall i | 0 <= i < |s| :: s[i] != c
    ensures Without(s, c)
    decreases |s|
  {
    if s != [] {
      WithoutAll(s[1..], c);
    }
  }

  /** The loop is its first turn followed by the rest. */
  lemma Unroll(cls: Classes, ent: map<string, string>, names: string -> TagName, sc: Scan)
    requires ScanGood(sc)
    ensures var s := ReadStep(cls, ent, names, sc);
      ReadLoop(cls, ent, names, sc) == if s.Exit? then s.result else ReadLoop(cls, ent, names, s.next)
  {
  }

  /** A rune other than `<` inside a `CharData` is written into it. */
  lemma TextStep(cls: Classes, ent: map<string, string>, names: string -> TagName,
                 st: ReaderState, tmp: string, r: char, c: char, more: string)
    requires ScanGood(Scan(st, tmp, r, false)) && st.mode == InText && st.clean && st.cur == CurText
    requires st.src == [c] + more && c != '<'
    ensures var st' := st.(src := more, pos := Advance(st.pos, c, Width(c)), text := NextText(cls, ent, st.text, c).0);
      && ScanGood(Scan(st', tmp, c, false))
      && ReadLoop(cls, ent, names, Scan(st, tmp, r, false)) == ReadLoop(cls, ent, names, Scan(st', tmp, c, false))
  {
    assert st.src[1..] == more;
    Unroll(cls, ent, names, Scan(st, tmp, r, false));
  }

  /** A tag rune inside a start tag's name is collected. */
  lemma StartNameStep(cls: Classes, ent: map<string, string>, names: string -> TagName,
                      st: ReaderState, tmp: string, r: char, c: char, more: string)
    requires ScanGood(Scan(st, tmp, r, false)) && st.mode == InStart && st.sub == ReadingName
    requires st.src == [c] + more && IsTagChar(cls, c)
    ensures var st' := st.(src := more, pos := Advance(st.pos, c, Width(c)));
      && ScanGood(Scan(st', tmp + [c], c, false))
      && ReadLoop(cls, ent, names, Scan(st, tmp, r, false)) == ReadLoop(cls, ent, names, Scan(st', tmp + [c], c, false))
  {
    assert st.src[1..] == more;
    Unroll(cls, ent, names, Scan(st, tmp, r, false));
  }

  /** A tag rune inside an end tag is collected; the element is left as it is. */
  lemma EndNameStep(cls: Classes, ent: map<string, string>, names: string -> TagName,
                    st: ReaderState, tmp: string, r: char, c: char, more: string)
    requires ScanGood(Scan(st, tmp, r, false)) && st.mode == InEnd
    requires st.src == [c] + more && IsTagChar(cls, c) && c != '>'
    ensures var st' := st.(src := more, pos := Advance(st.pos, c, Width(c)));
      && ScanGood(Scan(st', tmp + [c], c, false))
      && ReadLoop(cls, ent, names, Scan(st, tmp, r, false)) == ReadLoop(cls, ent, names, Scan(st', tmp + [c], c, false))
  {
    assert st.src[1..] == more;
    assert st.(cur := CurEnd(st.cur.e)) == st;
    Unroll(cls, ent, names, Scan(st, tmp, r, false));
  }

  /** Inside a `CharData`, runes other than `<` are written one by one. */
  lemma {:induction false} TextRun(cls: Classes, ent: map<string, string>, names: string -> TagName,
                                   st: ReaderState, tmp: string, r: char, s: string, rest: string)
    requires ScanGood(Scan(st, tmp, r, false)) && st.mode == InText && st.clean && st.cur == CurText
    requires st.src == s + rest && Without(s, '<')
    ensures ScanGood(Scan(st.(src := rest, pos := Walk(st.pos, s), text := TextAfter(cls, ent, st.text, s)), tmp, Last(r, s), false))
    ensures ReadLoop(cls, ent, names, Scan(st, tmp, r, false))
      == ReadLoop(cls, ent, names, Scan(st.(src := rest, pos := Walk(st.pos, s), text := TextAfter(cls, ent, st.text, s)), tmp, Last(r, s), false))
    decreases |s|
  {
    if s == [] {
      assert s + rest == rest;
      assert st.(src := rest, pos := Walk(st.pos, s), text := TextAfter(cls, ent, st.text, s)) == st;
    } else {
      assert s + rest == [s[0]] + (s[1..] + rest);
      TextStep(cls, ent, names, st, tmp, r, s[0], s[1..] + rest);
      var st' := st.(src := s[1..] + rest, pos := Advance(st.pos, s[0], Width(s[0])), text := NextText(cls, ent, st.text, s[0]).0);
      TextRun(cls, ent, names, st', tmp, s[0], s[1..], rest);
      assert Last(s[0], s[1..]) == Last(r, s);
    }
  }

  /** Inside a start tag's name, tag runes are collected. */
  lemma {:induction false} StartNameRun(cls: Classes, ent: map<string, string>, names: string -> TagName,
                                        st: ReaderState, tmp: string, r: char, name: string, rest: string)
    requires ScanGood(Scan(st, tmp, r, false)) && st.mode == InStart && st.sub == ReadingName
    requires st.src == name + rest && TagRunes(cls, name)
    ensures ScanGood(Scan(st.(src := rest, pos := Walk(st.pos, name)), tmp + name, Last(r, name), false))
    ensures ReadLoop(cls, ent, names, Scan(st, tmp, r, false))
      == ReadLoop(cls, ent, names, Scan(st.(src := rest, pos := Walk(st.pos, name)), tmp + name, Last(r, name), false))
    decreases |name|
  {
    if name == [] {
      assert name + rest == rest;
      assert tmp + name == tmp;
      assert st.(src := rest, pos := Walk(st.pos, name)) == st;
    } else {
      assert name + rest == [name[0]] + (name[1..] + rest);
      StartNameStep(cls, ent, names, st, tmp, r, name[0], name[1..] + rest);
      var st' := st.(src := name[1..] + rest, pos := Advance(st.pos, name[0], Width(name[0])));
      StartNameRun(cls, ent, names, st', tmp + [name[0]], name[0], name[1..], rest);
      assert tmp + [name[0]] + name[1..] == tmp + name;
      assert Last(name[0], name[1..]) == Last(r, name);
    }
  }

  /** Inside an end tag, tag runes are collected and the element is left as it is. */
  lemma {:induction false} EndNameRun(cls: Classes, ent: map<string, string>, names: string -> TagName,
                                      st: ReaderState, tmp: string, r: char, name: string, rest: string)
    requires ScanGood(Scan(st, tmp, r, false)) && st.mode == InEnd
    requires st.src == name + rest && TagRunes(cls, name) && Without(name, '>')
    ensures ScanGood(Scan(st.(src := rest, pos := Walk(st.pos, name)), tmp + name, Last(r, name), false))
    ensures ReadLoop(cls, ent, names, Scan(st, tmp, r, false))
      == ReadLoop(cls, ent, names, Scan(st.(src := rest, pos := Walk(st.pos, name)), tmp + name, Last(r, name), false))
    decreases |name|
  {
    if name == [] {
      assert name + rest == rest;
      assert tmp + name == tmp;
      assert st.(src := rest, pos := Walk(st.pos, name)) == st;
    } else {
      assert name + rest == [name[0]] + (name[1..] + rest);
      EndNameStep(cls, ent, names, st, tmp, r, name[0], name[1..] + rest);
      var st' := st.(src := name[1..] + rest, pos := Advance(st.pos, name[0], Width(name[0])));
      EndNameRun(cls, ent, names, st', tmp + [name[0]], name[0], name[1..], rest);
      assert tmp + [name[0]] + name[1..] == tmp + name;
      assert Last(name[0], name[1..]) == Last(r, name);
    }
  }

  /** The `<` that starts a tag, read between tokens, only changes the mode. */
  lemma OpenAngle(cls: Classes, ent: map<string, string>, names: string -> TagName, st: ReaderState, more: string)
    requires Good(st) && !st.eof && st.mode == InText && !st.clean
    requires st.src == ['<'] + more
    ensures var p := Advance(st.pos, '<', 1);
      var st' := st.(src := more, pos := p, mode := Opened, cur := CurText, text := Fresh, textPos := p);
      && ScanGood(Scan(st', "", '<', false))
      && Read(cls, ent, names, st) == ReadLoop(cls, ent, names, Scan(st', "", '<', false))
  {
    assert (['<'] + more)[1..] == more;
    Unroll(cls, ent, names, Scan(st, "", '\0', false));
  }

  /** The first rune of a text token opens a fresh `CharData` where the reader stands after it. */
  lemma TextOpens(cls: Classes, ent: map<string, string>, names: string -> TagName, st: ReaderState, c: char, more: string)
    requires Good(st) && !st.eof && st.mode == InText && !st.clean
    requires st.src == [c] + more && c != '<'
    ensures var p := Advance(st.pos, c, Width(c));
      var st' := st.(src := more, pos := p, clean := true, text := NextText(cls, ent, Fresh, c).0, textPos := p, cur := CurText);
      && ScanGood(Scan(st', "", c, false))
      && Read(cls, ent, names, st) == ReadLoop(cls, ent, names, Scan(st', "", c, false))
  {
    assert ([c] + more)[1..] == more;
    Unroll(cls, ent, names, Scan(st, "", '\0', false));
  }

  /** After `<`, a rune other than `/` opens a start tag and starts its name. */
  lemma StartOpens(cls: Classes, ent: map<string, string>, names: string -> TagName, st: ReaderState, r: char, c: char, more: string)
    requires ScanGood(Scan(st, "", r, false)) && st.mode == Opened
    requires st.src == [c] + more && c != '/'
    ensures var q := Advance(st.pos, c, Width(c));
      var st' := st.(src := more, pos := q, mode := InStart, sub := ReadingName,
                     cur := CurStart(StartElement("", Name("", ""), q.(col := q.col - 1), false)), clean := true);
      && ScanGood(Scan(st', [c], c, false))
      && ReadLoop(cls, ent, names, Scan(st, "", r, false)) == ReadLoop(cls, ent, names, Scan(st', [c], c, false))
  {
    assert ([c] + more)[1..] == more;
    Unroll(cls, ent, names, Scan(st, "", r, false));
  }

  /** After `<`, a `/` opens an end tag. */
  lemma EndOpens(cls: Classes, ent: map<string, string>, names: string -> TagName, st: ReaderState, r: char, more: string)
    requires ScanGood(Scan(st, "", r, false)) && st.mode == Opened
    requires st.src == ['/'] + more
    ensures var q := Advance(st.pos, '/', 1);
      var st' := st.(src := more, pos := q, mode := InEnd, sub := ReadingName,
                     cur := CurEnd(EndElement("", Name("", ""), q.(col := q.col - 1), false)), clean := true);
      && ScanGood(Scan(st', "", '/', false))
      && ReadLoop(cls, ent, names, Scan(st, "", r, false)) == ReadLoop(cls, ent, names, Scan(st', "", '/', false))
  {
    assert (['/'] + more)[1..] == more;
    Unroll(cls, ent, names, Scan(st, "", r, false));
  }

  /** The rune after a start tag's name names the element and is read again among the attributes. */
  lemma StartNamed(cls: Classes, ent: map<string, string>, names: string -> TagName,
                   st: ReaderState, tmp: string, r: char, c: char, more: string)
    requires ScanGood(Scan(st, tmp, r, false)) && st.mode == InStart && st.sub == ReadingName
    requires st.src == [c] + more && !IsTagChar(cls, c)
    ensures var st' := st.(src := more, pos := Advance(st.pos, c, Width(c)), sub := Attrs,
                           cur := CurStart(st.cur.s.(view := names(tmp).view, name := names(tmp).name)));
      && ScanGood(Scan(st', tmp, c, true))
      && ReadLoop(cls, ent, names, Scan(st, tmp, r, false)) == ReadLoop(cls, ent, names, Scan(st', tmp, c, true))
  {
    assert ([c] + more)[1..] == more;
    Unroll(cls, ent, names, Scan(st, tmp, r, false));
  }

  /** `>` among the attributes or after `/` returns the start element. */
  lemma StartCloses(cls: Classes, ent: map<string, string>, names: string -> TagName,
                    st: ReaderState, tmp: string, r: char, skip: bool)
    requires ScanGood(Scan(st, tmp, r, skip)) && st.mode == InStart && st.sub != ReadingName
    requires if skip then r == '>' else st.src != [] && st.src[0] == '>'
    ensures var st' := if skip then st else st.(src := st.src[1..], pos := Advance(st.pos, '>', 1));
      ReadLoop(cls, ent, names, Scan(st, tmp, r, skip)) == YieldStart(st', st.cur.s)
  {
    Unroll(cls, ent, names, Scan(st, tmp, r, skip));
  }

  /** `/` among the attributes, read again after the name, marks the element self-closing. */
  lemma StartSlash(cls: Classes, ent: map<string, string>, names: string -> TagName, st: ReaderState, tmp: string)
    requires ScanGood(Scan(st, tmp, '/', true)) && st.mode == InStart && st.sub == Attrs
    ensures var st' := st.(sub := Closing, cur := CurStart(st.cur.s.(selfClosing := true)));
      && ScanGood(Scan(st', tmp, '/', false))
      && ReadLoop(cls, ent, names, Scan(st, tmp, '/', true)) == ReadLoop(cls, ent, names, Scan(st', tmp, '/', false))
  {
    Unroll(cls, ent, names, Scan(st, tmp, '/', true));
  }

  /** `>` ends an end tag, named by the runes collected if there are any. */
  lemma EndCloses(cls: Classes, ent: map<string, string>, names: string -> TagName,
                  st: ReaderState, tmp: string, r: char, more: string)
    requires ScanGood(Scan(st, tmp, r, false)) && st.mode == InEnd
    requires st.src == ['>'] + more && !IsTagChar(cls, '>')
    ensures var e := if tmp == [] then st.cur.e else st.cur.e.(view := names(tmp).view, name := names(tmp).name);
      var st' := st.(src := more, pos := Advance(st.pos, '>', 1), cur := CurEnd(e));
      && Good(st') && !st'.eof && st'.mode == InEnd
      && ReadLoop(cls, ent, names, Scan(st, tmp, r, false)) == CloseEnd(st', e)
  {
    assert (['>'] + more)[1..] == more;
    Unroll(cls, ent, names, Scan(st, tmp, r, false));
  }

  /** At the end of the input the loop returns what `AtEof` does. */
  lemma Ends(cls: Classes, ent: map<string, string>, names: string -> TagName, st: ReaderState, tmp: string, r: char)
    requires ScanGood(Scan(st, tmp, r, false)) && st.src == []
    ensures ReadLoop(cls, ent, names, Scan(st, tmp, r, false)) == AtEof(st)
  {
    Unroll(cls, ent, names, Scan(st, tmp, r, false));
  }

  /** `<` in a `CharData` outside an escape returns the text if there is any. */
  lemma TextCloses(cls: Classes, ent: map<string, string>, names: string -> TagName,
                   st: ReaderState, tmp: string, r: char, more: string)
    requires ScanGood(Scan(st, tmp, r, false)) && st.mode == InText && st.clean && st.cur == CurText
    requires st.src == ['<'] + more && st.text.mode == Plain && st.text.val != []
    ensures ReadLoop(cls, ent, names, Scan(st, tmp, r, false))
      == (st.(src := more, pos := Advance(st.pos, '<', 1), mode := Opened, clean := false, text := st.text.(val := "")),
          Yield(Text(Final(st.text), st.textPos), None))
  {
    assert (['<'] + more)[1..] == more;
    Unroll(cls, ent, names, Scan(st, tmp, r, false));
  }

  /** A text token read up to the end of the input or a `<`. */
  lemma TextRead(cls: Classes, ent: map<string, string>, names: string -> TagName, st: ReaderState, s: string, tail: string)
    requires Good(st) && !st.eof && st.mode == InText && !st.clean
    requires st.src == s + tail && s != [] && Without(s, '<')
    ensures var p := Advance(st.pos, s[0], Width(s[0]));
      var st' := st.(src := tail, pos := Walk(p, s[1..]), clean := true, text := TextAfter(cls, ent, Fresh, s),
                     textPos := p, cur := CurText);
      && ScanGood(Scan(st', "", Last(s[0], s[1..]), false))
      && Read(cls, ent, names, st) == ReadLoop(cls, ent, names, Scan(st', "", Last(s[0], s[1..]), false))
  {
    assert s + tail == [s[0]] + (s[1..] + tail);
    TextOpens(cls, ent, names, st, s[0], s[1..] + tail);
    var p := Advance(st.pos, s[0], Width(s[0]));
    var st1 := st.(src := s[1..] + tail, pos := p, clean := true, text := NextText(cls, ent, Fresh, s[0]).0,
                   textPos := p, cur := CurText);
    TextRun(cls, ent, names, st1, "", s[0], s[1..], tail);
  }

  /** The end of the input, or a `<` outside an escape, ends a text token. */
  lemma TextEnds(cls: Classes, ent: map<string, string>, names: string -> TagName, st: ReaderState, r: char)
    requires ScanGood(Scan(st, "", r, false)) && st.mode == InText && st.clean && st.cur == CurText
    requires st.text.mode == Plain && (st.src == [] || st.src[0] == '<')
    ensures var res := ReadLoop(cls, ent, names, Scan(st, "", r, false));
      if st.text.val == [] then st.src == [] ==> res.1 == Yield(EndInput, None)
      else
        && res.1 == Yield(Text(Final(st.text), st.textPos), None)
        && res.0.stacks == st.stacks
        && res.0.src == if st.src == [] then [] else st.src[1..]
  {
    if st.src == [] {
      Ends(cls, ent, names, st, "", r);
    } else if st.text.val != [] {
      assert st.src == ['<'] + st.src[1..];
      TextCloses(cls, ent, names, st, "", r, st.src[1..]);
    }
  }

  /** A text token without escapes, read up to the end of the input or a `<`. */
  lemma PlainTextRead(cls: Classes, ent: map<string, string>, names: string -> TagName,
                      st: ReaderState, s: string, tail: string)
    requires Good(st) && !st.eof && st.mode == InText && !st.clean
    requires st.src == s + tail && s != [] && Without(s, '<') && (tail == [] || tail[0] == '<')
    requires TextAfter(cls, ent, Fresh, s).mode == Plain && TextAfter(cls, ent, Fresh, s).last <= |TextAfter(cls, ent, Fresh, s).val|
    ensures var t := TextAfter(cls, ent, Fresh, s);
      var res := Read(cls, ent, names, st);
      if t.val == [] then tail == [] ==> res.1 == Yield(EndInput, None)
      else
        && res.1 == Yield(Text(Final(t), Advance(st.pos, s[0], Width(s[0]))), None)
        && res.0.stacks == st.stacks
        && res.0.src == if tail == [] then [] else tail[1..]
  {
    TextRead(cls, ent, names, st, s, tail);
    var p := Advance(st.pos, s[0], Width(s[0]));
    var st' := st.(src := tail, pos := Walk(p, s[1..]), clean := true, text := TextAfter(cls, ent, Fresh, s),
                   textPos := p, cur := CurText);
    TextEnds(cls, ent, names, st', Last(s[0], s[1..]));
  }

  /**
   * Text without `<` or `&`, followed by the end of the input or by `<`,
   * is returned with its leading and trailing white space removed; blank
   * text at the end of the input gives `EndInput`. The token starts where
   * the reader stands after the first rune.
   */
  lemma PlainTextToken(cls: Classes, ent: map<string, string>, names: string -> TagName,
                       st: ReaderState, s: string, tail: string)
    requires Good(st) && !st.eof && st.mode == InText && !st.clean
    requires st.src == s + tail && (tail == [] || tail[0] == '<')
    requires forall i | 0 <= i < |s| :: s[i] != '<' && s[i] != '&'
    ensures var res := Read(cls, ent, names, st);
      if forall i | 0 <= i < |s| :: IsSpace(s[i]) then tail == [] ==> res.1 == Yield(EndInput, None)
      else
        && res.1 == Yield(Text(TrimEnd(TrimStart(s)), Advance(st.pos, s[0], Width(s[0]))), None)
        && res.0.stacks == st.stacks
        && res.0.src == if tail == [] then [] else tail[1..]
  {
    if s == [] {
      assert s + tail == tail;
      if tail == [] {
        Ends(cls, ent, names, st, "", '\0');
      }
    } else {
      WithoutAll(s, '<');
      PlainWritten(cls, ent, s);
      PlainTextTrimmed(cls, ent, s);
      PlainTextRead(cls, ent, names, st, s, tail);
    }
  }

  /** `<` and a first tag rune, read between tokens, open a fresh start element. */
  lemma StartTagOpened(cls: Classes, ent: map<string, string>, names: string -> TagName,
                       st: ReaderState, c: char, more: string)
    requires Good(st) && !st.eof && st.mode == InText && !st.clean
    requires st.src == ['<'] + ([c] + more) && c != '/'
    ensures var p := Advance(st.pos, '<', 1);
      var q := Advance(p, c, Width(c));
      var st' := st.(src := more, pos := q, mode := InStart, sub := ReadingName,
                     cur := CurStart(StartElement("", Name("", ""), q.(col := q.col - 1), false)), clean := true,
                     text := Fresh, textPos := p);
      && ScanGood(Scan(st', [c], c, false))
      && Read(cls, ent, names, st) == ReadLoop(cls, ent, names, Scan(st', [c], c, false))
  {
    OpenAngle(cls, ent, names, st, [c] + more);
    var p := Advance(st.pos, '<', 1);
    var st1 := st.(src := [c] + more, pos := p, mode := Opened, cur := CurText, text := Fresh, textPos := p);
    StartOpens(cls, ent, names, st1, '<', c, more);
  }

  /** `<` and a tag name, read between tokens, leave the name collected in a fresh start element. */
  lemma StartTagRead(cls: Classes, ent: map<string, string>, names: string -> TagName,
                     st: ReaderState, c: char, name: string, more: string)
    requires Good(st) && !st.eof && st.mode == InText && !st.clean
    requires st.src == ['<'] + ([c] + (name + more))
    requires IsTagChar(cls, c) && c != '/' && TagRunes(cls, name)
    ensures var p := Advance(st.pos, '<', 1);
      var q := Advance(p, c, Width(c));
      var st' := st.(src := more, pos := Walk(q, name), mode := InStart, sub := ReadingName,
                     cur := CurStart(StartElement("", Name("", ""), q.(col := q.col - 1), false)), clean := true,
                     text := Fresh, textPos := p);
      && ScanGood(Scan(st', [c] + name, Last(c, name), false))
      && Read(cls, ent, names, st) == ReadLoop(cls, ent, names, Scan(st', [c] + name, Last(c, name), false))
  {
    StartTagOpened(cls, ent, names, st, c, name + more);
    var p := Advance(st.pos, '<', 1);
    var q := Advance(p, c, Width(c));
    var st2 := st.(src := name + more, pos := q, mode := InStart, sub := ReadingName,
                   cur := CurStart(StartElement("", Name("", ""), q.(col := q.col - 1), false)), clean := true,
                   text := Fresh, textPos := p);
    StartNameRun(cls, ent, names, st2, [c], c, name, more);
  }

  /** `>` or `/>` after a start tag's name returns the element, pushed unless it closes itself. */
  lemma StartTagEnds(cls: Classes, ent: map<string, string>, names: string -> TagName,
                     st: ReaderState, tag: string, r: char, close: string, rest: string)
    requires ScanGood(Scan(st, tag, r, false)) && st.mode == InStart && st.sub == ReadingName
    requires !st.cur.s.selfClosing
    requires close == ">" || close == "/>"
    requires st.src == close + rest
    requires !IsAlnum(cls, '/') && !IsAlnum(cls, '>')
    ensures var res := ReadLoop(cls, ent, names, Scan(st, tag, r, false));
      var e := st.cur.s.(view := names(tag).view, name := names(tag).name, selfClosing := close == "/>");
      && res.1 == Yield(Start(e), None)
      && res.0.stacks == (if e.selfClosing then st.stacks else PushStack(st.stacks, e))
      && res.0.src == rest && res.0.mode == InText
  {
    var c := close[0];
    assert close + rest == [c] + (close + rest)[1..];
    StartNamed(cls, ent, names, st, tag, r, c, (close + rest)[1..]);
    var e := st.cur.s.(view := names(tag).view, name := names(tag).name);
    var st4 := st.(src := (close + rest)[1..], pos := Advance(st.pos, c, Width(c)), sub := Attrs, cur := CurStart(e));
    if close == "/>" {
      StartSlash(cls, ent, names, st4, tag);
      var st5 := st4.(sub := Closing, cur := CurStart(e.(selfClosing := true)));
      assert st5.src == ['>'] + rest;
      StartCloses(cls, ent, names, st5, tag, '/', false);
      assert st5.src[1..] == rest;
    } else {
      StartCloses(cls, ent, names, st4, tag, '>', true);
      assert st4.src == rest;
    }
  }

  /**
   * `<tag>` is returned as a start element named by `tag` and pushed on its
   * view's stack; `<tag/>` is returned self-closing and pushes nothing.
   */
  lemma StartTagToken(cls: Classes, ent: map<string, string>, names: string -> TagName,
                      st: ReaderState, tag: string, close: string, rest: string)
    requires Good(st) && !st.eof && st.mode == InText && !st.clean
    requires close == ">" || close == "/>"
    requires st.src == ['<'] + (tag + (close + rest))
    requires tag != [] && forall i | 0 <= i < |tag| :: IsTagChar(cls, tag[i])
    requires !IsAlnum(cls, '/') && !IsAlnum(cls, '>')
    ensures var res := Read(cls, ent, names, st);
      && res.1.Yield? && res.1.token.Start? && res.1.err == None
      && var e := res.1.token.start;
      && e.view == names(tag).view && e.name == names(tag).name
      && e.selfClosing == (close == "/>")
      && res.0.stacks == (if e.selfClosing then st.stacks else PushStack(st.stacks, e))
      && res.0.src == rest && res.0.mode == InText
  {
    var c, name := tag[0], tag[1..];
    assert tag == [c] + name;
    assert tag + (close + rest) == [c] + (name + (close + rest));
    TagRunesAll(cls, name);
    StartTagRead(cls, ent, names, st, c, name, close + rest);
    var p := Advance(st.pos, '<', 1);
    var q := Advance(p, c, Width(c));
    var st' := st.(src := close + rest, pos := Walk(q, name), mode := InStart, sub := ReadingName,
                   cur := CurStart(StartElement("", Name("", ""), q.(col := q.col - 1), false)), clean := true,
                   text := Fresh, textPos := p);
    StartTagEnds(cls, ent, names, st', tag, Last(c, name), close, rest);
  }

  /** `</`, read between tokens, opens a fresh end element. */
  lemma EndTagOpened(cls: Classes, ent: map<string, string>, names: string -> TagName,
                     st: ReaderState, more: string)
    requires Good(st) && !st.eof && st.mode == InText && !st.clean
    requires st.src == ['<', '/'] + more
    ensures var p := Advance(st.pos, '<', 1);
      var q := Advance(p, '/', 1);
      var st' := st.(src := more, pos := q, mode := InEnd, sub := ReadingName,
                     cur := CurEnd(EndElement("", Name("", ""), q.(col := q.col - 1), false)), clean := true,
                     text := Fresh, textPos := p);
      && ScanGood(Scan(st', "", '/', false))
      && Read(cls, ent, names, st) == ReadLoop(cls, ent, names, Scan(st', "", '/', false))
  {
    var more' := ['/'] + more;
    assert st.src == ['<'] + more';
    OpenAngle(cls, ent, names, st, more');
    var p := Advance(st.pos, '<', 1);
    var st1 := st.(src := more', pos := p, mode := Opened, cur := CurText, text := Fresh, textPos := p);
    EndOpens(cls, ent, names, st1, '<', more);
  }

  /** `</` and a tag name, read between tokens, leave the name collected in a fresh end element. */
  lemma EndTagRead(cls: Classes, ent: map<string, string>, names: string -> TagName,
                   st: ReaderState, tag: string, more: string)
    requires Good(st) && !st.eof && st.mode == InText && !st.clean
    requires st.src == ['<', '/'] + (tag + more)
    requires TagRunes(cls, tag) && Without(tag, '>')
    ensures var p := Advance(st.pos, '<', 1);
      var q := Advance(p, '/', 1);
      var st' := st.(src := more, pos := Walk(q, tag), mode := InEnd, sub := ReadingName,
                     cur := CurEnd(EndElement("", Name("", ""), q.(col := q.col - 1), false)), clean := true,
                     text := Fresh, textPos := p);
      && ScanGood(Scan(st', tag, Last('/', tag), false))
      && Read(cls, ent, names, st) == ReadLoop(cls, ent, names, Scan(st', tag, Last('/', tag), false))
  {
    EndTagOpened(cls, ent, names, st, tag + more);
    var p := Advance(st.pos, '<', 1);
    var q := Advance(p, '/', 1);
    var st2 := st.(src := tag + more, pos := q, mode := InEnd, sub := ReadingName,
                   cur := CurEnd(EndElement("", Name("", ""), q.(col := q.col - 1), false)), clean := true,
                   text := Fresh, textPos := p);
    assert "" + tag == tag;
    EndNameRun(cls, ent, names, st2, "", '/', tag, more);
  }

  /** What `CloseEnd` returns for an end element named `tn`. */
  lemma Closed(st: ReaderState, e: EndElement)
    requires Good(st) && !st.eof && st.mode == InEnd && !e.abbrev && ByView(st.stacks)
    ensures var res := CloseEnd(st, e);
      if |StackOf(st.stacks, e.view)| == 0 then res.1 == Aborts(e.view)
      else
        var (top, below) := PopStack(st.stacks, e.view);
        && res.0.stacks == below && res.0.mode == InText && res.0.src == st.src
        && res.1.Yield? && res.1.token.End?
        && var e' := res.1.token.end;
        && e'.abbrev == IsZeroName(e.name)
        && e'.name == (if e'.abbrev then top.name else e.name)
        && e'.view == e.view
        && res.1.err == if e'.abbrev || NameString(e.name) == NameString(top.name) then None
                        else Some(WrongClosure(NameString(top.name), NameString(e.name)))
  {
    if |StackOf(st.stacks, e.view)| > 0 {
      PopByView(st.stacks, e.view);
    }
  }

  /**
   * `</tag>` pops the stack of the view `tag` names: with a name it is
   * compared with the popped element's and a difference is reported; with
   * none (`</>`) it takes the popped element's name and view. An empty
   * stack panics.
   */
  lemma EndTagToken(cls: Classes, ent: map<string, string>, names: string -> TagName,
                    st: ReaderState, tag: string, rest: string)
    requires Good(st) && !st.eof && st.mode == InText && !st.clean && ByView(st.stacks)
    requires st.src == ['<', '/'] + (tag + (['>'] + rest))
    requires forall i | 0 <= i < |tag| :: IsTagChar(cls, tag[i])
    requires !IsAlnum(cls, '>')
    ensures var res := Read(cls, ent, names, st);
      var tn := if tag == [] then TagName("", Name("", "")) else names(tag);
      if |StackOf(st.stacks, tn.view)| == 0 then res.1 == Aborts(tn.view)
      else
        var (top, below) := PopStack(st.stacks, tn.view);
        && res.0.stacks == below && res.0.src == rest && res.0.mode == InText
        && res.1.Yield? && res.1.token.End?
        && var e := res.1.token.end;
        && e.abbrev == IsZeroName(tn.name)
        && e.name == (if e.abbrev then top.name else tn.name)
        && e.view == tn.view
        && res.1.err == if e.abbrev || NameString(tn.name) == NameString(top.name) then None
                        else Some(WrongClosure(NameString(top.name), NameString(tn.name)))
  {
    TagRunesAll(cls, tag);
    WithoutAll(tag, '>');
    EndTagRead(cls, ent, names, st, tag, ['>'] + rest);
    var p := Advance(st.pos, '<', 1);
    var q := Advance(p, '/', 1);
    var st' := st.(src := ['>'] + rest, pos := Walk(q, tag), mode := InEnd, sub := ReadingName,
                   cur := CurEnd(EndElement("", Name("", ""), q.(col := q.col - 1), false)), clean := true,
                   text := Fresh, textPos := p);
    EndCloses(cls, ent, names, st', tag, Last('/', tag), rest);
    var tn := if tag == [] then TagName("", Name("", "")) else names(tag);
    var e := EndElement(tn.view, tn.name, q.(col := q.col - 1), false);
    Closed(st'.(src := rest, pos := Advance(st'.pos, '>', 1), cur := CurEnd(e)), e);
  }
}

/**
 * The escape sequences that the tokenizers decode: the `\x` tables of
 * inline text and of string values (rust/src/raw_tokenizer.rs:227-245 and
 * 460-470), and the `\uHEX;` form, whose hex digits go through
 * `u32::from_str_radix(_, 16)` and then `u32_to_char`.
 */
module Escapes {
  import opened Wrappers
  import Chars

  /** The char that `\c` stands for in inline text, if any. */
  function TextEscape(c: char): (r: Option<char>)
    ensures r.Some? <==> c in "\"<>'\\`afnrstv{|}"
    ensures r.Some? && c in "\"<>'\\`{|}" ==> r.value == c
  {
    match c
    case '"' => Some('"')
    case '<' => Some('<')
    case '>' => Some('>')
    case '\'' => Some('\'')
    case '\\' => Some('\\')
    case '`' => Some('`')
    case 'a' => Some('\U{0007}')
    case 'f' => Some('\U{000C}')
    case 'n' => Some('\n')
    case 'r' => Some('\r')
    case 's' => Some(' ')
    case 't' => Some('\t')
    case 'v' => Some('\U{000B}')
    case '{' => Some('{')
    case '|' => Some('|')
    case '}' => Some('}')
    case _ => None
  }

  /** The reduced table of string values: `\c` for a quote, a backslash or a control letter. */
  function StringEscape(c: char): (r: Option<char>)
    ensures r.Some? <==> c in "\"\\afnrtv"
  {
    match c
    case '"' => Some('"')
    case '\\' => Some('\\')
    case 'a' => Some('\U{0007}')
    case 'f' => Some('\U{000C}')
    case 'n' => Some('\n')
    case 'r' => Some('\r')
    case 't' => Some('\t')
    case 'v' => Some('\U{000B}')
    case _ => None
  }

  /** Every escape of a string value means in a string what it means in inline text. */
  lemma StringEscapeIsTextEscape(c: char)
    ensures StringEscape(c).Some? ==> TextEscape(c) == StringEscape(c)
    ensures TextEscape(c).Some? && !StringEscape(c).Some? <==> c in "<>'`s{|}"
  {
  }

  /**
   * `parse_special_char_escape(last, c)`, which the token parsers import from
   * `crate::chars` and call with the char before `c`.  The rust/src/chars.rs
   * of this model does not define it, so its definition is assumed: it
   * decodes `c` through the inline-text table when `last` is the backslash,
   * and refuses everything else.
   */
  function SpecialCharEscape(last: char, c: char): (r: Option<char>)
    ensures r.Some? <==> last == '\\' && c in "\"<>'\\`afnrstv{|}"
    ensures r.Some? ==> r == TextEscape(c)
  {
    if last == '\\' then TextEscape(c) else None
  }

  /** `char::is_digit(16)`. */
  predicate IsHexDigit(c: char)
  {
    '0' <= c <= '9' || 'a' <= c <= 'f' || 'A' <= c <= 'F'
  }

  predicate AllHex(s: string)
  {
    forall i :: 0 <= i < |s| ==> IsHexDigit(s[i])
  }

  function HexDigit(c: char): (d: nat)
    requires IsHexDigit(c)
    ensures d < 16
  {
    if c <= '9' then c as int - '0' as int
    else if c <= 'F' then c as int - 'A' as int + 10
    else c as int - 'a' as int + 10
  }

  /** The number that the hex digits `s` spell, most significant first. */
  function HexValue(s: string): nat
    requires AllHex(s)
  {
    if s == [] then 0 else HexValue(s[..|s| - 1]) * 16 + HexDigit(s[|s| - 1])
  }

  /**
   * The end of a `\uHEX;` escape: `from_str_radix` fails on no digits or a
   * value that does not fit in `u32`, and `u32_to_char` on a value that is not
   * a scalar.  The escape decodes exactly when there are digits and they spell
   * a scalar value; the char is then the one with that code point.
   */
  function DecodeHex(s: string): (r: Option<char>)
    requires AllHex(s)
    ensures r.Some? <==> |s| > 0 && Chars.IsScalar(HexValue(s))
    ensures r.Some? ==> r.value as int == HexValue(s)
  {
    if |s| == 0 || HexValue(s) >= 0x1_0000_0000 then None
    else match Chars.U32ToChar(HexValue(s))
      case Ok(c) => Some(c)
      case Err(_) => None
  }

  /** The hex digits of `1F4DA` decode to U+1F4DA, and those of `D801`, a surrogate, to nothing. */
  lemma DecodeHexExamples()
    ensures DecodeHex("1F4DA") == Some('\U{1F4DA}')
    ensures DecodeHex("10437") == Some('\U{10437}')
    ensures DecodeHex("D801") == None
    ensures DecodeHex("") == None
  {
    assert HexValue("1F4DA") == 0x1F4DA by {
      assert "1F4DA"[..4] == "1F4D" && "1F4D"[..3] == "1F4" && "1F4"[..2] == "1F" && "1F"[..1] == "1";
    }
    assert HexValue("10437") == 0x10437 by {
      assert "10437"[..4] == "1043" && "1043"[..3] == "104" && "104"[..2] == "10" && "10"[..1] == "1";
    }
    assert HexValue("D801") == 0xD801 by {
      assert "D801"[..3] == "D80" && "D80"[..2] == "D8" && "D8"[..1] == "D";
    }
  }
}

/** Google Test's printer of byte strings as C++ string literals (tools/gtest/src/gtest-printers.cc),
    read back by the rules of sections 2.2, 2.14.3 and 2.14.5 of ISO/IEC 14882:2011. */
module StringLiteral {
  import opened MachineWords
  import opened Wrappers

  // ---------- characters ----------

  datatype CharFormat = AsIs | HexEscape | SpecialEscape

  predicate IsPrintableAscii(c: byte) { 0x20 <= c <= 0x7E }

  predicate IsXDigit(c: int) { '0' as int <= c <= '9' as int || 'a' as int <= c <= 'f' as int || 'A' as int <= c <= 'F' as int }

  predicate IsOctalDigit(c: int) { '0' as int <= c <= '7' as int }

  function HexDigit(d: nat): char
    requires d < 16
  {
    if d < 10 then '0' + d as char else 'A' + (d - 10) as char
  }

  // The upper-case hexadecimal digits of a byte, without leading zeros.
  function UpperHex(c: byte): string {
    if c < 16 then [HexDigit(c)] else [HexDigit(c / 16), HexDigit(c % 16)]
  }

  // How a character is written inside quotes.
  function CharLiteral(c: byte): (string, CharFormat) {
    if c == 0 then ("\\0", SpecialEscape)
    else if c == '\'' as int then ("\\'", SpecialEscape)
    else if c == '\\' as int then ("\\\\", SpecialEscape)
    else if c == 7 then ("\\a", SpecialEscape)
    else if c == 8 then ("\\b", SpecialEscape)
    else if c == 12 then ("\\f", SpecialEscape)
    else if c == 10 then ("\\n", SpecialEscape)
    else if c == 13 then ("\\r", SpecialEscape)
    else if c == 9 then ("\\t", SpecialEscape)
    else if c == 11 then ("\\v", SpecialEscape)
    else if IsPrintableAscii(c) then ([c as char], AsIs)
    else ("\\x" + UpperHex(c), HexEscape)
  }

  function StringCharLiteral(c: byte): (string, CharFormat) {
    if c == '\'' as int then ("'", AsIs)
    else if c == '"' as int then ("\\\"", SpecialEscape)
    else CharLiteral(c)
  }

  // The text between the outer quotes, given how the preceding character was written.
  function Body(s: seq<byte>, previousHex: bool): string
    decreases |s|
  {
    if s == [] then "" else
    var (text, format) := StringCharLiteral(s[0]);
    Break(previousHex, s[0]) + text + Body(s[1..], format == HexEscape)
  }

  // A hexadecimal escape would take a hexadecimal digit after it; ending the literal keeps them apart.
  function Break(previousHex: bool, c: byte): string {
    if previousHex && IsXDigit(c) then "\" \"" else ""
  }

  /** How each byte is spelled inside a string literal: printable ASCII as itself, eight control characters, the backslash and
      the double quote by their escapes, and every other byte by its one or two hexadecimal digits. */
  lemma Spelling(c: byte)
    ensures 0x20 <= c <= 0x7E && c != 0x22 && c != 0x5C ==> StringCharLiteral(c) == ([c as char], AsIs)
    ensures StringCharLiteral(0x22) == ("\\\"", SpecialEscape) && StringCharLiteral(0x5C) == ("\\\\", SpecialEscape)
    ensures StringCharLiteral(0) == ("\\0", SpecialEscape)
    ensures 7 <= c <= 13 ==> StringCharLiteral(c) == (['\\', "abtnvfr"[c - 7]], SpecialEscape)
    ensures 0 < c < 7 || 13 < c < 0x10 ==> StringCharLiteral(c) == ("\\x" + ["0123456789ABCDEF"[c]], HexEscape)
    ensures 0x10 <= c < 0x20 || c >= 0x7F ==>
              StringCharLiteral(c) == ("\\x" + ["0123456789ABCDEF"[c / 16], "0123456789ABCDEF"[c % 16]], HexEscape)
  {
    HexDigitIs(c % 16);
    HexDigitIs(c / 16);
    hide HexDigit;
  }

  lemma HexDigitIs(d: nat)
    requires d < 16
    ensures HexDigit(d) == "0123456789ABCDEF"[d]
  {
  }

  /** The digits that a hexadecimal or an octal escape may take. */
  lemma EscapeDigits(c: char)
    ensures IsXDigit(c as int) <==> c in {'0', '1', '2', '3', '4', '5', '6', '7', '8', '9', 'A', 'B', 'C', 'D', 'E', 'F',
                                          'a', 'b', 'c', 'd', 'e', 'f'}
    ensures IsOctalDigit(c as int) <==> c in {'0', '1', '2', '3', '4', '5', '6', '7'}
  {
  }

  // ---------- the printers ----------

  class OStream {
    var text: string

    constructor ()
      ensures text == ""
    {
      text := "";
    }

    method Append(s: string)
      modifies this
      ensures text == old(text) + s
    {
      text := text + s;
    }
  }

  method PrintAsCharLiteralTo(c: byte, os: OStream) returns (format: CharFormat)
    modifies os
    ensures os.text == old(os.text) + CharLiteral(c).0 && format == CharLiteral(c).1
  {
    if c == 0 { os.Append("\\0"); }
    else if c == '\'' as int { os.Append("\\'"); }
    else if c == '\\' as int { os.Append("\\\\"); }
    else if c == 7 { os.Append("\\a"); }
    else if c == 8 { os.Append("\\b"); }
    else if c == 12 { os.Append("\\f"); }
    else if c == 10 { os.Append("\\n"); }
    else if c == 13 { os.Append("\\r"); }
    else if c == 9 { os.Append("\\t"); }
    else if c == 11 { os.Append("\\v"); }
    else if IsPrintableAscii(c) {
      os.Append([c as char]);
      return AsIs;
    } else {
      os.Append("\\x" + UpperHex(c));
      return HexEscape;
    }
    return SpecialEscape;
  }

  method PrintAsNarrowStringLiteralTo(c: byte, os: OStream) returns (format: CharFormat)
    modifies os
    ensures os.text == old(os.text) + StringCharLiteral(c).0 && format == StringCharLiteral(c).1
  {
    if c == '\'' as int {
      os.Append("'");
      return AsIs;
    } else if c == '"' as int {
      os.Append("\\\"");
      return SpecialEscape;
    }
    format := PrintAsCharLiteralTo(c, os);
  }

  method PrintCharsAsStringTo(s: seq<byte>, os: OStream)
    modifies os
    ensures os.text == old(os.text) + "\"" + Body(s, false) + "\""
  {
    hide StringCharLiteral, Body, Break;
    os.Append("\"");
    ghost var start := os.text;
    var isPreviousHex := false;
    for index := 0 to |s|
      invariant os.text + Body(s[index..], isPreviousHex) == start + Body(s, false)
    {
      var cur := s[index];
      BodyStep(s, index, isPreviousHex);
      ghost var before := os.text;
      if isPreviousHex && IsXDigit(cur) {
        os.Append("\" \"");
      }
      assert os.text == before + Break(isPreviousHex, cur) by { BreakIs(isPreviousHex, cur); }
      var format := PrintAsNarrowStringLiteralTo(cur, os);
      Regroup(before, Break(isPreviousHex, cur), StringCharLiteral(cur).0, Body(s[index + 1..], format == HexEscape));
      isPreviousHex := format == HexEscape;
    }
    assert os.text == start + Body(s, false) by { BodyEnd(s[|s|..], isPreviousHex); }
    os.Append("\"");
  }

  lemma BodyStep(s: seq<byte>, i: nat, previousHex: bool)
    requires i < |s|
    ensures Body(s[i..], previousHex) ==
            Break(previousHex, s[i]) + StringCharLiteral(s[i]).0 + Body(s[i + 1..], StringCharLiteral(s[i]).1 == HexEscape)
  {
    assert s[i..][1..] == s[i + 1..];
  }

  lemma BodyEnd(s: seq<byte>, previousHex: bool)
    requires s == []
    ensures Body(s, previousHex) == ""
  {
  }

  lemma BreakIs(previousHex: bool, c: byte)
    ensures Break(previousHex, c) == if previousHex && IsXDigit(c) then "\" \"" else ""
  {
  }

  lemma Regroup(a: string, b: string, c: string, d: string)
    ensures a + (b + c + d) == a + b + c + d
  {
  }

  // ---------- reading string literals ----------

  // Adjacent literals, separated by blanks, are concatenated.
  function ReadLiterals(t: string): Option<seq<byte>>
    decreases |t|
  {
    if t == "" then Some([])
    else if t[0] == ' ' then ReadLiterals(t[1..])
    else if t[0] == '"' then ReadInside(t[1..])
    else None
  }

  function ReadInside(t: string): Option<seq<byte>>
    decreases |t|
  {
    if t == "" || t[0] == '\n' then None
    else if t[0] == '"' then ReadLiterals(t[1..])
    else if t[0] != '\\' then
      if t[0] as int < 256 then Prepend(t[0] as int, ReadInside(t[1..])) else None
    else if |t| == 1 then None
    else if IsOctalDigit(t[1] as int) then
      var n := OctalRun(t[1..]);
      var v := OctalValue(t[1..1 + n]);
      if v < 256 then Prepend(v, ReadInside(t[1 + n..])) else None
    else if t[1] == 'x' then
      var n := HexRun(t[2..]);
      var v := HexValue(t[2..2 + n]);
      if n > 0 && v < 256 then Prepend(v, ReadInside(t[2 + n..])) else None
    else
      match SimpleEscape(t[1])
      case None => None
      case Some(v) => Prepend(v, ReadInside(t[2..]))
  }

  function Prepend(b: byte, r: Option<seq<byte>>): Option<seq<byte>> {
    if r.Some? then Some([b] + r.value) else None
  }

  function SimpleEscape(c: char): Option<byte> {
    match c
    case '\'' => Some('\'' as int)
    case '"' => Some('"' as int)
    case '?' => Some('?' as int)
    case '\\' => Some('\\' as int)
    case 'a' => Some(7)
    case 'b' => Some(8)
    case 'f' => Some(12)
    case 'n' => Some(10)
    case 'r' => Some(13)
    case 't' => Some(9)
    case 'v' => Some(11)
    case _ => None
  }

  // An octal escape takes up to three digits, a hexadecimal one as many as there are.
  function OctalRun(t: string): (n: nat)
    ensures n <= |t| && n <= 3
    ensures t != "" && IsOctalDigit(t[0] as int) ==> n > 0
  {
    if t == "" || !IsOctalDigit(t[0] as int) then 0
    else if |t| == 1 || !IsOctalDigit(t[1] as int) then 1
    else if |t| == 2 || !IsOctalDigit(t[2] as int) then 2
    else 3
  }

  function OctalValue(t: string): nat {
    if t == "" then 0 else OctalValue(t[..|t| - 1]) * 8 + DigitValue(t[|t| - 1])
  }

  function HexRun(t: string): (n: nat)
    ensures n <= |t|
  {
    if t == "" || !IsXDigit(t[0] as int) then 0 else 1 + HexRun(t[1..])
  }

  function HexValue(t: string): nat {
    if t == "" then 0 else HexValue(t[..|t| - 1]) * 16 + DigitValue(t[|t| - 1])
  }

  function DigitValue(c: char): nat {
    if '0' <= c <= '9' then c as int - '0' as int
    else if 'a' <= c <= 'z' then c as int - 'a' as int + 10
    else if 'A' <= c <= 'Z' then c as int - 'A' as int + 10
    else 0
  }

  // ---------- what the printed text denotes ----------

  // A printed NUL takes up to two following octal digits into its escape.
  function Denoted(s: seq<byte>): seq<byte>
    decreases |s|
  {
    if s == [] then []
    else if s[0] == 0 && |s| > 1 && IsOctalDigit(s[1]) then
      if |s| > 2 && IsOctalDigit(s[2]) then [(s[1] - 48) * 8 + (s[2] - 48)] + Denoted(s[3..])
      else [s[1] - 48] + Denoted(s[2..])
    else [s[0]] + Denoted(s[1..])
  }

  predicate NulBeforeOctal(s: seq<byte>) {
    exists i :: 0 <= i < |s| - 1 && s[i] == 0 && IsOctalDigit(s[i + 1])
  }

  lemma {:induction false} DenotedExact(s: seq<byte>)
    ensures |Denoted(s)| <= |s|
    ensures Denoted(s) == s <==> !NulBeforeOctal(s)
    decreases |s|
  {
    if s != [] {
      if s[0] == 0 && |s| > 1 && IsOctalDigit(s[1]) {
        if |s| > 2 && IsOctalDigit(s[2]) {
          DenotedExact(s[3..]);
        } else {
          DenotedExact(s[2..]);
        }
        assert |Denoted(s)| < |s|;
      } else {
        DenotedExact(s[1..]);
        assert NulBeforeOctal(s) <==> NulBeforeOctal(s[1..]) by {
          if i :| 0 <= i < |s| - 1 && s[i] == 0 && IsOctalDigit(s[i + 1]) {
            assert s[1..][i - 1] == s[i] && s[1..][i] == s[i + 1];
          }
          if i :| 0 <= i < |s[1..]| - 1 && s[1..][i] == 0 && IsOctalDigit(s[1..][i + 1]) {
            assert s[i + 1] == 0;
          }
        }
        assert s == [s[0]] + s[1..];
      }
    }
  }

  // ---------- the round trip ----------

  // The text that closes a printed string after its first characters.
  function Rest(s: seq<byte>, previousHex: bool): string { Body(s, previousHex) + "\"" }

  lemma RestStep(s: seq<byte>, previousHex: bool)
    requires s != []
    ensures Rest(s, previousHex) ==
            Break(previousHex, s[0]) + (StringCharLiteral(s[0]).0 + Rest(s[1..], StringCharLiteral(s[0]).1 == HexEscape))
  {
    hide StringCharLiteral, Break;
  }

  // A digit can be read next only if it is the next character and nothing separates it.
  lemma RestHead(s: seq<byte>, previousHex: bool)
    ensures Rest(s, previousHex) != ""
    ensures IsXDigit(Rest(s, previousHex)[0] as int) ==> s != [] && IsXDigit(s[0]) && !previousHex
    ensures s != [] && IsXDigit(s[0]) && !previousHex ==> Rest(s, previousHex) == [s[0] as char] + Rest(s[1..], false)
  {
    if s != [] {
      RestStep(s, previousHex);
      UnitHead(s[0]);
    }
  }

  lemma UnitHead(c: byte)
    ensures StringCharLiteral(c).0 != ""
    ensures IsXDigit(c) ==> StringCharLiteral(c) == ([c as char], AsIs)
    ensures !IsXDigit(c) ==> !IsXDigit(StringCharLiteral(c).0[0] as int)
  {
  }

  lemma ReadBreak(c: byte, t: string)
    requires IsXDigit(c)
    ensures ReadInside("\" \"" + t) == ReadInside(t)
  {
    var u := "\" \"" + t;
    assert u[1..][1..][1..] == t;
    assert ReadInside(u) == ReadLiterals(u[1..]);
    assert ReadLiterals(u[1..]) == ReadLiterals(u[1..][1..]);
  }

  lemma ReadPlain(c: byte, t: string)
    requires StringCharLiteral(c).1 == AsIs
    ensures ReadInside(StringCharLiteral(c).0 + t) == Prepend(c, ReadInside(t))
  {
    var u := StringCharLiteral(c).0 + t;
    assert StringCharLiteral(c).0 == [c as char];
    assert u[1..] == t;
  }

  lemma ReadSpecial(c: byte, t: string)
    requires StringCharLiteral(c).1 == SpecialEscape && c != 0
    ensures ReadInside(StringCharLiteral(c).0 + t) == Prepend(c, ReadInside(t))
  {
    var e := StringCharLiteral(c).0;
    assert |e| == 2 && e[0] == '\\' && SimpleEscape(e[1]) == Some(c) && !IsOctalDigit(e[1] as int) && e[1] != 'x';
    var u := e + t;
    assert u[2..] == t;
  }

  lemma ReadHex(c: byte, t: string)
    requires StringCharLiteral(c).1 == HexEscape && t != "" && !IsXDigit(t[0] as int)
    ensures ReadInside(StringCharLiteral(c).0 + t) == Prepend(c, ReadInside(t))
  {
    HexText(c);
    HexDigitsRead(c, t);
    hide StringCharLiteral, UpperHex, HexRun, HexValue;
    ReadHexDigits(UpperHex(c), c, t);
  }

  lemma HexText(c: byte)
    requires StringCharLiteral(c).1 == HexEscape
    ensures StringCharLiteral(c).0 == "\\x" + UpperHex(c) && |UpperHex(c)| > 0
  {
  }

  lemma ReadHexDigits(digits: string, c: byte, t: string)
    requires |digits| > 0 && HexRun(digits + t) == |digits| && HexValue(digits) == c
    ensures ReadInside("\\x" + digits + t) == Prepend(c, ReadInside(t))
  {
    var u := "\\x" + digits + t;
    hide HexRun, HexValue;
    assert u[0] == '\\' && u[1] == 'x' && u[2..] == digits + t;
    assert u[2..2 + |digits|] == digits && u[2 + |digits|..] == t;
  }

  lemma HexDigitsRead(c: byte, t: string)
    requires t != "" && !IsXDigit(t[0] as int)
    ensures HexRun(UpperHex(c) + t) == |UpperHex(c)| && HexValue(UpperHex(c)) == c
  {
    var digits := UpperHex(c);
    assert HexRun(t) == 0;
    if c < 16 {
      HexDigitRead(c);
      assert (digits + t)[1..] == t;
      assert digits[..0] == "" && HexValue("") == 0;
    } else {
      HexDigitRead(c / 16);
      HexDigitRead(c % 16);
      assert (digits + t)[1..][1..] == t;
      assert digits[..1] == [digits[0]] && digits[..1][..0] == "" && HexValue("") == 0;
      assert HexValue(digits[..1]) == c / 16;
    }
  }

  lemma HexDigitRead(d: nat)
    requires d < 16
    ensures IsXDigit(HexDigit(d) as int) && DigitValue(HexDigit(d)) == d
  {
  }

  lemma ReadOctal(u: string, n: nat, v: byte)
    requires |u| > 1 && u[0] == '\\' && u[1] == '0' && n == OctalRun(u[1..]) && v == OctalValue(u[1..1 + n])
    ensures ReadInside(u) == Prepend(v, ReadInside(u[1 + n..]))
  {
    hide OctalRun, OctalValue;
  }

  lemma NulValue(d: string)
    requires 1 <= |d| <= 3 && d[0] == '0' && forall i | 0 <= i < |d| :: IsOctalDigit(d[i] as int)
    ensures OctalValue(d) == if |d| == 1 then 0 else if |d| == 2 then d[1] as int - 48 else (d[1] as int - 48) * 8 + (d[2] as int - 48)
  {
    assert d[..1] == [d[0]] && d[..1][..0] == "";
    assert OctalValue(d[..1]) == 0;
    if |d| >= 2 {
      assert d[..2][..1] == d[..1];
      assert OctalValue(d[..2]) == d[1] as int - 48;
      if |d| == 2 { assert d[..2] == d; } else { assert d[..3] == d; }
    } else {
      assert d[..1] == d;
    }
  }

  predicate UpToTwoOctal(d: string) { |d| <= 2 && forall i | 0 <= i < |d| :: IsOctalDigit(d[i] as int) }

  // The value of a NUL's escape that took the digits d.
  function SwallowedValue(d: string): byte
    requires UpToTwoOctal(d)
  {
    if |d| == 0 then 0 else if |d| == 1 then d[0] as int - 48 else (d[0] as int - 48) * 8 + (d[1] as int - 48)
  }

  lemma ReadNulDigits(d: string, t: string)
    requires UpToTwoOctal(d) && (|d| == 2 || (t != "" && !IsOctalDigit(t[0] as int)))
    ensures ReadInside("\\0" + d + t) == Prepend(SwallowedValue(d), ReadInside(t))
  {
    var u := "\\0" + d + t;
    NulText(d, t);
    OctalRunIs(d, t);
    NulValue("0" + d);
    assert OctalValue("0" + d) == SwallowedValue(d);
    hide ReadInside, OctalRun, OctalValue, SwallowedValue;
    ReadOctal(u, 1 + |d|, SwallowedValue(d));
  }

  lemma NulText(d: string, t: string)
    ensures var u := "\\0" + d + t;
            && u[0] == '\\' && u[1] == '0' && u[1..] == "0" + d + t
            && u[1..2 + |d|] == "0" + d && u[2 + |d|..] == t
  {
  }

  lemma OctalRunIs(d: string, t: string)
    requires |d| <= 2 && (forall i | 0 <= i < |d| :: IsOctalDigit(d[i] as int))
    requires |d| == 2 || (t != "" && !IsOctalDigit(t[0] as int))
    ensures OctalRun("0" + d + t) == 1 + |d|
  {
    var v := "0" + d + t;
    assert v[0] == '0' && (|d| > 0 ==> v[1] == d[0]) && (|d| > 1 ==> v[2] == d[1]);
    assert |d| < 2 ==> v[1 + |d|] == t[0];
  }

  /** The printed text denotes the bytes, except that a NUL swallows the octal digits after it. */
  lemma {:induction false} ReadBack(s: seq<byte>, previousHex: bool)
    ensures ReadInside(Rest(s, previousHex)) == Some(Denoted(s))
    decreases |s|, 2
  {
    if s == [] {
      assert Rest(s, previousHex) == "\"";
      assert "\""[1..] == "";
    } else {
      var c, format := s[0], StringCharLiteral(s[0]).1;
      var unit, t := StringCharLiteral(c).0, Rest(s[1..], format == HexEscape);
      RestStep(s, previousHex);
      if previousHex && IsXDigit(c) {
        ReadBreak(c, unit + t);
      } else {
        assert Rest(s, previousHex) == unit + t;
      }
      ReadUnit(s);
    }
  }

  lemma ReadUnit(s: seq<byte>)
    requires s != []
    ensures ReadInside(StringCharLiteral(s[0]).0 + Rest(s[1..], StringCharLiteral(s[0]).1 == HexEscape)) == Some(Denoted(s))
    decreases |s|, 1
  {
    var c, format := s[0], StringCharLiteral(s[0]).1;
    var t := Rest(s[1..], format == HexEscape);
    RestHead(s[1..], format == HexEscape);
    if c == 0 {
      ReadNulUnit(s);
    } else {
      hide StringCharLiteral, Rest, ReadInside;
      ReadBack(s[1..], format == HexEscape);
      match format
      case AsIs => ReadPlain(c, t);
      case SpecialEscape => ReadSpecial(c, t);
      case HexEscape => ReadHex(c, t);
    }
  }

  lemma ReadNulUnit(s: seq<byte>)
    requires s != [] && s[0] == 0
    ensures ReadInside("\\0" + Rest(s[1..], false)) == Some(Denoted(s))
    decreases |s|, 0
  {
    hide Rest, ReadInside, StringCharLiteral;
    var n := Swallowed(s);
    var digits := SwallowedDigits(s, n);
    RestAfterNul(s, n);
    hide IsOctalDigit, SwallowedValue, Denoted;
    ReadBack(s[1 + n..], false);
    ReadNulDigits(digits, Rest(s[1 + n..], false));
    assert "\\0" + digits + Rest(s[1 + n..], false) == "\\0" + Rest(s[1..], false);
  }

  // How many of the characters after a NUL its escape takes, and these characters.
  function Swallowed(s: seq<byte>): (n: nat)
    requires s != []
    ensures n <= 2 && n < |s| && forall i | 1 <= i <= n :: IsOctalDigit(s[i])
  {
    if |s| > 1 && IsOctalDigit(s[1]) then if |s| > 2 && IsOctalDigit(s[2]) then 2 else 1 else 0
  }

  function SwallowedDigits(s: seq<byte>, n: nat): (digits: string)
    requires n <= 2 && n < |s| && forall i | 1 <= i <= n :: IsOctalDigit(s[i])
    ensures |digits| == n && UpToTwoOctal(digits)
  {
    seq(n, i requires 0 <= i < n => s[1 + i] as char)
  }

  lemma RestAfterNul(s: seq<byte>, n: nat)
    requires s != [] && s[0] == 0 && n == Swallowed(s)
    ensures Rest(s[1..], false) == SwallowedDigits(s, n) + Rest(s[1 + n..], false)
    ensures n == 2 || (Rest(s[1 + n..], false) != "" && !IsOctalDigit(Rest(s[1 + n..], false)[0] as int))
    ensures Denoted(s) == [SwallowedValue(SwallowedDigits(s, n))] + Denoted(s[1 + n..])
  {
    hide Rest;
    RestHead(s[1..], false);
    RestHead(s[1 + n..], false);
    if n > 0 {
      assert s[1..][1..] == s[2..];
      if n > 1 {
        RestHead(s[2..], false);
        assert s[2..][1..] == s[3..];
        assert SwallowedDigits(s, n) == [s[1] as char] + [s[2] as char];
      }
    }
  }

  /** The printed text, read as adjacent string literals, denotes the printed bytes exactly when no NUL
      is directly followed by an octal digit. */
  lemma PrintedDenotesBytes(s: seq<byte>)
    ensures ReadLiterals("\"" + Body(s, false) + "\"") == Some(Denoted(s))
    ensures ReadLiterals("\"" + Body(s, false) + "\"") == Some(s) <==> !NulBeforeOctal(s)
  {
    var text := "\"" + Body(s, false) + "\"";
    assert text[1..] == Rest(s, false);
    ReadBack(s, false);
    DenotedExact(s);
  }

  // ---------- why the literal is broken ----------

  lemma {:induction false} HexRunIs(digits: string, t: string)
    requires (forall i | 0 <= i < |digits| :: IsXDigit(digits[i] as int)) && t != "" && !IsXDigit(t[0] as int)
    ensures HexRun(digits + t) == |digits|
  {
    if digits == "" {
      assert digits + t == t;
    } else {
      assert (digits + t)[1..] == digits[1..] + t;
      HexRunIs(digits[1..], t);
    }
  }

  lemma UpperHexDigits(c: byte)
    ensures forall i | 0 <= i < |UpperHex(c)| :: IsXDigit(UpperHex(c)[i] as int)
  {
    HexDigitRead(c / 16);
    HexDigitRead(c % 16);
  }

  // Hexadecimal digits and a closing quote make at most one character.
  lemma ReadOneEscape(digits: string)
    requires |digits| > 0 && HexRun(digits + "\"") == |digits|
    ensures var r := ReadInside("\\x" + digits + "\""); r.None? || |r.value| == 1
  {
    var u := "\\x" + digits + "\"";
    hide HexRun, HexValue;
    assert u[0] == '\\' && u[1] == 'x' && u[2..] == digits + "\"";
    assert u[2..2 + |digits|] == digits && u[2 + |digits|..] == "\"";
    assert "\""[1..] == "";
  }

  lemma UnbrokenMisreads(c: byte, d: byte)
    requires StringCharLiteral(c).1 == HexEscape && IsXDigit(d)
    ensures ReadInside(StringCharLiteral(c).0 + [d as char] + "\"") != Some([c, d])
  {
    var digits := UpperHex(c) + [d as char];
    HexText(c);
    UpperHexDigits(c);
    hide StringCharLiteral, UpperHex, ReadInside, HexRun;
    HexRunIs(digits, "\"");
    ReadOneEscape(digits);
    assert "\\x" + digits + "\"" == StringCharLiteral(c).0 + [d as char] + "\"";
    assert |[c, d]| == 2;
  }

  lemma BrokenReads(c: byte, d: byte)
    requires StringCharLiteral(c).1 == HexEscape && IsXDigit(d)
    ensures ReadInside(StringCharLiteral(c).0 + (Break(true, d) + [d as char] + "\"")) == Some([c, d])
  {
    var tail := [d as char] + "\"";
    UnitHead(d);
    assert "\""[1..] == "" && ReadInside("\"") == Some([]);
    hide StringCharLiteral, ReadInside;
    ReadPlain(d, "\"");
    ReadBreak(d, tail);
    assert "\" \"" + tail == Break(true, d) + [d as char] + "\"";
    ReadHex(c, "\" \"" + tail);
    assert [d] + [] == [d] && [c] + [d] == [c, d];
  }

  /** A hexadecimal escape directly before a hexadecimal digit does not denote the two characters; with the
      break between them it does. */
  lemma BreakIsNeeded(c: byte, d: byte)
    requires StringCharLiteral(c).1 == HexEscape && IsXDigit(d)
    ensures ReadInside(StringCharLiteral(c).0 + [d as char] + "\"") != Some([c, d])
    ensures ReadInside(StringCharLiteral(c).0 + (Break(true, d) + [d as char] + "\"")) == Some([c, d])
  {
    hide *;
    UnbrokenMisreads(c, d);
    BrokenReads(c, d);
  }
}

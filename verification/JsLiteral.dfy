/** String literals as JavaScript reads them: sections 12.9.4 and 6.1.4 of ECMA-262
    (2023), for source text in strict mode, as in every module. */
module JsLexer {
  import opened Wrappers
  import opened Text

  /** `UTF16EncodeCodePoint` (section 11.1.1). */
  function Units(c: char): seq<nat> {
    var n := c as int;
    if n < 0x10000 then [n] else [(n - 0x10000) / 0x400 + 0xD800, (n - 0x10000) % 0x400 + 0xDC00]
  }

  /** The value of a string: its UTF-16 code units. */
  function Utf16(s: string): seq<nat> {
    if s == "" then [] else Units(s[0]) + Utf16(s[1..])
  }

  /** Section 12.7.2: the words that are no identifier in any code. */
  const RESERVED: set<string> := {
    "await", "break", "case", "catch", "class", "const", "continue", "debugger", "default", "delete", "do", "else", "enum",
    "export", "extends", "false", "finally", "for", "function", "if", "import", "in", "instanceof", "new", "null", "return",
    "super", "switch", "this", "throw", "true", "try", "typeof", "var", "void", "while", "with", "yield" }

  /** And those that are none in strict mode code, beside `yield`. */
  const STRICT_RESERVED: set<string> := {
    "let", "static", "implements", "interface", "package", "private", "protected", "public" }

  predicate IsReserved(word: string) {
    word in RESERVED || word in STRICT_RESERVED
  }

  /** Section 13.1.1: an identifier name that strict mode code can declare, as in
      `export function name`. */
  predicate IsBinding(name: string) {
    !IsReserved(name) && name != "eval" && name != "arguments"
  }

  predicate IsLineTerminator(c: char) {
    c == '\n' || c == '\r' || c == '\U{2028}' || c == '\U{2029}'
  }

  function HexValue(c: char): Option<nat> {
    if '0' <= c <= '9' then Some(c as int - '0' as int)
    else if 'a' <= c <= 'f' then Some(c as int - 'a' as int + 10)
    else if 'A' <= c <= 'F' then Some(c as int - 'A' as int + 10)
    else None
  }

  /** The number `n` hexadecimal digits spell. */
  function HexNumber(src: string, n: nat): Option<nat>
    requires n <= |src|
  {
    if n == 0 then Some(0)
    else
      var front, last := HexNumber(src, n - 1), HexValue(src[n - 1]);
      if front.Some? && last.Some? then Some(16 * front.value + last.value) else None
  }

  /** What is left to read, and what was read before it. */
  type Piece = Option<(seq<nat>, string)>

  /** After a `\u`: four digits, or any number of them in braces. */
  function UnicodeEscape(src: string): Piece {
    if |src| >= 1 && src[0] == '{' then
      var end := Find(src, '}');
      if end == |src| || end == 1 then None
      else
        var code := HexNumber(src[1..end], end - 1);
        if code.Some? && code.value <= 0x10FFFF then
          Some((if code.value < 0x10000 then [code.value] else [(code.value - 0x10000) / 0x400 + 0xD800, (code.value - 0x10000) % 0x400 + 0xDC00],
                src[end + 1..]))
        else None
    else if |src| < 4 || HexNumber(src, 4) == None then None
    else Some(([HexNumber(src, 4).value], src[4..]))
  }

  function SingleEscape(c: char): Option<nat> {
    if c == '\'' || c == '\"' || c == '\\' then Some(c as int)
    else if c == 'b' then Some(8)
    else if c == 't' then Some(9)
    else if c == 'n' then Some(10)
    else if c == 'v' then Some(11)
    else if c == 'f' then Some(12)
    else if c == 'r' then Some(13)
    else None
  }

  /** After a backslash. */
  function Escape(src: string): Piece {
    if src == "" then None
    else if SingleEscape(src[0]).Some? then Some(([SingleEscape(src[0]).value], src[1..]))
    else if src[0] == 'u' then UnicodeEscape(src[1..])
    else if src[0] == 'x' then
      if |src| < 3 || HexNumber(src[1..], 2) == None then None else Some(([HexNumber(src[1..], 2).value], src[3..]))
    else if '0' <= src[0] <= '9' then
      if src[0] == '0' && (|src| == 1 || !('0' <= src[1] <= '9')) then Some(([0], src[1..])) else None
    else if |src| >= 2 && src[0] == '\r' && src[1] == '\n' then Some(([], src[2..]))
    else if IsLineTerminator(src[0]) then Some(([], src[1..]))
    else Some((Units(src[0]), src[1..]))
  }

  lemma EscapeEats(src: string)
    ensures Escape(src).Some? ==> |Escape(src).value.1| < |src|
  {
  }

  /** The characters of a double-quoted literal, up to and over its closing quote. */
  function Characters(src: string): Piece
    decreases |src|
  {
    if src == "" then None
    else if src[0] == '\"' then Some(([], src[1..]))
    else if src[0] == '\\' then
      EscapeEats(src[1..]);
      var e := Escape(src[1..]);
      if e == None then None else Prepend(e.value.0, Characters(e.value.1))
    else if src[0] == '\n' || src[0] == '\r' then None
    else Prepend(Units(src[0]), Characters(src[1..]))
  }

  function Prepend(units: seq<nat>, p: Piece): Piece {
    if p == None then None else Some((units + p.value.0, p.value.1))
  }

  /** A double-quoted string literal at the head of `src`: its value, and the rest. */
  function Literal(src: string): Piece {
    if src != "" && src[0] == '\"' then Characters(src[1..]) else None
  }
}

/** `js_string` of `generate.rs`. */
module JsString {
  import opened Wrappers
  import opened Text
  import opened JsLexer

  function HexDigit(n: nat): char
    requires n < 16
  {
    if n < 10 then '0' + n as char else 'a' + (n - 10) as char
  }

  /** `{:04x}`. */
  function Hex4(n: nat): string
    requires n < 0x10000
  {
    [HexDigit(n / 4096), HexDigit(n / 256 % 16), HexDigit(n / 16 % 16), HexDigit(n % 16)]
  }

  function Escaped(c: char): string {
    if c == '\"' then "\\\""
    else if c == '\\' then "\\\\"
    else if c == '\n' then "\\n"
    else if c == '\r' then "\\r"
    else if c == '\U{2028}' then "\\u2028"
    else if c == '\U{2029}' then "\\u2029"
    else if IsControl(c) then "\\u" + Hex4(c as int)
    else [c]
  }

  function AllEscaped(s: string): string {
    if s == "" then "" else AllEscaped(s[..|s| - 1]) + Escaped(s[|s| - 1])
  }

  function Quoted(s: string): string {
    "\"" + AllEscaped(s) + "\""
  }

  lemma NothingEscaped()
    ensures AllEscaped("") == ""
  {
  }

  lemma NextEscaped(s: string, i: nat)
    requires i < |s|
    ensures AllEscaped(s[..i + 1]) == AllEscaped(s[..i]) + Escaped(s[i])
  {
    assert s[..i + 1][..i] == s[..i];
  }

  method Write(s: string) returns (out: string)
    ensures out == Quoted(s)
  {
    hide AllEscaped, Hex4;
    out := "\"";
    assert out + "" == out && AllEscaped("") == "" by { NothingEscaped(); }
    assert s[..0] == "";
    for i := 0 to |s|
      invariant out == "\"" + AllEscaped(s[..i])
    {
      var c := s[i];
      ghost var before := out;
      NextEscaped(s, i);
      if c == '\"' {
        out := out + "\\\"";
      } else if c == '\\' {
        out := out + "\\\\";
      } else if c == '\n' {
        out := out + "\\n";
      } else if c == '\r' {
        out := out + "\\r";
      } else if c == '\U{2028}' {
        out := out + "\\u2028";
      } else if c == '\U{2029}' {
        out := out + "\\u2029";
      } else if IsControl(c) {
        out := out + "\\u" + Hex4(c as int);
      } else {
        out := out + [c];
      }
      assert out == before + Escaped(c);
    }
    assert s[..|s|] == s;
    out := out + "\"";
  }

  lemma HexDigitReadsBack(n: nat)
    requires n < 16
    ensures HexValue(HexDigit(n)) == Some(n)
  {
  }

  lemma OneDigitMore(src: string, k: nat, front: nat, last: nat)
    requires k < |src| && (if k == 0 then front == 0 else HexNumber(src, k) == Some(front)) && HexValue(src[k]) == Some(last)
    ensures HexNumber(src, k + 1) == Some(16 * front + last)
  {
  }

  lemma Hex4ReadsBack(n: nat, rest: string)
    requires n < 0x10000
    ensures HexNumber(Hex4(n) + rest, 4) == Some(n) && (Hex4(n) + rest)[4..] == rest
    ensures Hex4(n)[0] != '{'
  {
    HexDigitReadsBack(n / 4096);
    HexDigitReadsBack(n / 256 % 16);
    HexDigitReadsBack(n / 16 % 16);
    HexDigitReadsBack(n % 16);
    var src := Hex4(n) + rest;
    hide HexDigit, HexValue, HexNumber;
    OneDigitMore(src, 0, 0, n / 4096);
    OneDigitMore(src, 1, n / 4096, n / 256 % 16);
    OneDigitMore(src, 2, n / 256, n / 16 % 16);
    OneDigitMore(src, 3, n / 16, n % 16);
  }

  lemma UnicodeEscapeReadsBack(n: nat, rest: string)
    requires n < 0x10000
    ensures Escape("u" + Hex4(n) + rest) == Some(([n], rest))
  {
    Hex4ReadsBack(n, rest);
    var src := "u" + Hex4(n) + rest;
    assert src[1..] == Hex4(n) + rest;
    assert src[1] == Hex4(n)[0];
  }

  /** One character, in front of anything. */
  lemma EscapedReadsBack(c: char, rest: string)
    ensures Characters(Escaped(c) + rest) == Prepend(Units(c), Characters(rest))
  {
    var src := Escaped(c) + rest;
    hide HexNumber, Hex4, Characters, UnicodeEscape;
    if Escaped(c) == [c] {
      OneCharacter(c, rest);
    } else {
      assert Escaped(c)[0] == '\\';
      var tail := Escaped(c)[1..];
      assert src == "\\" + (tail + rest);
      Backslash(tail + rest);
      if tail[0] == 'u' {
        UnicodeEscapeReadsBack(c as int, rest);
        LineSeparators();
        assert tail == "u" + Hex4(c as int);
      }
    }
  }

  lemma LineSeparators()
    ensures Hex4(0x2028) == "2028" && Hex4(0x2029) == "2029"
  {
  }

  lemma OneCharacter(c: char, rest: string)
    requires c != '\"' && c != '\\' && c != '\n' && c != '\r'
    ensures Characters([c] + rest) == Prepend(Units(c), Characters(rest))
  {
    assert ([c] + rest)[1..] == rest;
  }

  lemma Backslash(rest: string)
    ensures Characters("\\" + rest) ==
      if Escape(rest) == None then None else Prepend(Escape(rest).value.0, Characters(Escape(rest).value.1))
  {
    assert ("\\" + rest)[1..] == rest;
  }

  lemma {:induction false} Utf16Snoc(s: string)
    requires s != ""
    ensures Utf16(s) == Utf16(s[..|s| - 1]) + Units(s[|s| - 1])
  {
    if |s| == 1 {
      assert s[1..] == "" && s[..0] == "";
    } else {
      Utf16Snoc(s[1..]);
      assert s[1..][..|s| - 2] == s[..|s| - 1][1..];
    }
  }

  lemma {:induction false} AllEscapedReadBack(s: string, rest: string)
    ensures Characters(AllEscaped(s) + rest) == Prepend(Utf16(s), Characters(rest))
  {
    if s == "" {
      hide Characters;
      assert "" + rest == rest;
      PrependNothing(Characters(rest));
    } else {
      hide Characters, Escaped, Units;
      var init, c := s[..|s| - 1], s[|s| - 1];
      Utf16Snoc(s);
      AllEscapedReadBack(init, Escaped(c) + rest);
      EscapedReadsBack(c, rest);
      assert AllEscaped(s) + rest == AllEscaped(init) + (Escaped(c) + rest);
      PrependTwice(Utf16(init), Units(c), Characters(rest));
    }
  }

  lemma PrependNothing(p: Piece)
    ensures Prepend([], p) == p
  {
    if p.Some? {
      assert [] + p.value.0 == p.value.0;
    }
  }

  lemma PrependTwice(a: seq<nat>, b: seq<nat>, p: Piece)
    ensures Prepend(a, Prepend(b, p)) == Prepend(a + b, p)
  {
    if p.Some? {
      assert a + (b + p.value.0) == a + b + p.value.0;
    }
  }

  /** Whatever the string and whatever follows: a JavaScript lexer reads the literal as
      that string and stops exactly after it. */
  lemma LiteralReadsBack(s: string, rest: string)
    ensures Literal(Quoted(s) + rest) == Some((Utf16(s), rest))
  {
    hide Characters;
    AllEscapedReadBack(s, "\"" + rest);
    assert (Quoted(s) + rest)[1..] == AllEscaped(s) + ("\"" + rest);
    ClosingQuote(rest);
    assert Utf16(s) + [] == Utf16(s);
  }

  /** A character that stands for itself on one line of any text. */
  predicate Inert(c: char) {
    ' ' <= c && !('\U{7f}' <= c <= '\U{9f}') && !IsLineTerminator(c)
  }

  lemma EscapedIsInert(c: char)
    ensures forall i :: 0 <= i < |Escaped(c)| ==> Inert(Escaped(c)[i])
  {
    if IsControl(c) {
      HexDigitIsInert(c as int / 4096);
      HexDigitIsInert(c as int / 256 % 16);
      HexDigitIsInert(c as int / 16 % 16);
      HexDigitIsInert(c as int % 16);
      hide HexDigit, Inert;
    }
  }

  lemma HexDigitIsInert(n: nat)
    requires n < 16
    ensures Inert(HexDigit(n))
  {
  }

  /** Whatever the string, its literal is on one line and has no control character in it. */
  lemma {:induction false} LiteralIsOneLine(s: string)
    ensures forall i :: 0 <= i < |AllEscaped(s)| ==> Inert(AllEscaped(s)[i])
    ensures forall i :: 0 <= i < |Quoted(s)| ==> Inert(Quoted(s)[i])
  {
    hide Inert, Escaped;
    if s != "" {
      LiteralIsOneLine(s[..|s| - 1]);
      EscapedIsInert(s[|s| - 1]);
    }
    assert Inert('\"') by { QuoteIsInert(); }
  }

  lemma QuoteIsInert()
    ensures Inert('\"')
  {
  }

  lemma ClosingQuote(rest: string)
    ensures Characters("\"" + rest) == Some(([], rest))
  {
    assert ("\"" + rest)[1..] == rest;
  }

  /** So two strings never share a literal, nor a value. */
  lemma {:induction false} Utf16IsInjective(s: string, t: string)
    requires Utf16(s) == Utf16(t)
    ensures s == t
  {
    if s != "" && t != "" {
      var a, b := Units(s[0]), Units(t[0]);
      assert Utf16(s)[0] == a[0] && Utf16(t)[0] == b[0];
      assert |a| == 2 ==> Utf16(s)[1] == a[1];
      assert |b| == 2 ==> Utf16(t)[1] == b[1];
      SurrogatesAreNoCharacters(s[0]);
      SurrogatesAreNoCharacters(t[0]);
      assert a == b;
      assert s[0] == t[0];
      assert Utf16(s)[|a|..] == Utf16(s[1..]) && Utf16(t)[|b|..] == Utf16(t[1..]);
      Utf16IsInjective(s[1..], t[1..]);
    }
  }

  lemma SurrogatesAreNoCharacters(c: char)
    ensures |Units(c)| == 1 ==> !(0xD800 <= Units(c)[0] < 0xE000)
    ensures |Units(c)| == 2 ==> 0xD800 <= Units(c)[0] < 0xDC00 && 0xDC00 <= Units(c)[1] < 0xE000
  {
  }
}

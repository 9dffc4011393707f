/** `escapeForJs` of `pkg/webui/static/app.js`, against the way a JavaScript engine reads a string
    literal back (section 12.9.4 of ECMA-262, 14th edition). */
module JsEscape {
  import opened Wrappers

  /** `text.replace(/c/g, with)` */
  function ReplaceAll(text: string, c: char, with: string): string {
    if text == "" then "" else (if text[0] == c then with else [text[0]]) + ReplaceAll(text[1..], c, with)
  }

  function EscapeForJs(text: string): string {
    var a := ReplaceAll(text, '\\', "\\\\");
    var b := ReplaceAll(a, '\'', "\\'");
    var c := ReplaceAll(b, '"', "\\\"");
    var d := ReplaceAll(c, '\n', "\\n");
    ReplaceAll(d, '\r', "\\r")
  }

  function EscapeChar(c: char): string {
    if c == '\\' then "\\\\"
    else if c == '\'' then "\\'"
    else if c == '"' then "\\\""
    else if c == '\n' then "\\n"
    else if c == '\r' then "\\r"
    else [c]
  }

  function EscapeOnce(text: string): string {
    if text == "" then "" else EscapeChar(text[0]) + EscapeOnce(text[1..])
  }

  lemma {:induction false} ReplaceAllAppend(a: string, b: string, c: char, with: string)
    ensures ReplaceAll(a + b, c, with) == ReplaceAll(a, c, with) + ReplaceAll(b, c, with)
  {
    if a == "" {
      assert a + b == b;
    } else {
      ReplaceAllAppend(a[1..], b, c, with);
      assert (a + b)[1..] == a[1..] + b;
    }
  }

  lemma EscapeForJsAppend(a: string, b: string)
    ensures EscapeForJs(a + b) == EscapeForJs(a) + EscapeForJs(b)
  {
    ReplaceAllAppend(a, b, '\\', "\\\\");
    var a1, b1 := ReplaceAll(a, '\\', "\\\\"), ReplaceAll(b, '\\', "\\\\");
    ReplaceAllAppend(a1, b1, '\'', "\\'");
    var a2, b2 := ReplaceAll(a1, '\'', "\\'"), ReplaceAll(b1, '\'', "\\'");
    ReplaceAllAppend(a2, b2, '"', "\\\"");
    var a3, b3 := ReplaceAll(a2, '"', "\\\""), ReplaceAll(b2, '"', "\\\"");
    ReplaceAllAppend(a3, b3, '\n', "\\n");
    ReplaceAllAppend(ReplaceAll(a3, '\n', "\\n"), ReplaceAll(b3, '\n', "\\n"), '\r', "\\r");
  }

  lemma ReplaceOne(x: char, c: char, with: string)
    ensures ReplaceAll([x], c, with) == if x == c then with else [x]
  {
    assert [x][1..] == "";
  }

  lemma ReplaceTwo(x: char, y: char, c: char, with: string)
    requires x != c && y != c
    ensures ReplaceAll([x, y], c, with) == [x, y]
  {
    assert [x, y] == [x] + [y];
    ReplaceAllAppend([x], [y], c, with);
    ReplaceOne(x, c, with);
    ReplaceOne(y, c, with);
  }

  /** On one character at most one of the passes acts, and the later ones leave its result alone:
      this is why the backslash pass must come first. */
  lemma EscapeForJsChar(x: char)
    ensures EscapeForJs([x]) == EscapeChar(x)
  {
    ReplaceOne(x, '\\', "\\\\");
    ReplaceOne(x, '\'', "\\'");
    ReplaceOne(x, '"', "\\\"");
    ReplaceOne(x, '\n', "\\n");
    ReplaceOne(x, '\r', "\\r");
    ReplaceTwo('\\', '\\', '\'', "\\'");
    ReplaceTwo('\\', '\\', '"', "\\\"");
    ReplaceTwo('\\', '\\', '\n', "\\n");
    ReplaceTwo('\\', '\\', '\r', "\\r");
    ReplaceTwo('\\', '\'', '"', "\\\"");
    ReplaceTwo('\\', '\'', '\n', "\\n");
    ReplaceTwo('\\', '\'', '\r', "\\r");
    ReplaceTwo('\\', '"', '\n', "\\n");
    ReplaceTwo('\\', '"', '\r', "\\r");
    ReplaceTwo('\\', 'n', '\r', "\\r");
  }

  /** The five passes amount to one pass over the characters. */
  lemma {:induction false} EscapeForJsIsOnePass(text: string)
    ensures EscapeForJs(text) == EscapeOnce(text)
  {
    if text != "" {
      assert text == [text[0]] + text[1..];
      EscapeForJsAppend([text[0]], text[1..]);
      EscapeForJsChar(text[0]);
      EscapeForJsIsOnePass(text[1..]);
    }
  }

  /** The rest of a literal from behind its opening quote: its value, and what follows the closing
      quote.  None when it is not well formed: a raw CR or LF, or no closing quote.  Line
      continuations and escapes that start with a digit, `x` or `u` are not modelled and give None
      as well. */
  function ReadLiteral(s: string, quote: char): Option<(string, string)> {
    if s == "" || s[0] == '\n' || s[0] == '\r' then None
    else if s[0] == quote then Some(("", s[1..]))
    else if s[0] != '\\' then Prepend(Some(s[0]), ReadLiteral(s[1..], quote))
    else if |s| == 1 then None
    else Prepend(EscapeValue(s[1]), ReadLiteral(s[2..], quote))
  }

  function Prepend(c: Option<char>, rest: Option<(string, string)>): Option<(string, string)> {
    if c.Some? && rest.Some? then Some(([c.value] + rest.value.0, rest.value.1)) else None
  }

  function EscapeValue(c: char): Option<char> {
    if c == 'n' then Some('\n')
    else if c == 'r' then Some('\r')
    else if c == 't' then Some('\t')
    else if c == 'b' then Some(8 as char)
    else if c == 'v' then Some(11 as char)
    else if c == 'f' then Some(12 as char)
    else if '0' <= c <= '9' || c == 'x' || c == 'u' || c == '\n' || c == '\r' then None
    else if c == 0x2028 as char || c == 0x2029 as char then None
    else Some(c)
  }

  /** `text` in front of what was read. */
  function Before(text: string, rest: Option<(string, string)>): Option<(string, string)> {
    if rest.Some? then Some((text + rest.value.0, rest.value.1)) else None
  }

  lemma BeforeNothing(rest: Option<(string, string)>)
    ensures Before("", rest) == rest
  {
    if rest.Some? { assert "" + rest.value.0 == rest.value.0; }
  }

  lemma PrependBefore(text: string, rest: Option<(string, string)>)
    requires text != ""
    ensures Prepend(Some(text[0]), Before(text[1..], rest)) == Before(text, rest)
  {
    if rest.Some? { assert [text[0]] + (text[1..] + rest.value.0) == text + rest.value.0; }
  }

  lemma EscapedCharIsRead(c: char, tail: string, quote: char)
    requires quote == '\'' || quote == '"'
    ensures ReadLiteral(EscapeChar(c) + tail, quote) == Prepend(Some(c), ReadLiteral(tail, quote))
  {
    var head := EscapeChar(c);
    var body := head + tail;
    assert body[0] == head[0] && body[|head|..] == tail;
    if |head| == 2 {
      assert body[1] == head[1] && EscapeValue(head[1]) == Some(c);
    }
  }

  lemma Associates(a: string, b: string, c: string)
    ensures a + (b + c) == a + b + c
  {
  }

  /** Escaped text is read as the text, and reading goes on behind it. */
  lemma {:induction false} EscapedIsRead(text: string, tail: string, quote: char)
    requires quote == '\'' || quote == '"'
    ensures ReadLiteral(EscapeOnce(text) + tail, quote) == Before(text, ReadLiteral(tail, quote))
  {
    if text == "" {
      assert EscapeOnce(text) + tail == tail;
      BeforeNothing(ReadLiteral(tail, quote));
    } else {
      EscapedIsRead(text[1..], tail, quote);
      EscapedCharIsRead(text[0], EscapeOnce(text[1..]) + tail, quote);
      Associates(EscapeChar(text[0]), EscapeOnce(text[1..]), tail);
      PrependBefore(text, ReadLiteral(tail, quote));
    }
  }

  /** Between quotes of either kind the escaped text is a well-formed literal that ends at its closing
      quote, so it holds no raw line break and no unescaped quote, and its value is the text. */
  lemma EscapedTextReadsBack(text: string, quote: char, after: string)
    requires quote == '\'' || quote == '"'
    ensures ReadLiteral(EscapeForJs(text) + ([quote] + after), quote) == Some((text, after))
  {
    EscapeForJsIsOnePass(text);
    EscapedIsRead(text, [quote] + after, quote);
    assert ([quote] + after)[1..] == after && text + "" == text;
  }
}

/** `escapeForJs` where `pkg/webui/static/app.js` uses it: inside a single-quoted JavaScript literal
    that is itself inside a double-quoted HTML attribute, as in `onclick="removeDomain('...', false)"`.

    A browser first takes the attribute's value, which ends at the first double quote, then decodes
    the character references in it, and only then reads the literal.  Which references there are is
    a parameter, `decode`. */
module AttributeText {
  import opened Wrappers
  import opened JsEscape

  /** The value of an attribute from behind its opening quote. */
  function AttributeValue(html: string): string {
    if html == "" || html[0] == '"' then "" else [html[0]] + AttributeValue(html[1..])
  }

  /** The page from behind the attribute's opening quote, up to and including its closing quote. */
  function Attribute(call: string, text: string, after: string): string {
    call + "('" + EscapeForJs(text) + "'" + after + "\""
  }

  /** The first argument of the call as the browser reads it back, and what follows it. */
  function Argument(decode: string -> string, call: string, html: string): Option<(string, string)> {
    var script := decode(AttributeValue(html));
    if |script| >= |call| + 2 && script[..|call| + 2] == call + "('" then ReadLiteral(script[|call| + 2..], '\'') else None
  }

  predicate Plain(s: string) {
    '"' !in s && '&' !in s
  }

  lemma {:induction false} ValueStopsAtQuote(value: string, more: string)
    requires '"' !in value
    ensures AttributeValue(value + "\"" + more) == value
  {
    if value == "" {
      assert ("" + "\"" + more)[0] == '"';
    } else {
      var html := value + "\"" + more;
      assert html[0] == value[0] && html[1..] == value[1..] + "\"" + more;
      ValueStopsAtQuote(value[1..], more);
    }
  }

  lemma {:induction false} EscapeKeepsOut(text: string, c: char)
    requires c !in text && c in "\"&"
    ensures c !in EscapeOnce(text)
  {
    if text != "" {
      EscapeKeepsOut(text[1..], c);
      assert text[0] in text;
    }
  }

  lemma EscapeOnceCons(c: char, text: string)
    ensures EscapeOnce([c] + text) == EscapeChar(c) + EscapeOnce(text)
  {
    assert ([c] + text)[1..] == text;
  }

  lemma {:induction false} EscapeOnceAppend(a: string, b: string)
    ensures EscapeOnce(a + b) == EscapeOnce(a) + EscapeOnce(b)
  {
    if a == "" {
      assert a + b == b;
    } else {
      EscapeOnceAppend(a[1..], b);
      EscapeOnceCons(a[0], a[1..] + b);
      assert a + b == [a[0]] + (a[1..] + b);
      Associates(EscapeChar(a[0]), EscapeOnce(a[1..]), EscapeOnce(b));
    }
  }

  /** An attribute whose value decodes to a call with `literal` behind the opening quote. */
  lemma ArgumentOfValue(decode: string -> string, call: string, value: string, more: string, literal: string)
    requires '"' !in value && decode(value) == call + "('" + literal
    ensures Argument(decode, call, value + "\"" + more) == ReadLiteral(literal, '\'')
  {
    ValueStopsAtQuote(value, more);
    var script := decode(value);
    assert script[..|call| + 2] == call + "('" && script[|call| + 2..] == literal;
  }

  /** The value of the attribute when the text has no double quote... */
  lemma WholeValue(call: string, text: string, after: string)
    requires Plain(call) && Plain(after) && '"' !in text
    ensures AttributeValue(Attribute(call, text, after)) == call + "('" + (EscapeForJs(text) + ("'" + after))
  {
    var value := call + "('" + (EscapeForJs(text) + ("'" + after));
    EscapeForJsIsOnePass(text);
    EscapeKeepsOut(text, '"');
    assert Attribute(call, text, after) == value + "\"" + "";
    ValueStopsAtQuote(value, "");
  }

  /** ...and when it has one: the quote ends the attribute behind its backslash. */
  lemma CutValue(call: string, before: string, rest: string, after: string)
    requires Plain(call) && '"' !in before
    ensures AttributeValue(Attribute(call, before + "\"" + rest, after)) == call + "('" + (EscapeOnce(before) + "\\")
  {
    AttributeAroundQuote(call, before, rest, after);
    EscapeKeepsOut(before, '"');
    ValueStopsAtQuote(call + "('" + (EscapeOnce(before) + "\\"), EscapeOnce(rest) + "'" + after + "\"");
  }

  lemma ArgumentOfScript(decode: string -> string, call: string, html: string, literal: string)
    requires AttributeValue(html) == call + "('" + literal && decode(AttributeValue(html)) == AttributeValue(html)
    ensures Argument(decode, call, html) == ReadLiteral(literal, '\'')
  {
    var script := call + "('" + literal;
    assert script[..|call| + 2] == call + "('" && script[|call| + 2..] == literal;
  }

  /** A text without a double quote reaches the call as it is, if decoding leaves the value alone. */
  lemma QuotelessTextReadsBack(decode: string -> string, call: string, text: string, after: string)
    requires Plain(call) && Plain(after) && '"' !in text
    requires var value := AttributeValue(Attribute(call, text, after)); decode(value) == value
    ensures Argument(decode, call, Attribute(call, text, after)) == Some((text, after))
  {
    WholeValue(call, text, after);
    ArgumentOfScript(decode, call, Attribute(call, text, after), EscapeForJs(text) + ("'" + after));
    EscapedTextReadsBack(text, '\'', after);
    assert ['\''] + after == "'" + after;
  }

  /** With a double quote the literal is never closed, and there is no call. */
  lemma QuoteCutsLiteral(decode: string -> string, call: string, before: string, rest: string, after: string)
    requires Plain(call) && '"' !in before
    requires var value := AttributeValue(Attribute(call, before + "\"" + rest, after)); decode(value) == value
    ensures Argument(decode, call, Attribute(call, before + "\"" + rest, after)) == None
  {
    CutValue(call, before, rest, after);
    ArgumentOfScript(decode, call, Attribute(call, before + "\"" + rest, after), EscapeOnce(before) + "\\");
    EscapedIsRead(before, "\\", '\'');
    LoneBackslash();
  }

  lemma LoneBackslash()
    ensures ReadLiteral("\\", '\'') == None
  {
  }

  lemma AttributeAroundQuote(call: string, before: string, rest: string, after: string)
    ensures Attribute(call, before + "\"" + rest, after)
         == call + "('" + (EscapeOnce(before) + "\\") + "\"" + (EscapeOnce(rest) + "'" + after + "\"")
  {
    EscapeForJsIsOnePass(before + "\"" + rest);
    EscapedAroundQuote(before, rest);
  }

  lemma EscapedAroundQuote(before: string, rest: string)
    ensures EscapeOnce(before + "\"" + rest) == EscapeOnce(before) + "\\" + "\"" + EscapeOnce(rest)
  {
    assert before + "\"" + rest == before + ("\"" + rest);
    EscapeOnceAppend(before, "\"" + rest);
    EscapeOnceOfQuote(rest);
  }

  lemma EscapeOnceOfQuote(rest: string)
    ensures EscapeOnce("\"" + rest) == "\\" + "\"" + EscapeOnce(rest)
  {
    EscapeOnceCons('"', rest);
  }

  lemma {:induction false} FirstQuote(text: string) returns (i: nat)
    requires '"' in text
    ensures i < |text| && text[i] == '"' && '"' !in text[..i]
  {
    if text[0] == '"' {
      i := 0;
    } else {
      var k := FirstQuote(text[1..]);
      i := k + 1;
      assert text[..i] == [text[0]] + text[1..][..k];
    }
  }

  /** So wherever decoding leaves the attribute's value alone, the text comes back as it is exactly if it
      has no double quote. */
  lemma ReadsBackExactly(decode: string -> string, call: string, text: string, after: string)
    requires Plain(call) && Plain(after)
    requires var value := AttributeValue(Attribute(call, text, after)); decode(value) == value
    ensures Argument(decode, call, Attribute(call, text, after)) == Some((text, after)) <==> '"' !in text
  {
    if '"' in text {
      var i := FirstQuote(text);
      assert text == text[..i] + "\"" + text[i + 1..];
      QuoteCutsLiteral(decode, call, text[..i], text[i + 1..], after);
    } else {
      QuotelessTextReadsBack(decode, call, text, after);
    }
  }

  /** Text without an ampersand holds no references. */
  ghost predicate DecodesReferences(decode: string -> string) {
    forall s :: '&' !in s ==> decode(s) == s
  }

  /** Every text without an ampersand is such a text. */
  lemma PlainTextIsLeftAlone(decode: string -> string, call: string, text: string, after: string)
    requires DecodesReferences(decode) && Plain(call) && Plain(after) && '&' !in text
    ensures var value := AttributeValue(Attribute(call, text, after)); decode(value) == value
  {
    EscapeForJsIsOnePass(text);
    EscapeKeepsOut(text, '&');
    ValueKeepsOut(Attribute(call, text, after), '&');
  }

  lemma {:induction false} ValueKeepsOut(html: string, c: char)
    requires c !in html
    ensures c !in AttributeValue(html)
  {
    if html != "" && html[0] != '"' { ValueKeepsOut(html[1..], c); }
  }

  /** With an ampersand it need not: a text that spells the reference of a single quote is decoded
      before the literal is read, and comes back empty. */
  lemma ReferenceIsDecodedFirst(decode: string -> string, call: string, text: string, after: string)
    requires Plain(call) && Plain(after) && text == "&#39;"
    requires decode(call + "('" + text + "'" + after) == call + "('" + ("''" + after)
    ensures Argument(decode, call, Attribute(call, text, after)) == Some(("", "'" + after))
  {
    EscapeForJsIsOnePass(text);
    ReferenceIsNotEscaped(text);
    var script := call + "('" + text + "'" + after;
    assert Attribute(call, text, after) == script + "\"" + "";
    ArgumentOfValue(decode, call, script, "", "''" + after);
    assert ("''" + after)[0] == '\'' && ("''" + after)[1..] == "'" + after;
  }

  lemma {:induction false} ReferenceIsNotEscaped(text: string)
    requires forall c :: c in text ==> c in "&#39;"
    ensures EscapeOnce(text) == text
  {
    if text != "" {
      ReferenceIsNotEscaped(text[1..]);
      assert text[0] in text && EscapeChar(text[0]) == [text[0]];
    }
  }
}

/** `escapeHTML` (script.js): a text node's `innerHTML`, which the HTML
    Living Standard (section 13.3, "Serializing HTML fragments", escaping a
    string outside attribute mode) fixes as replacing `&`, U+00A0, `<` and
    `>` by entities and keeping every other character. */
module Escape {
  import opened Text

  /** U+00A0 NO-BREAK SPACE. */
  const Nbsp: char := 0xA0 as char

  /** The replacement text of one character in text mode. */
  function EscapeChar(c: char): string
  {
    if c == '&' then "&amp;"
    else if c == Nbsp then "&nbsp;"
    else if c == '<' then "&lt;"
    else if c == '>' then "&gt;"
    else [c]
  }

  /** `escapeHTML(str)`: every character replaced by its text-mode escape.
      The result holds no angle bracket, so as text content it cannot start a tag. */
  function EscapeHtml(s: string): (r: string)
    ensures '<' !in r && '>' !in r
    ensures |r| >= |s|
    decreases |s|
  {
    if s == [] then "" else EscapeChar(s[0]) + EscapeHtml(s[1..])
  }

  /** The replacement text of one character in attribute mode, with `<` and
      `>` escaped as well. */
  function EscapeAttributeChar(c: char): string
  {
    if c == '"' then "&quot;" else EscapeChar(c)
  }

  /** An escape fit for a double-quoted attribute value: besides the text-mode
      escapes it replaces `"`, so the value cannot end the attribute. */
  function EscapeAttribute(s: string): (r: string)
    ensures '"' !in r && '<' !in r && '>' !in r
    ensures |r| >= |s|
    decreases |s|
  {
    if s == [] then "" else EscapeAttributeChar(s[0]) + EscapeAttribute(s[1..])
  }

  predicate StartsWith(s: string, prefix: string)
  {
    |prefix| <= |s| && s[..|prefix|] == prefix
  }

  /** An HTML parser's reading of text: the five entities the escapes above
      emit become their characters; everything else is kept. */
  function Unescape(s: string): string
    decreases |s|
  {
    if s == [] then ""
    else if s[0] != '&' then [s[0]] + Unescape(s[1..])
    else if StartsWith(s, "&amp;") then "&" + Unescape(s[5..])
    else if StartsWith(s, "&nbsp;") then [Nbsp] + Unescape(s[6..])
    else if StartsWith(s, "&lt;") then "<" + Unescape(s[4..])
    else if StartsWith(s, "&gt;") then ">" + Unescape(s[4..])
    else if StartsWith(s, "&quot;") then "\"" + Unescape(s[6..])
    else [s[0]] + Unescape(s[1..])
  }

  /** A text whose second character is `x` does not start with an entity
      whose second character differs from `x`. */
  lemma NotStartsWith(e: string, ent: string)
    requires |e| >= 2 && |ent| >= 2 && e[1] != ent[1]
    ensures !StartsWith(e, ent)
  {
    assert |ent| <= |e| ==> e[..|ent|][1] == e[1];
  }

  /** Decoding a string that starts with `&amp;`. */
  lemma UnescapeAmp(t: string)
    ensures Unescape("&amp;" + t) == "&" + Unescape(t)
  {
    var e := "&amp;" + t;
    assert e[..5] == "&amp;" && e[5..] == t;
  }

  /** Decoding a string that starts with `&nbsp;`. */
  lemma UnescapeNbsp(t: string)
    ensures Unescape("&nbsp;" + t) == [Nbsp] + Unescape(t)
  {
    var e := "&nbsp;" + t;
    NotStartsWith(e, "&amp;");
    assert e[..6] == "&nbsp;" && e[6..] == t;
  }

  /** Decoding a string that starts with `&lt;`. */
  lemma UnescapeLt(t: string)
    ensures Unescape("&lt;" + t) == "<" + Unescape(t)
  {
    var e := "&lt;" + t;
    NotStartsWith(e, "&amp;");
    NotStartsWith(e, "&nbsp;");
    assert e[..4] == "&lt;" && e[4..] == t;
  }

  /** Decoding a string that starts with `&gt;`. */
  lemma UnescapeGt(t: string)
    ensures Unescape("&gt;" + t) == ">" + Unescape(t)
  {
    var e := "&gt;" + t;
    NotStartsWith(e, "&amp;");
    NotStartsWith(e, "&nbsp;");
    NotStartsWith(e, "&lt;");
    assert e[..4] == "&gt;" && e[4..] == t;
  }

  /** Decoding a string that starts with `&quot;`. */
  lemma UnescapeQuot(t: string)
    ensures Unescape("&quot;" + t) == "\"" + Unescape(t)
  {
    var e := "&quot;" + t;
    NotStartsWith(e, "&amp;");
    NotStartsWith(e, "&nbsp;");
    NotStartsWith(e, "&lt;");
    NotStartsWith(e, "&gt;");
    assert e[..6] == "&quot;" && e[6..] == t;
  }

  /** Reading back one text-mode escaped character gives that character. */
  lemma UnescapeEscapeChar(c: char, t: string)
    ensures Unescape(EscapeChar(c) + t) == [c] + Unescape(t)
  {
    if c == '&' {
      UnescapeAmp(t);
    } else if c == Nbsp {
      UnescapeNbsp(t);
    } else if c == '<' {
      UnescapeLt(t);
    } else if c == '>' {
      UnescapeGt(t);
    } else {
      var e := [c] + t;
      assert e[0] == c && e[1..] == t;
    }
  }

  /** Reading back one attribute-mode escaped character gives that character. */
  lemma UnescapeEscapeAttributeChar(c: char, t: string)
    ensures Unescape(EscapeAttributeChar(c) + t) == [c] + Unescape(t)
  {
    if c == '"' {
      UnescapeQuot(t);
    } else {
      UnescapeEscapeChar(c, t);
    }
  }

  /** Decoding the entities `escapeHTML` emits gives back the original text. */
  lemma {:induction false} UnescapeEscapeHtml(s: string)
    ensures Unescape(EscapeHtml(s)) == s
    decreases |s|
  {
    if s != [] {
      UnescapeEscapeHtml(s[1..]);
      UnescapeEscapeChar(s[0], EscapeHtml(s[1..]));
      assert [s[0]] + s[1..] == s;
    }
  }

  /** The same round trip for the attribute-mode escape. */
  lemma {:induction false} UnescapeEscapeAttribute(s: string)
    ensures Unescape(EscapeAttribute(s)) == s
    decreases |s|
  {
    if s != [] {
      UnescapeEscapeAttribute(s[1..]);
      UnescapeEscapeAttributeChar(s[0], EscapeAttribute(s[1..]));
      assert [s[0]] + s[1..] == s;
    }
  }

  /** Escaping loses nothing: different texts escape differently. */
  lemma EscapeHtmlInjective(s: string, t: string)
    requires EscapeHtml(s) == EscapeHtml(t)
    ensures s == t
  {
    UnescapeEscapeHtml(s);
    UnescapeEscapeHtml(t);
  }

  /** Text mode keeps `"` as it is, so its output can end a double-quoted
      attribute value. */
  lemma {:induction false} EscapeHtmlKeepsQuote(s: string)
    ensures '"' in s <==> '"' in EscapeHtml(s)
    decreases |s|
  {
    if s != [] {
      EscapeHtmlKeepsQuote(s[1..]);
      assert s == [s[0]] + s[1..];
    }
  }

  /** A character that text mode keeps as it is. */
  predicate PlainChar(c: char)
  {
    c != '&' && c != Nbsp && c != '<' && c != '>'
  }

  /** Text without the four special characters is its own escape. */
  lemma {:induction false} EscapeHtmlPlain(s: string)
    requires forall k :: 0 <= k < |s| ==> PlainChar(s[k])
    ensures EscapeHtml(s) == s
    decreases |s|
  {
    if s != [] {
      EscapeHtmlPlain(s[1..]);
      assert [s[0]] + s[1..] == s;
    }
  }

  /** On text without `"` the two escapes agree. */
  lemma {:induction false} EscapeAttributeWithoutQuote(s: string)
    requires '"' !in s
    ensures EscapeAttribute(s) == EscapeHtml(s)
    decreases |s|
  {
    if s != [] {
      assert s[0] in s;
      assert forall c :: c in s[1..] ==> c in s;
      EscapeAttributeWithoutQuote(s[1..]);
    }
  }

  /** Escaping distributes over concatenation. */
  lemma {:induction false} EscapeHtmlConcat(s: string, t: string)
    ensures EscapeHtml(s + t) == EscapeHtml(s) + EscapeHtml(t)
    decreases |s|
  {
    if s != [] {
      assert (s + t)[0] == s[0] && (s + t)[1..] == s[1..] + t;
      EscapeHtmlConcat(s[1..], t);
      calc {
        EscapeHtml(s + t);
        EscapeChar(s[0]) + EscapeHtml(s[1..] + t);
        EscapeChar(s[0]) + (EscapeHtml(s[1..]) + EscapeHtml(t));
        (EscapeChar(s[0]) + EscapeHtml(s[1..])) + EscapeHtml(t);
      }
    } else {
      assert s + t == t;
    }
  }
}

/** What `createCaseElement`, `renderCases` and `updateCaseCount` (script.js)
    put on the page, as values: the markup of one case, the list of case
    elements, and the count label. */
module Render {
  import opened Text
  import opened Escape
  import opened Cases

  /** A `div` of class `className` whose `innerHTML` is `innerHtml`. */
  datatype CaseElement = CaseElement(className: string, innerHtml: string)

  // ---------------------------------------------------------------------
  // The case template
  // ---------------------------------------------------------------------

  /** `<name attributes>`; `attributes` starts with a space when non-empty. */
  function StartTag(name: string, attributes: string): string
  {
    "<" + name + attributes + ">"
  }

  function EndTag(name: string): string
  {
    "</" + name + ">"
  }

  function Element(name: string, attributes: string, content: string): string
  {
    StartTag(name, attributes) + content + EndTag(name)
  }

  /** Line break and indentation that precede each line of the case template. */
  const Indent: string := "\n        "

  /** One tag label: a `span` holding the escaped tag. */
  function TagSpan(tag: string): string
  {
    Element("span", "", EscapeHtml(tag))
  }

  /** `tags.map(...)` with `TagSpan`. */
  function TagSpans(tags: seq<string>): (r: seq<string>)
    ensures |r| == |tags|
    decreases |tags|
  {
    if tags == [] then [] else [TagSpan(tags[0])] + TagSpans(tags[1..])
  }

  /** The attributes of the link after `href`. */
  const LinkAttributes: string := " target=\"_blank\" rel=\"noopener noreferrer\""

  /** The outbound link, with `hrefValue` as the text between the quotes of
      `href`. */
  function Anchor(hrefValue: string): string
  {
    Element("a", " href=\"" + hrefValue + "\"" + LinkAttributes, "Source")
  }

  /** Five template lines, each after a line break and indentation, and the
      closing line break. */
  function Lines(l1: string, l2: string, l3: string, l4: string, l5: string): string
  {
    Indent + l1 + Indent + l2 + Indent + l3 + Indent + l4 + Indent + l5 + "\n      "
  }

  /** The case template, with the href text given separately. */
  function Markup(c: Case, hrefValue: string): string
  {
    Lines(
      Element("h3", "", EscapeHtml(c.company)),
      Element("p", "", EscapeHtml(c.description)),
      Element("p", "", Anchor(hrefValue)),
      Element("div", " class=\"tags\"", Join(TagSpans(c.manipulationType), " ")),
      Element("small", " class=\"case-date\"", "Reported: " + EscapeHtml(c.reportedDate)))
  }

  /** The `innerHTML` that `createCaseElement` gives a case as written: every
      field goes through `escapeHTML`, the source URL included. */
  function CaseMarkup(c: Case): string
  {
    Markup(c, EscapeHtml(c.sourceUrl))
  }

  /** The same template with the href text escaped in attribute mode, so that
      a `"` in the URL cannot end the attribute value. */
  function SafeCaseMarkup(c: Case): string
  {
    Markup(c, EscapeAttribute(c.sourceUrl))
  }

  /** `createCaseElement(entry)`: a `div` of class `case` holding the card as
      written. */
  function CreateCaseElement(c: Case): CaseElement
  {
    CaseElement("case", CaseMarkup(c))
  }

  /** The elements `renderCases` appends, one per case, in order. */
  function CaseElements(cases: seq<Case>): (r: seq<CaseElement>)
    ensures |r| == |cases|
    decreases |cases|
  {
    if cases == [] then [] else [CreateCaseElement(cases[0])] + CaseElements(cases[1..])
  }

  /** The element at position `k` is the one for the case at position `k`. */
  lemma {:induction false} CaseElementsAt(cases: seq<Case>, k: nat)
    requires k < |cases|
    ensures CaseElements(cases)[k] == CreateCaseElement(cases[k])
    decreases |cases|
  {
    if k > 0 {
      CaseElementsAt(cases[1..], k - 1);
    }
  }

  /** Appending a case appends its element. */
  lemma {:induction false} CaseElementsAppend(cases: seq<Case>, c: Case)
    ensures CaseElements(cases + [c]) == CaseElements(cases) + [CreateCaseElement(c)]
    decreases |cases|
  {
    if cases == [] {
      assert cases + [c] == [c];
    } else {
      assert (cases + [c])[0] == cases[0] && (cases + [c])[1..] == cases[1..] + [c];
      CaseElementsAppend(cases[1..], c);
    }
  }

  // ---------------------------------------------------------------------
  // The count label
  // ---------------------------------------------------------------------

  /** The text `updateCaseCount` writes: the displayed and total counts when
      the search box holds any text, the total alone otherwise. */
  function CountLabel(searchValue: string, displayed: nat, total: nat): string
  {
    if searchValue != "" then
      "Displaying " + (Decimal(displayed) + (" of " + (Decimal(total) + " cases.")))
    else
      "Showing all " + (Decimal(total) + " cases.")
  }

  /** A numeral followed by a non-digit is delimited: equal texts give equal
      numerals. */
  lemma NumeralPrefix(a: string, x: string, b: string, y: string)
    requires AllDigits(a) && AllDigits(b)
    requires x != [] && !IsDigit(x[0]) && y != [] && !IsDigit(y[0])
    requires a + x == b + y
    ensures a == b && x == y
  {
    var m := if |a| < |b| then |a| else |b|;
    assert (a + x)[m] == (b + y)[m];
    assert a == (a + x)[..|a|];
    assert b == (b + y)[..|b|];
    assert x == (a + x)[|a|..];
    assert y == (b + y)[|b|..];
  }

  /** Removing the same prefix from equal texts leaves equal texts. */
  lemma DropPrefix(p: string, x: string, y: string)
    requires p + x == p + y
    ensures x == y
  {
    assert x == (p + x)[|p|..];
    assert y == (p + y)[|p|..];
  }

  /** The label tells whether a search is active, and gives back the total
      and, when a search is active, the displayed count. */
  lemma CountLabelDetermines(v1: string, d1: nat, t1: nat, v2: string, d2: nat, t2: nat)
    requires CountLabel(v1, d1, t1) == CountLabel(v2, d2, t2)
    ensures (v1 == "") == (v2 == "")
    ensures t1 == t2
    ensures v1 != "" ==> d1 == d2
  {
    assert (v1 == "") == (v2 == "") by {
      var l := CountLabel(v1, d1, t1);
      assert l[0] == (if v1 != "" then 'D' else 'S');
      assert l[0] == (if v2 != "" then 'D' else 'S');
    }
    var tail1 := Decimal(t1) + " cases.";
    var tail2 := Decimal(t2) + " cases.";
    if v1 != "" {
      DropPrefix("Displaying ", Decimal(d1) + (" of " + tail1), Decimal(d2) + (" of " + tail2));
      NumeralPrefix(Decimal(d1), " of " + tail1, Decimal(d2), " of " + tail2);
      DecimalInjective(d1, d2);
      DropPrefix(" of ", tail1, tail2);
    } else {
      DropPrefix("Showing all ", tail1, tail2);
    }
    NumeralPrefix(Decimal(t1), " cases.", Decimal(t2), " cases.");
    DecimalInjective(t1, t2);
  }

  // ---------------------------------------------------------------------
  // Angle brackets: the fields add none to the card
  // ---------------------------------------------------------------------

  /** The number of times `c` occurs in `s`. */
  function Occurrences(c: char, s: string): nat
  {
    multiset(s)[c]
  }

  /** Text without angle brackets. */
  predicate AngleFree(s: string)
  {
    '<' !in s && '>' !in s
  }

  /** An angle bracket. */
  predicate IsAngle(ch: char)
  {
    ch == '<' || ch == '>'
  }

  /** The element names and attribute text of the template hold no angle
      bracket. */
  lemma TagTextAngleFree()
    ensures AngleFree("") && AngleFree("h3") && AngleFree("p") && AngleFree("a")
    ensures AngleFree("span") && AngleFree("div") && AngleFree("small")
    ensures AngleFree(" class=\"tags\"") && AngleFree(" class=\"case-date\"")
  {
  }

  /** The link's attribute text holds no angle bracket. */
  lemma LinkTextAngleFree()
    ensures AngleFree(" href=\"") && AngleFree("\"") && AngleFree("Source")
  {
  }

  lemma LinkAttributesAngleFree()
    ensures AngleFree(LinkAttributes)
  {
  }

  /** The text between the elements holds no angle bracket. */
  lemma LayoutTextAngleFree()
    ensures AngleFree(Indent) && AngleFree("\n      ") && AngleFree("Reported: ")
    ensures AngleFree(" ")
  {
  }

  /** Counting distributes over concatenation. */
  lemma OccurrencesConcat(ch: char, s: string, t: string)
    ensures Occurrences(ch, s + t) == Occurrences(ch, s) + Occurrences(ch, t)
  {
    assert multiset(s + t) == multiset(s) + multiset(t);
  }

  lemma AngleFreeOccurrences(ch: char, s: string)
    requires IsAngle(ch) && AngleFree(s)
    ensures Occurrences(ch, s) == 0
  {
  }

  /** An element adds one `<` and one `>` at each end of its content. */
  lemma ElementAngles(ch: char, name: string, attributes: string, content: string)
    requires IsAngle(ch)
    requires AngleFree(name) && AngleFree(attributes)
    ensures Occurrences(ch, Element(name, attributes, content)) == 2 + Occurrences(ch, content)
  {
    var start := "<" + name + attributes + ">";
    var end := "</" + name + ">";
    OccurrencesConcat(ch, "<", name);
    OccurrencesConcat(ch, "<" + name, attributes);
    OccurrencesConcat(ch, "<" + name + attributes, ">");
    OccurrencesConcat(ch, "</", name);
    OccurrencesConcat(ch, "</" + name, ">");
    OccurrencesConcat(ch, start, content);
    OccurrencesConcat(ch, start + content, end);
    AngleFreeOccurrences(ch, name);
    AngleFreeOccurrences(ch, attributes);
    assert Occurrences(ch, "<") + Occurrences(ch, ">") == 1;
    assert Occurrences(ch, "</") + Occurrences(ch, ">") == 1;
  }

  /** An element holding escaped text has two of each angle bracket. */
  lemma EscapedElementAngles(ch: char, name: string, attributes: string, text: string)
    requires IsAngle(ch)
    requires AngleFree(name) && AngleFree(attributes)
    ensures Occurrences(ch, Element(name, attributes, EscapeHtml(text))) == 2
  {
    ElementAngles(ch, name, attributes, EscapeHtml(text));
    AngleFreeOccurrences(ch, EscapeHtml(text));
  }

  /** The tag labels have two of each angle bracket per tag. */
  lemma {:induction false} TagSpansAngles(ch: char, tags: seq<string>)
    requires IsAngle(ch)
    ensures Occurrences(ch, Join(TagSpans(tags), " ")) == 2 * |tags|
    decreases |tags|
  {
    if tags != [] {
      TagTextAngleFree();
      LayoutTextAngleFree();
      EscapedElementAngles(ch, "span", "", tags[0]);
      if |tags| > 1 {
        TagSpansAngles(ch, tags[1..]);
        assert TagSpans(tags)[1..] == TagSpans(tags[1..]);
        var rest := Join(TagSpans(tags[1..]), " ");
        assert Join(TagSpans(tags), " ") == TagSpan(tags[0]) + " " + rest;
        OccurrencesConcat(ch, TagSpan(tags[0]), " ");
        OccurrencesConcat(ch, TagSpan(tags[0]) + " ", rest);
        AngleFreeOccurrences(ch, " ");
      }
    }
  }

  lemma AngleFreeConcat(a: string, b: string)
    requires AngleFree(a) && AngleFree(b)
    ensures AngleFree(a + b)
  {
  }

  /** The link has two of each angle bracket when its href text has none. */
  lemma AnchorAngles(ch: char, hrefValue: string)
    requires IsAngle(ch) && AngleFree(hrefValue)
    ensures Occurrences(ch, Anchor(hrefValue)) == 2
  {
    LinkTextAngleFree();
    LinkAttributesAngleFree();
    TagTextAngleFree();
    AngleFreeConcat(" href=\"", hrefValue);
    AngleFreeConcat(" href=\"" + hrefValue, "\"");
    AngleFreeConcat(" href=\"" + hrefValue + "\"", LinkAttributes);
    ElementAngles(ch, "a", " href=\"" + hrefValue + "\"" + LinkAttributes, "Source");
    AngleFreeOccurrences(ch, "Source");
  }

  /** The tags line has two angle brackets of each kind, and two per tag. */
  lemma TagsLineAngles(ch: char, tags: seq<string>)
    requires IsAngle(ch)
    ensures Occurrences(ch, Element("div", " class=\"tags\"", Join(TagSpans(tags), " ")))
         == 2 + 2 * |tags|
  {
    TagTextAngleFree();
    TagSpansAngles(ch, tags);
    ElementAngles(ch, "div", " class=\"tags\"", Join(TagSpans(tags), " "));
  }

  /** The date line has two of each angle bracket. */
  lemma DateLineAngles(ch: char, date: string)
    requires IsAngle(ch)
    ensures Occurrences(ch, Element("small", " class=\"case-date\"", "Reported: " + EscapeHtml(date))) == 2
  {
    TagTextAngleFree();
    LayoutTextAngleFree();
    var content := "Reported: " + EscapeHtml(date);
    AngleFreeConcat("Reported: ", EscapeHtml(date));
    ElementAngles(ch, "small", " class=\"case-date\"", content);
    AngleFreeOccurrences(ch, content);
  }

  /** The link line has four of each angle bracket. */
  lemma LinkLineAngles(ch: char, hrefValue: string)
    requires IsAngle(ch) && AngleFree(hrefValue)
    ensures Occurrences(ch, Element("p", "", Anchor(hrefValue))) == 4
  {
    TagTextAngleFree();
    AnchorAngles(ch, hrefValue);
    ElementAngles(ch, "p", "", Anchor(hrefValue));
  }

  /** The heading and description lines have two of each angle bracket. */
  lemma TextLinesAngles(ch: char, c: Case)
    requires IsAngle(ch)
    ensures Occurrences(ch, Element("h3", "", EscapeHtml(c.company))) == 2
    ensures Occurrences(ch, Element("p", "", EscapeHtml(c.description))) == 2
  {
    TagTextAngleFree();
    EscapedElementAngles(ch, "h3", "", c.company);
    EscapedElementAngles(ch, "p", "", c.description);
  }

  /** Counting over the template lines. */
  lemma LinesOccurrences(ch: char, l1: string, l2: string, l3: string, l4: string, l5: string)
    requires IsAngle(ch)
    ensures Occurrences(ch, Lines(l1, l2, l3, l4, l5))
         == Occurrences(ch, l1) + Occurrences(ch, l2) + Occurrences(ch, l3)
          + Occurrences(ch, l4) + Occurrences(ch, l5)
  {
    LayoutTextAngleFree();
    AngleFreeOccurrences(ch, Indent);
    AngleFreeOccurrences(ch, "\n      ");
    var p1 := Indent + l1;
    OccurrencesConcat(ch, Indent, l1);
    var p2 := p1 + Indent + l2;
    OccurrencesConcat(ch, p1, Indent);
    OccurrencesConcat(ch, p1 + Indent, l2);
    var p3 := p2 + Indent + l3;
    OccurrencesConcat(ch, p2, Indent);
    OccurrencesConcat(ch, p2 + Indent, l3);
    var p4 := p3 + Indent + l4;
    OccurrencesConcat(ch, p3, Indent);
    OccurrencesConcat(ch, p3 + Indent, l4);
    var p5 := p4 + Indent + l5;
    OccurrencesConcat(ch, p4, Indent);
    OccurrencesConcat(ch, p4 + Indent, l5);
    OccurrencesConcat(ch, p5, "\n      ");
  }

  /** The angle brackets of the template, given the href text has none. */
  lemma MarkupAngles(ch: char, c: Case, hrefValue: string)
    requires IsAngle(ch) && AngleFree(hrefValue)
    ensures Occurrences(ch, Markup(c, hrefValue)) == 12 + 2 * |c.manipulationType|
  {
    TextLinesAngles(ch, c);
    LinkLineAngles(ch, hrefValue);
    TagsLineAngles(ch, c.manipulationType);
    DateLineAngles(ch, c.reportedDate);
    LinesOccurrences(ch,
      Element("h3", "", EscapeHtml(c.company)),
      Element("p", "", EscapeHtml(c.description)),
      Element("p", "", Anchor(hrefValue)),
      Element("div", " class=\"tags\"", Join(TagSpans(c.manipulationType), " ")),
      Element("small", " class=\"case-date\"", "Reported: " + EscapeHtml(c.reportedDate)));
  }

  /** Whatever the case holds, its markup has exactly the template's angle
      brackets: twelve for the fixed elements and two per tag label, so no
      field adds a `<` or `>` to the card. This is a count only: how a parser
      reads the attributes is the subject of the href lemmas below. */
  lemma CaseMarkupAngles(c: Case)
    ensures Occurrences('<', CaseMarkup(c)) == 12 + 2 * |c.manipulationType|
    ensures Occurrences('>', CaseMarkup(c)) == 12 + 2 * |c.manipulationType|
  {
    MarkupAngles('<', c, EscapeHtml(c.sourceUrl));
    MarkupAngles('>', c, EscapeHtml(c.sourceUrl));
  }

  // ---------------------------------------------------------------------
  // The href attribute
  // ---------------------------------------------------------------------

  /** The text an HTML parser takes as a double-quoted attribute value: all
      of `s` up to the first `"`. */
  function QuotedValue(s: string): (r: string)
    ensures '"' !in r
    decreases |s|
  {
    if s == [] || s[0] == '"' then "" else [s[0]] + QuotedValue(s[1..])
  }

  /** What follows the href text in the link. */
  const AfterHref: string := "\"" + LinkAttributes + ">Source</a>"

  /** The text after the href value starts by closing it. */
  lemma AfterHrefQuoted()
    ensures AfterHref != [] && AfterHref[0] == '"'
    ensures QuotedValue(AfterHref) == ""
  {
  }

  /** The link target a parser reads from `Anchor(hrefValue)`. */
  function ParsedHref(hrefValue: string): string
  {
    Unescape(QuotedValue(hrefValue + AfterHref))
  }

  /** The index of the first `"` in `s`, or `|s|` when there is none. */
  function FirstQuote(s: string): (i: nat)
    ensures i <= |s|
    ensures '"' !in s[..i]
    ensures i < |s| ==> s[i] == '"'
    decreases |s|
  {
    if s == [] then 0
    else if s[0] == '"' then 0
    else
      var i := 1 + FirstQuote(s[1..]);
      assert s[..i] == [s[0]] + s[1..][..i - 1];
      i
  }

  /** A prefix without `"` is part of the quoted value. */
  lemma {:induction false} QuotedValueSkips(p: string, t: string)
    requires '"' !in p
    ensures QuotedValue(p + t) == p + QuotedValue(t)
    decreases |p|
  {
    if p == [] {
      assert p + t == t;
    } else {
      assert (p + t)[0] == p[0] && (p + t)[1..] == p[1..] + t;
      QuotedValueSkips(p[1..], t);
    }
  }

  /** The escape of a character other than `"` is part of the quoted value. */
  lemma QuotedValueEscapeChar(c: char, t: string)
    requires c != '"'
    ensures QuotedValue(EscapeChar(c) + t) == EscapeChar(c) + QuotedValue(t)
  {
    assert '"' !in EscapeChar(c);
    QuotedValueSkips(EscapeChar(c), t);
  }

  /** The quoted value of escaped text ends at the escape of the first `"`. */
  lemma {:induction false} QuotedValueOfEscape(u: string, rest: string)
    requires rest != [] && rest[0] == '"'
    ensures QuotedValue(EscapeHtml(u) + rest) == EscapeHtml(u[..FirstQuote(u)])
    decreases |u|
  {
    if u == [] {
      assert EscapeHtml(u) + rest == rest;
    } else if u[0] == '"' {
      QuotedValueOfEscapeQuote(u, rest);
    } else {
      QuotedValueOfEscape(u[1..], rest);
      QuotedValueOfEscapeStep(u, rest);
    }
  }

  /** The quoted value ends at once when the text starts with `"`. */
  lemma QuotedValueOfEscapeQuote(u: string, rest: string)
    requires u != [] && u[0] == '"'
    ensures QuotedValue(EscapeHtml(u) + rest) == EscapeHtml(u[..FirstQuote(u)])
  {
    assert EscapeHtml(u) == EscapeChar(u[0]) + EscapeHtml(u[1..]);
    assert EscapeChar(u[0]) == "\"";
    assert (EscapeHtml(u) + rest)[0] == '"';
    assert u[..FirstQuote(u)] == [];
  }

  /** Escaping a text that starts with `c`. */
  lemma EscapeHtmlCons(c: char, p: string)
    ensures EscapeHtml([c] + p) == EscapeChar(c) + EscapeHtml(p)
  {
    assert ([c] + p)[0] == c && ([c] + p)[1..] == p;
  }

  /** One step of `QuotedValueOfEscape` for a first character other than `"`. */
  lemma QuotedValueOfEscapeStep(u: string, rest: string)
    requires u != [] && u[0] != '"'
    requires QuotedValue(EscapeHtml(u[1..]) + rest) == EscapeHtml(u[1..][..FirstQuote(u[1..])])
    ensures QuotedValue(EscapeHtml(u) + rest) == EscapeHtml(u[..FirstQuote(u)])
  {
    var t := EscapeHtml(u[1..]) + rest;
    var p := u[1..][..FirstQuote(u[1..])];
    assert [u[0]] + u[1..] == u;
    EscapeHtmlCons(u[0], u[1..]);
    assert EscapeHtml(u) + rest == EscapeChar(u[0]) + t;
    QuotedValueEscapeChar(u[0], t);
    assert u[..FirstQuote(u)] == [u[0]] + p;
    EscapeHtmlCons(u[0], p);
  }

  /** As written, the parser reads the source URL only up to its first `"`,
      so the link target survives exactly when the URL has no `"`; the rest
      of the URL becomes markup inside the `<a>` tag. */
  lemma HrefAsWritten(u: string)
    ensures ParsedHref(EscapeHtml(u)) == u[..FirstQuote(u)]
    ensures ParsedHref(EscapeHtml(u)) == u <==> '"' !in u
  {
    AfterHrefQuoted();
    QuotedValueOfEscape(u, AfterHref);
    UnescapeEscapeHtml(u[..FirstQuote(u)]);
    if '"' !in u {
      assert FirstQuote(u) == |u| && u[..|u|] == u;
    }
  }

  /** A source URL that adds an event handler to the link: the start tag of
      the anchor built for it carries `onmouseover="alert(1)"` as an
      attribute of its own, and the link points to `x`. */
  lemma HrefInjection(u: string)
    requires u == "x" + "\" onmouseover=\"alert(1)"
    ensures Anchor(EscapeHtml(u))
         == Element("a", " href=\"x\"" + " onmouseover=\"alert(1)\"" + LinkAttributes, "Source")
    ensures ParsedHref(EscapeHtml(u)) == "x"
  {
    assert forall k :: 0 <= k < |u| ==> PlainChar(u[k]);
    EscapeHtmlPlain(u);
    assert " href=\"" + u + "\"" == " href=\"x\"" + " onmouseover=\"alert(1)\"";
    HrefAsWritten(u);
    assert u[1] == '"';
    assert FirstQuote(u) == 1;
  }

  /** With attribute-mode escaping the parser reads back exactly the source
      URL, whatever it holds. */
  lemma SafeHrefRoundTrip(u: string)
    ensures ParsedHref(EscapeAttribute(u)) == u
  {
    var v := EscapeAttribute(u);
    QuotedValueSkips(v, AfterHref);
    AfterHrefQuoted();
    assert v + "" == v;
    UnescapeEscapeAttribute(u);
  }

  /** The corrected markup keeps the template's angle brackets too. */
  lemma SafeCaseMarkupAngles(c: Case)
    ensures Occurrences('<', SafeCaseMarkup(c)) == 12 + 2 * |c.manipulationType|
    ensures Occurrences('>', SafeCaseMarkup(c)) == 12 + 2 * |c.manipulationType|
  {
    MarkupAngles('<', c, EscapeAttribute(c.sourceUrl));
    MarkupAngles('>', c, EscapeAttribute(c.sourceUrl));
  }

  /** The correction changes only cards whose source URL holds a `"`. */
  lemma SafeCaseMarkupAgrees(c: Case)
    requires '"' !in c.sourceUrl
    ensures SafeCaseMarkup(c) == CaseMarkup(c)
  {
    EscapeAttributeWithoutQuote(c.sourceUrl);
  }
}

/** The pure part of `handleFormSubmit` (script.js): the tag field is split on
    commas, each piece trimmed and empty pieces dropped; the new case takes
    the four fields as they are and the date part of an ISO timestamp. */
module Form {
  import opened Text
  import opened Cases

  /** The values of the four inputs of the new-case form. */
  datatype NewCaseForm = NewCaseForm(
    company: string,
    description: string,
    sourceUrl: string,
    manipulationType: string)

  /** `.map(tag => tag.trim())` */
  function TrimAll(pieces: seq<string>): (r: seq<string>)
    ensures |r| == |pieces|
    decreases |pieces|
  {
    if pieces == [] then [] else [Trim(pieces[0])] + TrimAll(pieces[1..])
  }

  /** `.filter(tag => tag !== '')` */
  function DropEmpty(pieces: seq<string>): (r: seq<string>)
    decreases |pieces|
  {
    if pieces == [] then []
    else (if pieces[0] == "" then [] else [pieces[0]]) + DropEmpty(pieces[1..])
  }

  /** The tag list read from the comma-separated tag field. */
  function ParseTags(field: string): seq<string>
  {
    DropEmpty(TrimAll(Split(field, ',')))
  }

  /** A tag is clean when it is non-empty, has no white space at either end
      and no comma (a comma would have split it). */
  predicate CleanTag(tag: string)
  {
    tag != "" && IsTrimmed(tag) && ',' !in tag
  }

  lemma {:induction false} TrimAllAt(pieces: seq<string>, k: nat)
    requires k < |pieces|
    ensures TrimAll(pieces)[k] == Trim(pieces[k])
    decreases |pieces|
  {
    if k > 0 {
      TrimAllAt(pieces[1..], k - 1);
    }
  }

  lemma {:induction false} DropEmptyKeeps(pieces: seq<string>, P: string -> bool)
    requires forall k :: 0 <= k < |pieces| && pieces[k] != "" ==> P(pieces[k])
    ensures forall k :: 0 <= k < |DropEmpty(pieces)| ==>
      DropEmpty(pieces)[k] != "" && P(DropEmpty(pieces)[k])
    decreases |pieces|
  {
    if pieces != [] {
      DropEmptyKeeps(pieces[1..], P);
    }
  }

  /** Trimming a comma-free piece leaves it comma-free. */
  lemma TrimKeepsCommaFree(s: string)
    requires ',' !in s
    ensures ',' !in Trim(s)
  {
    TrimSpec(s);
    var i := LeadingWhiteSpace(s);
    var r := Trim(s);
    assert s[i..i + |r|] == r;
  }

  /** Every parsed tag is clean. */
  lemma ParseTagsClean(field: string)
    ensures forall k :: 0 <= k < |ParseTags(field)| ==> CleanTag(ParseTags(field)[k])
  {
    var pieces := Split(field, ',');
    var trimmed := TrimAll(pieces);
    SplitPiecesFree(field, ',');
    forall k | 0 <= k < |trimmed| && trimmed[k] != ""
      ensures CleanTag(trimmed[k])
    {
      TrimAllAt(pieces, k);
      TrimSpec(pieces[k]);
      TrimKeepsCommaFree(pieces[k]);
    }
    DropEmptyKeeps(trimmed, CleanTag);
  }

  /** Splitting `a + "," + b` gives the pieces of `a` and then those of `b`. */
  lemma {:induction false} SplitConcat(a: string, b: string)
    ensures Split(a + "," + b, ',') == Split(a, ',') + Split(b, ',')
    decreases |a|
  {
    var s := a + "," + b;
    if a == [] {
      assert s[0] == ',' && s[1..] == b;
    } else {
      assert s[0] == a[0] && s[1..] == a[1..] + "," + b;
      SplitConcat(a[1..], b);
    }
  }

  lemma {:induction false} TrimAllConcat(p: seq<string>, q: seq<string>)
    ensures TrimAll(p + q) == TrimAll(p) + TrimAll(q)
    decreases |p|
  {
    if p == [] {
      assert p + q == q;
    } else {
      assert (p + q)[0] == p[0] && (p + q)[1..] == p[1..] + q;
      TrimAllConcat(p[1..], q);
    }
  }

  lemma {:induction false} DropEmptyConcat(p: seq<string>, q: seq<string>)
    ensures DropEmpty(p + q) == DropEmpty(p) + DropEmpty(q)
    decreases |p|
  {
    if p == [] {
      assert p + q == q;
    } else {
      assert (p + q)[0] == p[0] && (p + q)[1..] == p[1..] + q;
      DropEmptyConcat(p[1..], q);
    }
  }

  /** The tags of `a + "," + b` are those of `a` followed by those of `b`. */
  lemma ParseTagsConcat(a: string, b: string)
    ensures ParseTags(a + "," + b) == ParseTags(a) + ParseTags(b)
  {
    SplitConcat(a, b);
    TrimAllConcat(Split(a, ','), Split(b, ','));
    DropEmptyConcat(TrimAll(Split(a, ',')), TrimAll(Split(b, ',')));
  }

  /** A field without commas gives its trimmed text as the one tag, or no tag
      when it is blank. */
  lemma ParseTagsPiece(s: string)
    requires ',' !in s
    ensures ParseTags(s) == if Trim(s) == "" then [] else [Trim(s)]
  {
    SplitWithoutSep(s, ',');
    var t := Trim(s);
    assert TrimAll([s]) == [t];
    assert [t][1..] == [];
    assert DropEmpty([t]) == (if t == "" then [] else [t]) + DropEmpty([]);
  }

  lemma {:induction false} TrimAllTrimmed(tags: seq<string>)
    requires forall k :: 0 <= k < |tags| ==> IsTrimmed(tags[k])
    ensures TrimAll(tags) == tags
    decreases |tags|
  {
    if tags != [] {
      TrimTrimmed(tags[0]);
      TrimAllTrimmed(tags[1..]);
      assert [tags[0]] + tags[1..] == tags;
    }
  }

  lemma {:induction false} DropEmptyNonEmpty(tags: seq<string>)
    requires forall k :: 0 <= k < |tags| ==> tags[k] != ""
    ensures DropEmpty(tags) == tags
    decreases |tags|
  {
    if tags != [] {
      DropEmptyNonEmpty(tags[1..]);
      assert [tags[0]] + tags[1..] == tags;
    }
  }

  /** Writing clean tags into the field separated by commas and parsing the
      field gives them back. */
  lemma ParseTagsJoin(tags: seq<string>)
    requires forall k :: 0 <= k < |tags| ==> CleanTag(tags[k])
    ensures ParseTags(Join(tags, ",")) == tags
  {
    if tags == [] {
      assert Split("", ',') == [""];
      assert TrimAll([""]) == [Trim("")];
    } else {
      SplitJoin(tags, ',');
      TrimAllTrimmed(tags);
      DropEmptyNonEmpty(tags);
    }
  }

  /** A clean tag with one space on either side trims back to itself. */
  lemma TrimSpaced(y: string)
    requires CleanTag(y)
    ensures Trim(" " + y) == y && Trim(" " + y + " ") == y
  {
    var p := " " + y;
    assert p[1..] == y;
    assert LeadingWhiteSpace(y) == 0;
    assert LeadingWhiteSpace(p) == 1;
    assert TrimStart(p) == y;
    assert TrailingWhiteSpace(y) == 0;
    var q := " " + y + " ";
    assert q[..|q| - 1] == p;
    assert TrailingWhiteSpace(q) == 1;
    assert TrimEnd(q) == p;
    assert LeadingWhiteSpace(q) == 1 + LeadingWhiteSpace(q[1..]);
    assert q[1..] == y + " ";
    assert LeadingWhiteSpace(y + " ") == 0;
    assert TrimStart(q) == y + " ";
    assert (y + " ")[..|y|] == y;
    assert TrailingWhiteSpace(y + " ") == 1 + TrailingWhiteSpace(y);
  }

  /** A clean tag alone in the field is parsed as itself. */
  lemma ParseTagsCleanPiece(x: string)
    requires CleanTag(x)
    ensures ParseTags(x) == [x]
  {
    TrimTrimmed(x);
    ParseTagsPiece(x);
  }

  /** Spaces around a tag are trimmed away. */
  lemma ParseTagsSpacedPiece(y: string)
    requires CleanTag(y)
    ensures ParseTags(" " + y) == [y]
    ensures ParseTags(" " + y + " ") == [y]
  {
    TrimSpaced(y);
    ParseTagsPiece(" " + y);
    ParseTagsPiece(" " + y + " ");
  }

  /** A blank piece gives no tag. */
  lemma ParseTagsBlank()
    ensures ParseTags(" ") == []
  {
    assert Trim(" ") == "";
    ParseTagsPiece(" ");
  }

  /** Spaces around the commas are trimmed away: `x + ", " + y + " ," + z`
      gives the three tags. */
  lemma ParseTagsSpaced(x: string, y: string, z: string)
    requires CleanTag(x) && CleanTag(y) && CleanTag(z)
    ensures ParseTags(x + ", " + y + " ," + z) == [x, y, z]
  {
    var middle := " " + y + " ";
    var rest := middle + "," + z;
    assert ParseTags(rest) == [y, z] by {
      ParseTagsSpacedPiece(y);
      ParseTagsCleanPiece(z);
      ParseTagsConcat(middle, z);
    }
    ParseTagsCleanPiece(x);
    ParseTagsConcat(x, rest);
    assert x + ", " + y + " ," + z == x + "," + rest;
  }

  /** A blank piece between two commas gives no tag: `x + ", , " + y` gives
      the two tags. */
  lemma ParseTagsBlankPiece(x: string, y: string)
    requires CleanTag(x) && CleanTag(y)
    ensures ParseTags(x + ", , " + y) == [x, y]
  {
    ParseTagsCleanPiece(x);
    ParseTagsBlank();
    ParseTagsSpacedPiece(y);
    ParseTagsConcat(" ", " " + y);
    ParseTagsConcat(x, " " + "," + (" " + y));
    assert x + ", , " + y == x + "," + (" " + "," + (" " + y));
  }

  /** `"a, b ,c"` gives `["a", "b", "c"]`. */
  lemma ParseTagsExample()
    ensures ParseTags("a" + ", " + "b" + " ," + "c") == ["a", "b", "c"]
  {
    ParseTagsSpaced("a", "b", "c");
  }

  /** `"greenwashing, , pricing"` gives `["greenwashing", "pricing"]`. */
  lemma ParseTagsBlankExample()
    ensures ParseTags("greenwashing" + ", , " + "pricing") == ["greenwashing", "pricing"]
  {
    ParseTagsBlankPiece("greenwashing", "pricing");
  }

  /** `new Date().toISOString().slice(0, 10)`, with the timestamp passed in. */
  function DatePart(isoTimestamp: string): (r: string)
    ensures |r| == if |isoTimestamp| < 10 then |isoTimestamp| else 10
    ensures r == isoTimestamp[..|r|]
  {
    if |isoTimestamp| <= 10 then isoTimestamp else isoTimestamp[..10]
  }

  /** The case object built by the form handler. */
  function NewCase(form: NewCaseForm, isoTimestamp: string): Case
  {
    Case(form.company, form.description, form.sourceUrl,
         ParseTags(form.manipulationType), DatePart(isoTimestamp))
  }

  /** The new case keeps the text fields as entered (no validation), carries
      only clean tags and is dated with the first ten characters of the
      timestamp. */
  lemma NewCaseSpec(form: NewCaseForm, isoTimestamp: string)
    requires |isoTimestamp| >= 10
    ensures NewCase(form, isoTimestamp).company == form.company
    ensures NewCase(form, isoTimestamp).description == form.description
    ensures NewCase(form, isoTimestamp).sourceUrl == form.sourceUrl
    ensures forall k :: 0 <= k < |NewCase(form, isoTimestamp).manipulationType| ==>
      CleanTag(NewCase(form, isoTimestamp).manipulationType[k])
    ensures NewCase(form, isoTimestamp).reportedDate == isoTimestamp[..10]
  {
    ParseTagsClean(form.manipulationType);
  }
}

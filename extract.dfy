/** Metadata extraction from one raw page: `parse_raw_html` and its helpers
    `get_el_text_content`, `get_el_attribute` and `get_els_text_content` of
    prj3/indexer.py. The HTML parser and the cleaner are not modelled: a page is
    given by what the code reads from the parsed document. */
module Extract {
  import opened Wrappers
  import opened Text

  /** What the code reads from a parsed document. Text of an element is `None`
      when the element has no direct text (lxml's `el.text is None`).
      - `title`: the direct text of the first `<title>`, `None` when there is
        none or it has no text;
      - `description`: the `content` attribute of the first
        `<meta name="description">`, `None` when there is no such element or
        it has no such attribute;
      - `h1s` .. `bs`: the direct text of every matching element, in document
        order;
      - `body`: the text content of the cleaned `<body>`, `None` when the
        document has no `<body>` (the AttributeError the code catches). */
  datatype Page = Page(
    title: Option<string>,
    description: Option<string>,
    h1s: seq<Option<string>>,
    h2s: seq<Option<string>>,
    h3s: seq<Option<string>>,
    strongs: seq<Option<string>>,
    bs: seq<Option<string>>,
    body: Option<string>)

  /** What reading and parsing the file at a raw path gives:
      - `Unreadable`: the file cannot be opened or does not parse as HTML
        (IOError or etree.ParserError, caught);
      - `Faulty`: the cleaner or the parser raises something the code does not
        catch, which leaves `parse_raw_html` as an exception;
      - `Parsed(page)`: a document. */
  datatype PageSource = Unreadable | Faulty | Parsed(page: Page)

  /** The dictionary `parse_raw_html` returns; the lists built with
      `list(set(...))` have no order and no duplicates, so they are sets. */
  datatype Metadata = Metadata(
    title: string,
    description: string,
    h1: set<string>,
    h2: set<string>,
    h3: set<string>,
    bold: set<string>,
    body: string)

  /** `None` returned, an exception raised, or the metadata. */
  datatype Extraction = NotExtractable | Fault | Extracted(metadata: Metadata)

  /** `get_el_text_content`, prj3/indexer.py:84-86: the stripped text, or ''
      when there is no element or no text. */
  function ElText(text: Option<string>): (r: string)
    ensures IsStripped(r)
    ensures text.None? ==> r == ""
    ensures text.Some? ==> r == Strip(text.value)
  {
    if text.Some? && text.value != "" then Strip(text.value) else ""
  }

  /** The text that survives the filter of `get_els_text_content`: present and
      non-empty after stripping. */
  predicate Kept(text: Option<string>) {
    text.Some? && text.value != "" && Strip(text.value) != ""
  }

  /** `get_els_text_content`, prj3/indexer.py:94-96: the stripped text of every
      element whose text is non-empty after stripping, in document order. */
  function ElsText(texts: seq<Option<string>>): (r: seq<string>)
    ensures |r| <= |texts|
    ensures forall k :: 0 <= k < |r| ==> r[k] != "" && IsStripped(r[k])
  {
    if texts == [] then []
    else
      var rest := ElsText(texts[1..]);
      if Kept(texts[0]) then [Strip(texts[0].value)] + rest else rest
  }

  /** A string is kept by `get_els_text_content` exactly when it is the
      stripped text of one of the elements and is not empty. */
  lemma {:induction false} ElsTextMembers(texts: seq<Option<string>>, x: string)
    ensures x in ElsText(texts) <==>
      x != "" && exists k :: 0 <= k < |texts| && texts[k].Some? && Strip(texts[k].value) == x
  {
    if texts != [] {
      ElsTextMembers(texts[1..], x);
      var t := texts[0];
      if x != "" && t.Some? && Strip(t.value) == x {
        assert t.value != "" by { assert Strip("") == ""; }
      }
      forall k | 1 <= k < |texts| ensures texts[k] == texts[1..][k - 1] { }
      if x in ElsText(texts[1..]) {
        var k' :| 0 <= k' < |texts[1..]| && texts[1..][k'].Some? && Strip(texts[1..][k'].value) == x;
        assert texts[k' + 1] == texts[1..][k'];
      }
    }
  }

  /** The value of `list(set(xs))`. */
  function AsSet(xs: seq<string>): set<string> {
    set k | 0 <= k < |xs| :: xs[k]
  }

  /** Every element of a heading or emphasis set is non-empty and has no
      whitespace at either end. */
  predicate CleanTexts(xs: set<string>) {
    forall x :: x in xs ==> x != "" && IsStripped(x)
  }

  /** The set of distinct kept texts of some elements. */
  function TextSet(texts: seq<Option<string>>): set<string>
  {
    AsSet(ElsText(texts))
  }

  /** No heading or emphasis text is empty or has whitespace at an end. */
  lemma TextSetClean(texts: seq<Option<string>>)
    ensures CleanTexts(TextSet(texts))
  {
  }

  /** Membership in a heading set, both directions. */
  lemma TextSetMembers(texts: seq<Option<string>>, x: string)
    ensures x in TextSet(texts) <==>
      x != "" && exists k :: 0 <= k < |texts| && texts[k].Some? && Strip(texts[k].value) == x
  {
    ElsTextMembers(texts, x);
    var xs := ElsText(texts);
    if x in xs {
      var k :| 0 <= k < |xs| && xs[k] == x;
      assert x in AsSet(xs);
    }
  }

  /** `body`: `' '.join(text.split())` of the cleaned body text. */
  function BodyText(text: string): string
  {
    Collapse(text)
  }

  /** The body is collapsed text with the same words as the page's text. */
  lemma BodyTextShape(text: string)
    ensures IsCollapsed(BodyText(text)) && IsStripped(BodyText(text))
    ensures Words(BodyText(text)) == Words(text)
  {
    CollapseShape(text);
    CollapseKeepsWords(text);
  }

  /** `get_el_text_content(document, 'title') or body[:60]`. */
  function TitleOf(page: Page, body: string): string
  {
    var t := ElText(page.title);
    if t != "" then t else Take(body, 60)
  }

  /** `get_el_attribute(document, 'meta[@name="description"]', 'content') or
      body[:150]`: `get_el_attribute` (prj3/indexer.py:89-91) gives the
      attribute value as it is, without stripping, or a false value ('' or
      `None`, both `None` here) when the element or the attribute is missing. */
  function DescriptionOf(page: Page, body: string): string
  {
    var d := page.description;
    if d.Some? && d.value != "" then d.value else Take(body, 150)
  }

  /** `parse_raw_html`, prj3/indexer.py:40-81. */
  function ParseRawHtml(src: PageSource): (r: Extraction)
    ensures src.Unreadable? ==> r == NotExtractable
    ensures src.Faulty? ==> r == Fault
    ensures src.Parsed? ==> (r.NotExtractable? <==> src.page.body.None?)
    ensures r.Extracted? ==> src.Parsed?
  {
    match src
    case Unreadable => NotExtractable
    case Faulty => Fault
    case Parsed(page) =>
      if page.body.None? then NotExtractable
      else
        var body := BodyText(page.body.value);
        Extracted(Metadata(
          TitleOf(page, body),
          DescriptionOf(page, body),
          TextSet(page.h1s),
          TextSet(page.h2s),
          TextSet(page.h3s),
          TextSet(page.strongs) + TextSet(page.bs),
          body))
  }

  /** Everything extracted from a page: its fields, each tied to what the page
      holds. */
  lemma ParseRawHtmlFields(page: Page)
    requires page.body.Some?
    ensures var r := ParseRawHtml(Parsed(page));
      var m := r.metadata;
      var body := page.body.value;
      && r.Extracted?
      && IsCollapsed(m.body) && IsStripped(m.body) && Words(m.body) == Words(body)
      && (ElText(page.title) != "" ==> m.title == Strip(page.title.value))
      && (ElText(page.title) == "" ==> m.title <= m.body && |m.title| == if |m.body| <= 60 then |m.body| else 60)
      && (page.description.Some? && page.description.value != "" ==> m.description == page.description.value)
      && (!(page.description.Some? && page.description.value != "") ==>
            m.description <= m.body && |m.description| == if |m.body| <= 150 then |m.body| else 150)
      && CleanTexts(m.h1) && CleanTexts(m.h2) && CleanTexts(m.h3) && CleanTexts(m.bold)
  {
    BodyTextShape(page.body.value);
    TextSetClean(page.h1s);
    TextSetClean(page.h2s);
    TextSetClean(page.h3s);
    TextSetClean(page.strongs);
    TextSetClean(page.bs);
  }

  /** The bold set holds the texts of `<strong>` and `<b>` elements alike. */
  lemma BoldMembers(page: Page, x: string)
    requires page.body.Some?
    ensures x in ParseRawHtml(Parsed(page)).metadata.bold <==>
      x != "" && ((exists k :: 0 <= k < |page.strongs| && page.strongs[k].Some? && Strip(page.strongs[k].value) == x)
               || (exists k :: 0 <= k < |page.bs| && page.bs[k].Some? && Strip(page.bs[k].value) == x))
  {
    TextSetMembers(page.strongs, x);
    TextSetMembers(page.bs, x);
  }

  /** Membership in the three heading sets. */
  lemma HeadingMembers(page: Page, x: string)
    requires page.body.Some?
    ensures var m := ParseRawHtml(Parsed(page)).metadata;
      && (x in m.h1 <==> x != "" && exists k :: 0 <= k < |page.h1s| && page.h1s[k].Some? && Strip(page.h1s[k].value) == x)
      && (x in m.h2 <==> x != "" && exists k :: 0 <= k < |page.h2s| && page.h2s[k].Some? && Strip(page.h2s[k].value) == x)
      && (x in m.h3 <==> x != "" && exists k :: 0 <= k < |page.h3s| && page.h3s[k].Some? && Strip(page.h3s[k].value) == x)
  {
    TextSetMembers(page.h1s, x);
    TextSetMembers(page.h2s, x);
    TextSetMembers(page.h3s, x);
  }

  /** The title is empty only when the page has neither title text nor any
      body word; the same holds for the description. */
  lemma TitleEmpty(page: Page)
    requires page.body.Some?
    ensures var m := ParseRawHtml(Parsed(page)).metadata;
      && (m.title == "" <==> ElText(page.title) == "" && Words(page.body.value) == [])
      && (m.description == "" <==>
            !(page.description.Some? && page.description.value != "") && Words(page.body.value) == [])
  {
    var text := page.body.value;
    var body := BodyText(text);
    BodyTextShape(text);
    WordsFromAreWords(text, 0);
    assert Words(body) == Words(text);
    if Words(text) == [] {
      assert body == JoinWords([]);
    } else {
      JoinWordsCollapsed(Words(text));
    }
    assert Words("") == [] by { assert SkipSpace("", 0) == 0; }
  }
}

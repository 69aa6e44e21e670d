/**
 * What the crawler reads from a downloaded page, and the `PageInfo` record of the site map.
 *
 * The parsed HTML document is reduced to the parts `download.py` looks at: the `<title>`
 * element, the `<meta name="description">` element, the `href` of every `<a>` element that
 * has one, in document order, and whether converting the saved page to Markdown succeeds.
 */
module Pages {
  import opened Wrappers
  import opened Text

  /** `soup.title`: absent, or present with `.string` (which is `None` unless the element
      holds a single string). */
  datatype TitleElement = NoTitleElement | TitleElement(str: Option<string>)

  /** `soup.find("meta", attrs={"name": "description"})`: absent, or present with its
      `content` attribute, which may itself be missing. */
  datatype DescriptionMeta = NoDescriptionMeta | DescriptionMeta(content: Option<string>)

  /** A downloaded page as the crawler sees it. */
  datatype Page = Page(
    title: TitleElement,
    description: DescriptionMeta,
    hrefs: seq<string>,
    convertsToMarkdown: bool)

  /** One entry of the site map. */
  datatype PageInfo = PageInfo(base: string, html: string, markdown: string, name: string, description: string)

  const NoTitle := "No Title"

  /** `clean_text`, which also accepts `None` (a title element without a single string)
      and maps it to "" through its `if not text` test. */
  function CleanOptional(text: Option<string>): string {
    match text
    case None => ""
    case Some(t) => CleanText(t)
  }

  /** The raw title: "No Title" without a title element. */
  function RawTitle(page: Page): Option<string> {
    match page.title
    case NoTitleElement => Some(NoTitle)
    case TitleElement(s) => s
  }

  /** The raw description: "" without a description element or without its `content`. */
  function RawDescription(page: Page): string {
    match page.description
    case NoDescriptionMeta => ""
    case DescriptionMeta(None) => ""
    case DescriptionMeta(Some(c)) => c
  }

  /** `WebsiteCrawler.extract_page_info`: the cleaned title and description, "No Title"
      when the page has no title element and "" when it has no description. */
  function ExtractPageInfo(page: Page): (r: (string, string))
    ensures page.title.NoTitleElement? ==> r.0 == NoTitle
    ensures page.title == TitleElement(None) ==> r.0 == ""
    ensures page.description.NoDescriptionMeta? || page.description == DescriptionMeta(None) ==> r.1 == ""
    ensures IsClean(r.0) && IsClean(r.1)
  {
    var title := RawTitle(page);
    var description := RawDescription(page);
    TitleIsClean();
    CleanTextOfClean(NoTitle);
    CleanOptionalIsClean(title);
    CleanTextIsClean(description);
    (CleanOptional(title), CleanText(description))
  }

  /** The title and the description keep the words of the page's text, in order, with no
      line breaks between them. */
  lemma ExtractPageInfoKeepsWords(page: Page)
    ensures var (title, description) := ExtractPageInfo(page);
      && (RawTitle(page).Some? ==> Words(title) == Words(RawTitle(page).value))
      && Words(description) == Words(RawDescription(page))
      && '\r' !in title && '\n' !in title && '\r' !in description && '\n' !in description
  {
    var title := RawTitle(page);
    if title.Some? {
      CleanTextIsClean(title.value);
      CleanTextKeepsWords(title.value);
    }
    CleanTextIsClean(RawDescription(page));
    CleanTextKeepsWords(RawDescription(page));
  }

  /** A cleaned optional text is clean, whether it was present or not. */
  lemma CleanOptionalIsClean(text: Option<string>)
    ensures IsClean(CleanOptional(text))
  {
    match text
    case None => TitleIsClean();
    case Some(t) => CleanTextIsClean(t);
  }

  lemma TitleIsClean()
    ensures IsClean(NoTitle) && IsClean("")
  {
    assert NoTitle[2] == ' ';
  }

  /** Extracting twice changes nothing: the record holds text that `clean_text` leaves as it is. */
  lemma ExtractPageInfoIsStable(page: Page)
    ensures CleanText(ExtractPageInfo(page).0) == ExtractPageInfo(page).0
    ensures CleanText(ExtractPageInfo(page).1) == ExtractPageInfo(page).1
  {
    var (t, d) := ExtractPageInfo(page);
    CleanTextOfClean(t);
    CleanTextOfClean(d);
  }
}

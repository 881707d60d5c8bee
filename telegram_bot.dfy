/**
 * gamerant_telegram_bot.py: fetch the GameRant listing, take its first
 * article, resolve title, link, summary and image through selector
 * cascades, post it to the channel (photo first, text as fallback) and
 * remember its URL so that the next run does not post it again.
 */
module TelegramBot {
  import opened Wrappers
  import opened Strings
  import opened Seqs
  import opened Html
  import opened Cascade
  import opened Template

  const GamerantUrl := "https://gamerant.com/gaming/"
  const SiteOrigin := "https://gamerant.com"

  const ListingSelectors: seq<string> :=
    ["article.browse-clip", "article", ".article-card", ".article-preview", ".post", ".entry",
     "div.content-card"]
  const TitleSelectors: seq<string> :=
    ["h1", "h2", "h3", "h4", "h5.title", "h5", ".title", ".headline", ".article-title"]
  const MetaDescription := "meta[name=\"description\"]"
  const SummarySelectors: seq<string> :=
    ["h2.subtitle", ".subtitle", ".summary", ".article-excerpt", ".excerpt", MetaDescription,
     "div.article-body > p:first-child", "div.article-body p", "div.entry-content > p:first-child",
     "p"]
  const NoSummary := "No summary available"
  const OgImage := "meta[property=\"og:image\"]"
  const ImageSelectors: seq<string> :=
    ["img.header-img", ".article-img-wrapper img", ".featured-image img",
     ".article-featured-image img", OgImage, "img[src*=\"gamerant.com\"]", "img"]

  /** `requests.get(url)` followed by `raise_for_status()` and parsing:
      `None` when the request raises. */
  type Fetch = string -> Option<Node>

  // ---------------------------------------------------------------- listing

  /** How the article list was found: by one of the listing selectors, or by
      the fallback that keeps the `<a href>` elements pointing into /gaming/. */
  datatype Listing =
    | BySelector(selector: string, articles: seq<Node>)
    | ByLinks(articles: seq<Node>)
    | NoArticles

  function Matches(q: Query, doc: Node, selector: string): Option<seq<Node>> {
    var m := q(doc, selector);
    if m == [] then None else Some(m)
  }

  function ListingReader(q: Query, doc: Node): string -> Option<seq<Node>> {
    (selector: string) => Matches(q, doc, selector)
  }

  predicate IsGamingLink(a: Node) {
    Contains(Attr(a, "href").GetOr(""), "/gaming/")
  }

  /** `[a for a in soup.find_all('a', href=True) if '/gaming/' in a.get('href', '')]`. */
  function GamingLinks(doc: Node): (links: seq<Node>)
    ensures forall i :: 0 <= i < |links| ==> IsTagWith(links[i], "a", "href") && IsGamingLink(links[i])
    ensures forall i :: 0 <= i < |links| ==> links[i] in Descendants(doc)
    ensures forall d :: d in Descendants(doc) && IsTagWith(d, "a", "href") && IsGamingLink(d) ==> d in links
  {
    var all := FindAll(doc, "a", "href");
    assert forall d :: d in Descendants(doc) && IsTagWith(d, "a", "href") ==> d in all by {
      forall d | d in Descendants(doc) && IsTagWith(d, "a", "href") ensures d in all {
        var i :| 0 <= i < |Descendants(doc)| && Descendants(doc)[i] == d;
      }
    }
    Filter(all, IsGamingLink)
  }

  predicate IsGamingAnchor(d: Node) {
    IsTagWith(d, "a", "href") && IsGamingLink(d)
  }

  /** The fallback list is the descendants that are `<a href>` elements
      pointing into /gaming/, in document order. */
  lemma GamingLinksInOrder(doc: Node)
    ensures GamingLinks(doc) == Filter(Descendants(doc), IsGamingAnchor)
  {
    FilterFilter(Descendants(doc), TagTest("a", "href"), IsGamingLink, IsGamingAnchor);
  }

  /** The fallback's first article, the one that gets posted, is the first
      such link in the document. */
  lemma GamingLinksFirst(doc: Node, k: nat)
    requires k < |Descendants(doc)| && IsGamingAnchor(Descendants(doc)[k])
    requires forall j :: 0 <= j < k ==> !IsGamingAnchor(Descendants(doc)[j])
    ensures GamingLinks(doc) != [] && GamingLinks(doc)[0] == Descendants(doc)[k]
  {
    GamingLinksInOrder(doc);
    FilterHead(Descendants(doc), IsGamingAnchor, k);
  }

  function ListingOf(q: Query, doc: Node): (r: Listing)
    ensures r.BySelector? || r.ByLinks? ==> r.articles != []
  {
    match FirstValue(ListingReader(q, doc), ListingSelectors)
    case Some(h) => BySelector(ListingSelectors[h.index], h.value)
    case None =>
      var links := GamingLinks(doc);
      if links == [] then NoArticles else ByLinks(links)
  }

  /** The listing loop: each selector in turn until one matches something;
      then the link fallback. */
  method FindArticles(q: Query, doc: Node) returns (r: Listing)
    ensures r == ListingOf(q, doc)
  {
    var articles: seq<Node> := [];
    var used: Option<nat> := None;
    for i := 0 to |ListingSelectors|
      invariant forall j :: 0 <= j < i ==> ListingReader(q, doc)(ListingSelectors[j]).None?
      invariant articles == [] && used.None?
    {
      articles := q(doc, ListingSelectors[i]);
      if articles != [] {
        used := Some(i);
        break;
      }
    }
    if used.Some? {
      FirstValueAt(ListingReader(q, doc), ListingSelectors, used.value, articles);
      return BySelector(ListingSelectors[used.value], articles);
    }
    articles := GamingLinks(doc);
    if articles == [] {
      return NoArticles;
    }
    return ByLinks(articles);
  }

  /** The first selector, in list order, with a non-empty match wins, and
      its whole match set is the article list. */
  lemma ListingFirstMatch(q: Query, doc: Node, i: nat)
    requires i < |ListingSelectors| && q(doc, ListingSelectors[i]) != []
    requires forall j :: 0 <= j < i ==> q(doc, ListingSelectors[j]) == []
    ensures ListingOf(q, doc) == BySelector(ListingSelectors[i], q(doc, ListingSelectors[i]))
  {
    FirstValueAt(ListingReader(q, doc), ListingSelectors, i, q(doc, ListingSelectors[i]));
  }

  /** Selectors after the winning one are never consulted. */
  lemma ListingIgnoresLater(q: Query, q': Query, doc: Node, i: nat)
    requires i < |ListingSelectors| && q(doc, ListingSelectors[i]) != []
    requires forall j :: 0 <= j < i ==> q(doc, ListingSelectors[j]) == []
    requires forall j :: 0 <= j <= i ==> q'(doc, ListingSelectors[j]) == q(doc, ListingSelectors[j])
    ensures ListingOf(q', doc) == ListingOf(q, doc)
  {
    ListingFirstMatch(q, doc, i);
    ListingFirstMatch(q', doc, i);
  }

  /** With no selector matching, the list is the /gaming/ links in document
      order, and no article at all when there are none. */
  lemma ListingFallback(q: Query, doc: Node)
    requires forall j :: 0 <= j < |ListingSelectors| ==> q(doc, ListingSelectors[j]) == []
    ensures GamingLinks(doc) == [] ==> ListingOf(q, doc) == NoArticles
    ensures GamingLinks(doc) != [] ==> ListingOf(q, doc) == ByLinks(GamingLinks(doc))
  {
    assert forall j :: 0 <= j < |ListingSelectors| ==> ListingReader(q, doc)(ListingSelectors[j]).None?;
  }

  // ------------------------------------------------------------------ title

  function TitleReader(q: Query, article: Node): string -> Option<Node> {
    (selector: string) => SelectOne(q, article, selector)
  }

  /** The element whose text is the title: the link itself in fallback mode,
      else the first title selector's match, else the article element. */
  function TitleElementOf(q: Query, article: Node, linkMode: bool): Node {
    if linkMode then article
    else
      match FirstValue(TitleReader(q, article), TitleSelectors)
      case Some(h) => h.value
      case None => article
  }

  method TitleElement(q: Query, article: Node, linkMode: bool) returns (e: Node)
    ensures e == TitleElementOf(q, article, linkMode)
  {
    var titleElement: Option<Node> := None;
    for i := 0 to |TitleSelectors|
      invariant titleElement.None?
      invariant 0 < i ==> !linkMode
      invariant forall j :: 0 <= j < i ==> TitleReader(q, article)(TitleSelectors[j]).None?
    {
      if linkMode {
        titleElement := Some(article);
        break;
      }
      titleElement := SelectOne(q, article, TitleSelectors[i]);
      if titleElement.Some? {
        FirstValueAt(TitleReader(q, article), TitleSelectors, i, titleElement.value);
        break;
      }
    }
    e := if titleElement.Some? then titleElement.value else article;
  }

  // -------------------------------------------------------------------- url

  /** The link's `href`: the link itself in fallback mode, else the first
      `<a href>` below the article, else `select_one('a[href]')`. `None`
      stands for the raised error that makes the whole fetch return None. */
  function HrefOf(q: Query, article: Node, linkMode: bool): Option<string> {
    if linkMode then Attr(article, "href")
    else
      match Find(article, "a", "href")
      case Some(a) => Attr(a, "href")
      case None =>
        match SelectOne(q, article, "a[href]")
        case Some(a) => Attr(a, "href")
        case None => None
  }

  /** A link not starting with `http` gets the site origin in front. */
  function AbsoluteUrl(href: string): (url: string)
    ensures StartsWith(url, "http")
    ensures EndsWith(url, href)
    ensures url == href <==> StartsWith(href, "http")
  {
    if StartsWith(href, "http") then href
    else
      assert (SiteOrigin + href)[..4] == "http";
      SiteOrigin + href
  }

  // ---------------------------------------------------------------- summary

  /** The meta description is the sixth summary selector and no other one. */
  lemma MetaAt(i: nat)
    requires i < |SummarySelectors|
    ensures SummarySelectors[i] == MetaDescription <==> i == 5
  {
  }

  /** What one summary selector yields: the meta description's `content`
      attribute, or the element's stripped text; nothing when it is empty. */
  function SummaryRead(q: Query, page: Node, selector: string): Option<string> {
    match SelectOne(q, page, selector)
    case None => None
    case Some(e) =>
      var v := if selector == MetaDescription then Attr(e, "content").GetOr("") else Strip(TextOf(e));
      if v == "" then None else Some(v)
  }

  function SummaryReader(q: Query, page: Node): string -> Option<string> {
    (selector: string) => SummaryRead(q, page, selector)
  }

  /** The summary of the article page, or `None` when the script's local
      `summary` is read before it was ever assigned: the loop ran to its end,
      the last selector (`p`) matched an element with blank text, and the
      meta description was absent. */
  function SummaryOf(q: Query, page: Node): Option<string> {
    match FirstValue(SummaryReader(q, page), SummarySelectors)
    case Some(h) => Some(h.value)
    case None =>
      if SelectOne(q, page, "p").Some? && SelectOne(q, page, MetaDescription).None? then None
      else Some(NoSummary)
  }

  /** The summary loop after `i` selectors without a hit: `element` is
      the last selector's match and `summary` is assigned only once the
      meta description was met and matched. */
  ghost predicate SummaryState(q: Query, page: Node, i: nat, element: Option<Node>, summary: Option<string>)
    requires i <= |SummarySelectors|
  {
    && FirstValue(SummaryReader(q, page), SummarySelectors[..i]).None?
    && element == (if i == 0 then None else SelectOne(q, page, SummarySelectors[i - 1]))
    && summary == (if 5 < i && SelectOne(q, page, MetaDescription).Some? then Some("") else None)
  }

  /** One selector without a hit. */
  lemma SummaryMiss(q: Query, page: Node, i: nat, element: Option<Node>, summary: Option<string>)
    requires i < |SummarySelectors| && SummaryState(q, page, i, element, summary)
    requires SummaryRead(q, page, SummarySelectors[i]).None?
    ensures var e := SelectOne(q, page, SummarySelectors[i]);
      SummaryState(q, page, i + 1, e,
                   if SummarySelectors[i] == MetaDescription && e.Some? then Some("") else summary)
  {
    MetaAt(i);
    assert SummaryReader(q, page)(SummarySelectors[i]).None?;
    FirstValueExtendNone(SummaryReader(q, page), SummarySelectors, i);
  }

  method FindSummary(q: Query, page: Node) returns (r: Option<string>)
    ensures r == SummaryOf(q, page)
  {
    var element: Option<Node> := None;
    var summary: Option<string> := None;  // None: `summary` not yet assigned
    var hit: Option<nat> := None;
    for i := 0 to |SummarySelectors|
      invariant hit.None?
      invariant SummaryState(q, page, i, element, summary)
    {
      ghost var element0, summary0 := element, summary;
      var selector := SummarySelectors[i];
      element := SelectOne(q, page, selector);
      if selector == MetaDescription {
        if element.Some? {
          summary := Some(Attr(element.value, "content").GetOr(""));
          if summary.value != "" {
            hit := Some(i);
            break;
          }
        }
      } else if element.Some? && Strip(TextOf(element.value)) != "" {
        summary := Some(Strip(TextOf(element.value)));
        hit := Some(i);
        break;
      }
      SummaryMiss(q, page, i, element0, summary0);
    }
    if hit.Some? {
      SummaryFound(q, page, hit.value, summary.value);
      r := summary;
    } else {
      SummaryExhausted(q, page, element, summary);
      r := if element.None? || summary == Some("") then Some(NoSummary) else None;
    }
  }

  /** The selector where the loop stops gives the summary. */
  lemma SummaryFound(q: Query, page: Node, i: nat, v: string)
    requires i < |SummarySelectors|
    requires FirstValue(SummaryReader(q, page), SummarySelectors[..i]).None?
    requires SummaryRead(q, page, SummarySelectors[i]) == Some(v)
    ensures SummaryOf(q, page) == Some(v)
  {
    FirstValueAfterNone(SummaryReader(q, page), SummarySelectors, i, v);
  }

  /** After every selector without a hit, the fallback depends on the
      last selector's element and on whether `summary` was assigned. */
  lemma SummaryExhausted(q: Query, page: Node, element: Option<Node>, summary: Option<string>)
    requires SummaryState(q, page, |SummarySelectors|, element, summary)
    ensures SummaryOf(q, page) == if element.None? || summary == Some("") then Some(NoSummary) else None
  {
    assert SummarySelectors[..|SummarySelectors|] == SummarySelectors;
  }

  /** A found summary is the first non-empty value in selector order; the
      sentinel is used when every selector fails, except in the unassigned
      case. */
  lemma SummaryCascade(q: Query, page: Node, i: nat)
    requires i < |SummarySelectors| && SummaryRead(q, page, SummarySelectors[i]).Some?
    requires forall j :: 0 <= j < i ==> SummaryRead(q, page, SummarySelectors[j]).None?
    ensures SummaryOf(q, page) == SummaryRead(q, page, SummarySelectors[i])
    ensures SummaryOf(q, page).value != ""
  {
    FirstValueAt(SummaryReader(q, page), SummarySelectors, i,
                 SummaryRead(q, page, SummarySelectors[i]).value);
  }

  // ------------------------------------------------------------------ image

  predicate Allowed(src: string) {
    var l := Lower(src);
    !Contains(l, "icon") && !Contains(l, "logo") && !Contains(l, "avatar")
  }

  /** An `img` element's `src`, when it has one that is not an icon, logo
      or avatar. */
  function AllowedSrc(img: Node): Option<string> {
    match Attr(img, "src")
    case Some(src) => if Allowed(src) then Some(src) else None
    case None => None
  }

  /** The inner image loop: scans every matched element for an allowed `src`. */
  method ScanImages(imgs: seq<Node>) returns (src: Option<string>)
    ensures src.Some? <==> FirstValue(AllowedSrc, imgs).Some?
    ensures src.Some? ==> src.value == FirstValue(AllowedSrc, imgs).value.value
  {
    src := None;
    for i := 0 to |imgs|
      invariant forall j :: 0 <= j < i ==> AllowedSrc(imgs[j]).None?
      invariant src.None?
    {
      if Attr(imgs[i], "src").Some? {
        var s := Attr(imgs[i], "src").value;
        if Allowed(s) {
          src := Some(s);
          FirstValueAt(AllowedSrc, imgs, i, s);
          break;
        }
      }
    }
  }

  predicate Truthy(u: Option<string>) {
    u.Some? && u.value != ""
  }

  /** What one image selector assigns to `image_url`, if it assigns at all:
      the og:image `content` (possibly missing), or the first allowed `src`. */
  function ImageAssign(q: Query, page: Node, selector: string): Option<Option<string>> {
    if selector == OgImage then
      match SelectOne(q, page, selector)
      case None => None
      case Some(e) => Some(Attr(e, "content"))
    else
      match FirstValue(AllowedSrc, q(page, selector))
      case None => None
      case Some(h) => Some(Some(h.value))
  }

  /** The image loop from its current `image_url`: stops at the first
      non-empty value; an empty or missing one is kept and the loop goes on. */
  function ImageFrom(q: Query, page: Node, selectors: seq<string>, current: Option<string>): Option<string>
    decreases |selectors|
  {
    if selectors == [] then current
    else
      match ImageAssign(q, page, selectors[0])
      case None => ImageFrom(q, page, selectors[1..], current)
      case Some(v) => if Truthy(v) then v else ImageFrom(q, page, selectors[1..], v)
  }

  function ImageOf(q: Query, page: Node): Option<string> {
    ImageFrom(q, page, ImageSelectors, None)
  }

  method FindImage(q: Query, page: Node) returns (imageUrl: Option<string>)
    ensures imageUrl == ImageOf(q, page)
  {
    imageUrl := None;
    for i := 0 to |ImageSelectors|
      invariant ImageOf(q, page) == ImageFrom(q, page, ImageSelectors[i..], imageUrl)
      invariant !Truthy(imageUrl)
    {
      var selector := ImageSelectors[i];
      assert ImageSelectors[i..][1..] == ImageSelectors[i + 1..];
      if selector == OgImage {
        var e := SelectOne(q, page, selector);
        if e.Some? {
          imageUrl := Attr(e.value, "content");
          if Truthy(imageUrl) {
            break;
          }
        }
      } else {
        var imgs := q(page, selector);
        if imgs != [] {
          var src := ScanImages(imgs);
          if src.Some? {
            imageUrl := src;
          }
          if Truthy(imageUrl) {
            break;
          }
        }
      }
    }
  }

  /** The value one selector offers when it offers a non-empty one. */
  function ImageRead(q: Query, page: Node, selector: string): Option<string> {
    match ImageAssign(q, page, selector)
    case Some(Some(u)) => if u != "" then Some(u) else None
    case _ => None
  }

  function ImageReader(q: Query, page: Node): string -> Option<string> {
    (selector: string) => ImageRead(q, page, selector)
  }

  lemma {:induction false} ImageFromFirst(q: Query, page: Node, selectors: seq<string>, current: Option<string>)
    requires !Truthy(current)
    ensures var h := FirstValue(ImageReader(q, page), selectors);
      && (h.Some? ==> ImageFrom(q, page, selectors, current) == Some(h.value.value))
      && (h.None? ==> !Truthy(ImageFrom(q, page, selectors, current)))
    decreases |selectors|
  {
    if selectors != [] {
      match ImageAssign(q, page, selectors[0])
      case None => ImageFromFirst(q, page, selectors[1..], current);
      case Some(v) =>
        if !Truthy(v) {
          ImageFromFirst(q, page, selectors[1..], v);
        }
    }
  }

  /** The image is the first non-empty value in selector order; any image
      that does not come from the og:image tag avoids the denylist. */
  lemma ImageChoice(q: Query, page: Node)
    ensures var h := FirstValue(ImageReader(q, page), ImageSelectors);
      && (h.Some? ==> ImageOf(q, page) == Some(h.value.value))
      && (h.None? ==> !Truthy(ImageOf(q, page)))
    ensures Truthy(ImageOf(q, page)) ==>
      || Allowed(ImageOf(q, page).value)
      || (SelectOne(q, page, OgImage).Some? && Attr(SelectOne(q, page, OgImage).value, "content") == ImageOf(q, page))
  {
    ImageFromFirst(q, page, ImageSelectors, None);
    var h := FirstValue(ImageReader(q, page), ImageSelectors);
    if h.Some? {
      var selector := ImageSelectors[h.value.index];
      assert ImageRead(q, page, selector) == Some(h.value.value);
      if selector != OgImage {
        var imgs := q(page, selector);
        var k := FirstValue(AllowedSrc, imgs).value;
        assert AllowedSrc(imgs[k.index]) == Some(h.value.value);
      }
    }
  }

  // ---------------------------------------------------------------- article

  datatype Article = Article(title: string, summary: string, url: string, imageUrl: Option<string>)

  /** `get_latest_article()`; `None` covers every path on which it logs an
      error and returns None, including the exceptions its handler catches. */
  function LatestArticle(q: Query, fetch: Fetch): Option<Article> {
    match fetch(GamerantUrl)
    case None => None
    case Some(doc) =>
      var listing := ListingOf(q, doc);
      if listing.NoArticles? then None
      else ArticleOf(q, fetch, listing.articles[0], listing.ByLinks?)
  }

  /** What `get_latest_article()` makes of the first listed article. */
  function ArticleOf(q: Query, fetch: Fetch, article: Node, linkMode: bool): Option<Article> {
    var title := Strip(TextOf(TitleElementOf(q, article, linkMode)));
    if title == "" then None
    else
      match HrefOf(q, article, linkMode)
      case None => None
      case Some(href) =>
        var url := AbsoluteUrl(href);
        match fetch(url)
        case None => None
        case Some(page) =>
          match SummaryOf(q, page)
          case None => None
          case Some(summary) => Some(Article(title, summary, url, ImageOf(q, page)))
  }

  method GetLatestArticle(q: Query, fetch: Fetch) returns (r: Option<Article>)
    ensures r == LatestArticle(q, fetch)
  {
    var response := fetch(GamerantUrl);
    if response.None? {
      return None;
    }
    var doc := response.value;
    var listing := FindArticles(q, doc);
    if listing.NoArticles? {
      return None;
    }
    var article := listing.articles[0];
    var linkMode := listing.ByLinks?;
    var titleElement := TitleElement(q, article, linkMode);
    var title := Strip(TextOf(titleElement));
    if title == "" {
      return None;
    }
    var href := HrefOf(q, article, linkMode);
    if href.None? {
      return None;
    }
    var url := AbsoluteUrl(href.value);
    var articleResponse := fetch(url);
    if articleResponse.None? {
      return None;
    }
    var page := articleResponse.value;
    var summary := FindSummary(q, page);
    if summary.None? {
      return None;
    }
    var imageUrl := FindImage(q, page);
    r := Some(Article(title, summary.value, url, imageUrl));
  }

  /** What every returned article satisfies: a stripped non-empty title, an
      absolute URL and a non-empty summary. */
  lemma ArticleShape(q: Query, fetch: Fetch)
    requires LatestArticle(q, fetch).Some?
    ensures var a := LatestArticle(q, fetch).value;
      && a.title != "" && Stripped(a.title)
      && StartsWith(a.url, "http")
      && a.summary != ""
  {
    var listing := ListingOf(q, fetch(GamerantUrl).value);
    ArticleOfShape(q, fetch, listing.articles[0], listing.ByLinks?);
  }

  lemma ArticleOfShape(q: Query, fetch: Fetch, article: Node, linkMode: bool)
    requires ArticleOf(q, fetch, article, linkMode).Some?
    ensures var a := ArticleOf(q, fetch, article, linkMode).value;
      && a.title != "" && Stripped(a.title)
      && StartsWith(a.url, "http")
      && a.summary != ""
  {
    var href := HrefOf(q, article, linkMode).value;
    SummaryNonEmpty(q, fetch(AbsoluteUrl(href)).value);
  }

  /** A summary, found or the fixed sentence, is never empty. */
  lemma SummaryNonEmpty(q: Query, page: Node)
    ensures SummaryOf(q, page).Some? ==> SummaryOf(q, page).value != ""
  {
    var h := FirstValue(SummaryReader(q, page), SummarySelectors);
    if h.Some? {
      assert SummaryRead(q, page, SummarySelectors[h.value.index]) == Some(h.value.value);
    }
  }

  // --------------------------------------------------------------- delivery

  datatype Request = SendPhoto(photo: string, caption: string) | SendMessage(text: string)

  /** The HTTP response to a Bot API call, or the exception `requests.post`
      raised. */
  datatype Response = Status(code: int) | ConnectionFailed

  const CaptionSeps: seq<string> := ["\U{26A1} *", "*\n\n_", "_\n\n\U{1F341} | @GamediaNews_acn"]

  /** The Markdown caption: bold title, italic summary, signature. */
  function Caption(a: Article): string {
    Render(CaptionSeps, [a.title, a.summary])
  }

  /** The caption determines the title and summary it was built from, as
      long as the title has no `*`. */
  lemma CaptionRoundTrip(a: Article)
    requires '*' !in a.title
    ensures Parse(CaptionSeps, Caption(a)) == Some([a.title, a.summary])
  {
    ParseRender(CaptionSeps, [a.title, a.summary]);
  }

  /** The photo path checks `status_code != 200` itself; the text path only
      calls `raise_for_status()`, which raises for 4xx and 5xx. */
  predicate Accepted(req: Request, resp: Response) {
    if req.SendPhoto? then resp == Status(200)
    else resp.Status? && !(400 <= resp.code < 600)
  }

  function TextRequest(a: Article): Request {
    SendMessage(Caption(a) + "\n\n" + a.url)
  }

  /** `send_telegram_message`: whether it returns True, and the requests it
      made in order. */
  function Delivery(article: Option<Article>, post: Request -> Response): (r: (bool, seq<Request>))
    ensures article.None? ==> r == (false, [])
    ensures article.Some? ==> 1 <= |r.1| <= 2
    ensures r.0 <==> r.1 != [] && Accepted(r.1[|r.1| - 1], post(r.1[|r.1| - 1]))
    ensures forall i :: 0 <= i < |r.1| - 1 ==> !Accepted(r.1[i], post(r.1[i]))
    ensures article.Some? ==>
      (r.1[0].SendPhoto? <==> Truthy(article.value.imageUrl))
    ensures article.Some? ==> forall i :: 0 <= i < |r.1| && r.1[i].SendMessage? ==>
      r.1[i] == TextRequest(article.value)
    ensures article.Some? ==> forall i :: 0 <= i < |r.1| && r.1[i].SendPhoto? ==>
      i == 0 && r.1[i] == SendPhoto(article.value.imageUrl.GetOr(""), Caption(article.value))
  {
    match article
    case None => (false, [])
    case Some(a) =>
      var text := TextRequest(a);
      if Truthy(a.imageUrl) then
        var photo := SendPhoto(a.imageUrl.value, Caption(a));
        if Accepted(photo, post(photo)) then (true, [photo])
        else (Accepted(text, post(text)), [photo, text])
      else (Accepted(text, post(text)), [text])
  }

  method SendTelegramMessage(article: Option<Article>, post: Request -> Response)
    returns (ok: bool, sent: seq<Request>)
    ensures (ok, sent) == Delivery(article, post)
  {
    if article.None? {
      return false, [];
    }
    var a := article.value;
    sent := [];
    if Truthy(a.imageUrl) {
      var photo := SendPhoto(a.imageUrl.value, Caption(a));
      sent := [photo];
      var response := post(photo);
      if response == Status(200) {
        return true, sent;
      }
    }
    var text := TextRequest(a);
    sent := sent + [text];
    var response := post(text);
    ok := response.Status? && !(400 <= response.code < 600);
    assert Truthy(a.imageUrl) ==> sent == [SendPhoto(a.imageUrl.value, Caption(a)), text];
    assert !Truthy(a.imageUrl) ==> sent == [text];
  }

  // -------------------------------------------------------------------- run

  /** The stored last URL after the run, and the requests the run made. */
  datatype RunResult = RunResult(stored: Option<string>, sent: seq<Request>)

  /** `get_last_article_url()`: the stripped file content, None without a file. */
  function LastUrl(stored: Option<string>): Option<string> {
    match stored
    case None => None
    case Some(content) => Some(Strip(content))
  }

  /** `main()`: `configured` says whether both credentials are set. */
  function BotRun(configured: bool, q: Query, fetch: Fetch, post: Request -> Response, stored: Option<string>): RunResult {
    if !configured then RunResult(stored, [])
    else
      match LatestArticle(q, fetch)
      case None => RunResult(stored, [])
      case Some(a) =>
        var last := LastUrl(stored);
        if last.Some? && last.value != "" && last.value == a.url then RunResult(stored, [])
        else
          var (ok, sent) := Delivery(Some(a), post);
          RunResult(if ok then Some(a.url) else stored, sent)
  }

  method RunBot(configured: bool, q: Query, fetch: Fetch, post: Request -> Response, stored: Option<string>)
    returns (r: RunResult)
    ensures r == BotRun(configured, q, fetch, post, stored)
  {
    if !configured {
      return RunResult(stored, []);
    }
    var article := GetLatestArticle(q, fetch);
    if article.None? {
      return RunResult(stored, []);
    }
    var lastUrl := LastUrl(stored);
    if lastUrl.Some? && lastUrl.value != "" && lastUrl.value == article.value.url {
      return RunResult(stored, []);
    }
    var ok, sent := SendTelegramMessage(article, post);
    if ok {
      return RunResult(Some(article.value.url), sent);
    }
    return RunResult(stored, sent);
  }

  /** Sending is skipped exactly when the stored URL equals the article's,
      and the URL is stored only after a send that succeeded. */
  lemma RunDedup(q: Query, fetch: Fetch, post: Request -> Response, stored: Option<string>)
    requires LatestArticle(q, fetch).Some?
    ensures var a := LatestArticle(q, fetch).value;
      var r := BotRun(true, q, fetch, post, stored);
      && (r.sent == [] <==> LastUrl(stored) == Some(a.url))
      && (r.stored != stored ==> r.stored == Some(a.url) && Delivery(Some(a), post).0)
      && (r.sent != [] && Delivery(Some(a), post).0 ==> r.stored == Some(a.url))
  {
    ArticleShape(q, fetch);
  }

  /** Running again after a successful post, with the page unchanged, posts
      nothing, as long as the URL survives the `strip()` on reading it back. */
  lemma RunIdempotent(q: Query, fetch: Fetch, post: Request -> Response, stored: Option<string>)
    requires LatestArticle(q, fetch).Some?
    requires Stripped(LatestArticle(q, fetch).value.url)
    ensures var r := BotRun(true, q, fetch, post, stored);
      r.stored != stored ==> BotRun(true, q, fetch, post, r.stored) == RunResult(r.stored, [])
  {
    var a := LatestArticle(q, fetch).value;
    ArticleShape(q, fetch);
    StripKeepsStripped(a.url);
  }
}

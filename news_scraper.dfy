/**
 * scraper.py: read the articles of a news page, send each one whose link
 * is not in the posted-links list as a media group (one photo per image,
 * the message as the first caption, hashtags drawn from the title) and
 * extend the list with the links sent.
 */
module NewsScraper {
  import opened Wrappers
  import opened Strings
  import opened Seqs
  import opened Html
  import opened Template

  const Keywords: seq<string> := ["PC", "Xbox", "PlayStation", "Esports", "Mobile"]
  const FallbackImage := "https://example.com/default_image.png"
  const ArticleSelector := "article"
  const TitleSelector := "h3 a"
  const SummarySelector := "p"
  const ImageSelector := "img"
  const Signature := "\U{1F341} | @GamediaNews_acn"
  const MessageSeps: seq<string> := ["<b>\U{26A1} ", "</b>\n\n<i>", "</i>\n\n", "\n" + Signature]

  // -------------------------------------------------------------- hashtags

  /** The lower-cased keyword occurs somewhere in the lower-cased title. */
  predicate Mentions(title: string, keyword: string) {
    Contains(Lower(title), Lower(keyword))
  }

  function Tag(keyword: string): string {
    "#" + keyword
  }

  /** The keywords a title mentions, in the fixed keyword order. */
  function Matched(title: string): (r: seq<string>)
    ensures forall k :: k in r <==> k in Keywords && Mentions(title, k)
  {
    Filter(Keywords, (k: string) => Mentions(title, k))
  }

  /** `extract_hashtags(title)`: `#keyword` for each keyword the title
      mentions, in keyword order, separated by single spaces; `""` when it
      mentions none. */
  function ExtractHashtags(title: string): (r: string)
    ensures r == "" <==> Matched(title) == []
    ensures Matched(title) != [] ==> Split(r, ' ') == Map(Tag, Matched(title))
  {
    var tags := Map(Tag, Matched(title));
    if tags == [] then Join(" ", tags)
    else
      JoinFirst(" ", tags);
      TagsSpaceFree(Matched(title));
      SplitJoin(tags, ' ');
      Join(" ", tags)
  }

  /** No tag of a keyword holds a space. */
  lemma TagsSpaceFree(ks: seq<string>)
    requires forall i :: 0 <= i < |ks| ==> ks[i] in Keywords
    ensures forall i :: 0 <= i < |ks| ==> ' ' !in Map(Tag, ks)[i] && Map(Tag, ks)[i] != ""
  {
    forall i | 0 <= i < |ks| ensures ' ' !in Map(Tag, ks)[i] && Map(Tag, ks)[i] != "" {
      var k := ks[i];
      assert Map(Tag, ks)[i] == ['#'] + k;
      assert ' ' !in k by {
        assert k == "PC" || k == "Xbox" || k == "PlayStation" || k == "Esports" || k == "Mobile";
      }
    }
  }

  // ---------------------------------------------------------------- images

  predicate HasSrc(img: Node) {
    Attr(img, "src").Some?
  }

  function Src(img: Node): string {
    Attr(img, "src").GetOr("")
  }

  /** The `image_urls` list: the `src` of every image that has one, in
      order, or the fallback image alone when none has. */
  function ImageUrls(images: seq<Node>): (r: seq<string>)
    ensures r != []
    ensures (forall i :: 0 <= i < |images| ==> !HasSrc(images[i])) ==> r == [FallbackImage]
    ensures (exists i :: 0 <= i < |images| && HasSrc(images[i])) ==> r == Map(Src, Filter(images, HasSrc))
  {
    var withSrc := Filter(images, HasSrc);
    var urls := Map(Src, withSrc);
    if urls == [] then [FallbackImage]
    else
      assert withSrc[0] in images && HasSrc(withSrc[0]);
      urls
  }

  /** One `InputMediaPhoto`. */
  datatype Media = Photo(url: string, caption: string)

  /** The media group: one photo per URL, in order; the first carries the
      message as its caption and every other one the empty caption. */
  function MediaGroup(urls: seq<string>, message: string): (r: seq<Media>)
    ensures |r| == |urls|
    ensures forall i :: 0 <= i < |r| ==> r[i].url == urls[i]
    ensures forall i :: 0 <= i < |r| ==> r[i].caption == (if i == 0 then message else "")
  {
    seq(|urls|, i requires 0 <= i < |urls| => Photo(urls[i], if i == 0 then message else ""))
  }

  // --------------------------------------------------------------- message

  /** The message: bold title, blank line, italic summary, blank line, the
      hashtag line and the signature. */
  function Message(title: string, summary: string, hashtags: string): (r: string)
    ensures StartsWith(r, "<b>\U{26A1} ") && EndsWith(r, "\n" + Signature)
  {
    RenderFrame(MessageSeps, [title, summary, hashtags]);
    Render(MessageSeps, [title, summary, hashtags])
  }

  /** The message determines the title, the summary and the hashtags
      whenever neither title nor summary holds a `<`. */
  lemma MessageRoundTrip(title: string, summary: string, hashtags: string)
    requires '<' !in title && '<' !in summary
    ensures Parse(MessageSeps, Message(title, summary, hashtags)) == Some([title, summary, hashtags])
  {
    var fields := [title, summary, hashtags];
    assert MessageSeps[1][0] == '<' && MessageSeps[2][0] == '<';
    assert Separable(MessageSeps, fields);
    ParseRender(MessageSeps, fields);
  }

  // -------------------------------------------------------------- articles

  /** What the loop body reads from one article element. */
  datatype Item = Item(title: string, link: string, summary: string, imageUrls: seq<string>)

  /** The reads at the top of the `try` block: `None` when one of them
      raises (no `h3 a` element, no `href` on it, no `p` element). */
  function ItemOf(q: Query, article: Node): (r: Option<Item>)
    ensures r.Some? <==>
      && SelectOne(q, article, TitleSelector).Some?
      && Attr(SelectOne(q, article, TitleSelector).value, "href").Some?
      && SelectOne(q, article, SummarySelector).Some?
    ensures r.Some? ==> r.value.link == Attr(SelectOne(q, article, TitleSelector).value, "href").value
    ensures r.Some? ==> r.value == Item(
      Strip(TextOf(SelectOne(q, article, TitleSelector).value)),
      Attr(SelectOne(q, article, TitleSelector).value, "href").value,
      Strip(TextOf(SelectOne(q, article, SummarySelector).value)),
      ImageUrls(q(article, ImageSelector)))
    ensures r.Some? ==> Stripped(r.value.title) && Stripped(r.value.summary) && r.value.imageUrls != []
  {
    match SelectOne(q, article, TitleSelector)
    case None => None
    case Some(titleTag) =>
      match (Attr(titleTag, "href"), SelectOne(q, article, SummarySelector))
      case (Some(link), Some(p)) =>
        Some(Item(Strip(TextOf(titleTag)), link, Strip(TextOf(p)), ImageUrls(q(article, ImageSelector))))
      case _ => None
  }

  function GroupOf(item: Item): seq<Media> {
    MediaGroup(item.imageUrls, Message(item.title, item.summary, ExtractHashtags(item.title)))
  }

  /** Whether `send_media_group` returns without raising: the channel's
      answer, supplied from outside. */
  type Send = seq<Media> -> bool

  /** One pass of the loop body: the link it appends to `new_links`, or
      `None` when the article raises, is already posted, or its send
      raises. */
  function Step(q: Query, send: Send, posted: seq<string>, article: Node): (r: Option<string>)
    ensures r.Some? <==>
      ItemOf(q, article).Some? && ItemOf(q, article).value.link !in posted && send(GroupOf(ItemOf(q, article).value))
    ensures r.Some? ==> r.value == ItemOf(q, article).value.link
  {
    match ItemOf(q, article)
    case None => None
    case Some(item) =>
      if item.link in posted then None
      else if send(GroupOf(item)) then Some(item.link)
      else None
  }

  function StepOf(q: Query, send: Send, posted: seq<string>): Node -> Option<string> {
    (article: Node) => Step(q, send, posted, article)
  }

  /** `new_links` after the loop: checked against the list loaded at the
      start, which the loop never updates. */
  function NewLinks(q: Query, send: Send, posted: seq<string>, articles: seq<Node>): (r: seq<string>)
    ensures forall l :: l in r ==> l !in posted
  {
    var links := FilterMap(StepOf(q, send, posted), articles);
    assert forall l :: l in links ==> l !in posted by {
      forall l | l in links ensures l !in posted {
        FilterMapFrom(StepOf(q, send, posted), articles, l);
      }
    }
    links
  }

  /** The media group the loop body hands to `send_media_group`, whatever
      the channel then answers: `None` when the article raises before the
      send or its link is already posted. */
  function Attempt(q: Query, posted: seq<string>, article: Node): (r: Option<seq<Media>>)
    ensures r.Some? <==> ItemOf(q, article).Some? && ItemOf(q, article).value.link !in posted
    ensures r.Some? ==> r.value == GroupOf(ItemOf(q, article).value)
  {
    match ItemOf(q, article)
    case None => None
    case Some(item) => if item.link in posted then None else Some(GroupOf(item))
  }

  function AttemptOf(q: Query, posted: seq<string>): Node -> Option<seq<Media>> {
    (article: Node) => Attempt(q, posted, article)
  }

  /** The media groups a run sends, in page order; `send` decides only
      which of them raise. */
  function Sends(q: Query, page: Option<Node>, stored: Option<seq<string>>): seq<seq<Media>> {
    match page
    case None => []
    case Some(doc) => FilterMap(AttemptOf(q, stored.GetOr([])), q(doc, ArticleSelector))
  }

  /** `scrape_news()`: `page` is the fetched page, `None` when the request
      raises and the script stops before loading anything; `stored` is the
      posted-links file, `None` when it does not exist. The result is the
      file afterwards. */
  function Scrape(q: Query, page: Option<Node>, send: Send, stored: Option<seq<string>>): Option<seq<string>> {
    match page
    case None => stored
    case Some(doc) =>
      var posted := stored.GetOr([]);
      Some(posted + NewLinks(q, send, posted, q(doc, ArticleSelector)))
  }

  method ScrapeNews(q: Query, page: Option<Node>, send: Send, stored: Option<seq<string>>)
    returns (sent: seq<seq<Media>>, saved: Option<seq<string>>)
    ensures sent == Sends(q, page, stored)
    ensures saved == Scrape(q, page, send, stored)
  {
    sent := [];
    if page.None? {
      return sent, stored;
    }
    var articles := q(page.value, ArticleSelector);
    var postedLinks := stored.GetOr([]);
    var newLinks := [];
    for i := 0 to |articles|
      invariant newLinks == FilterMap(StepOf(q, send, postedLinks), articles[..i])
      invariant sent == FilterMap(AttemptOf(q, postedLinks), articles[..i])
    {
      FilterMapPrefix(StepOf(q, send, postedLinks), articles, i);
      FilterMapPrefix(AttemptOf(q, postedLinks), articles, i);
      var item := ItemOf(q, articles[i]);
      if item.None? {
        continue;
      }
      if item.value.link in postedLinks {
        continue;
      }
      var hashtags := ExtractHashtags(item.value.title);
      var message := Message(item.value.title, item.value.summary, hashtags);
      var group := MediaGroup(item.value.imageUrls, message);
      sent := sent + [group];
      if !send(group) {
        continue;
      }
      newLinks := newLinks + [item.value.link];
    }
    assert articles[..|articles|] == articles;
    postedLinks := postedLinks + newLinks;
    return sent, Some(postedLinks);
  }

  // ------------------------------------------------------------ properties

  /** An article whose processing raises contributes no link and does not
      disturb the articles around it. */
  lemma FailureIsolated(q: Query, send: Send, posted: seq<string>, a: seq<Node>, x: Node, b: seq<Node>)
    requires Step(q, send, posted, x).None?
    ensures NewLinks(q, send, posted, a + [x] + b) == NewLinks(q, send, posted, a + b)
  {
    FilterMapSkip(StepOf(q, send, posted), a, x, b);
  }

  /** The same new article twice on one page is sent twice: the list the
      loop checks against is the one loaded before it. */
  lemma DuplicateOnPageSentTwice(q: Query, send: Send, posted: seq<string>, x: Node, link: string)
    requires Step(q, send, posted, x) == Some(link)
    ensures NewLinks(q, send, posted, [x, x]) == [link, link]
  {
    FilterMapTwice(StepOf(q, send, posted), x, link);
  }

  /** An article that raises before the send, or whose link was loaded at
      the start, is not sent and does not disturb the other sends. */
  lemma PostedNotSent(q: Query, posted: seq<string>, a: seq<Node>, x: Node, b: seq<Node>)
    requires ItemOf(q, x).None? || ItemOf(q, x).value.link in posted
    ensures FilterMap(AttemptOf(q, posted), a + [x] + b) == FilterMap(AttemptOf(q, posted), a + b)
  {
    FilterMapSkip(AttemptOf(q, posted), a, x, b);
  }

  /** A second run on the same page, with the list the first run saved and
      a channel that answers the same way, saves the same list. */
  lemma RerunKeepsList(q: Query, doc: Node, send: Send, stored: Option<seq<string>>)
    ensures var saved := Scrape(q, Some(doc), send, stored);
      Scrape(q, Some(doc), send, saved) == saved
  {
    var articles := q(doc, ArticleSelector);
    var posted := stored.GetOr([]);
    var added := NewLinks(q, send, posted, articles);
    var posted' := posted + added;
    forall j | 0 <= j < |articles| ensures StepOf(q, send, posted')(articles[j]).None? {
      if Step(q, send, posted, articles[j]).Some? {
        FilterMapKeeps(StepOf(q, send, posted), articles, j);
      }
    }
    FilterMapNone(StepOf(q, send, posted'), articles);
    assert posted' + [] == posted';
  }

  /** On the second run, an article whose send went through the first time
      is not sent again. */
  lemma RerunSkipsSent(q: Query, doc: Node, send: Send, stored: Option<seq<string>>, j: nat)
    requires j < |q(doc, ArticleSelector)|
    requires Step(q, send, stored.GetOr([]), q(doc, ArticleSelector)[j]).Some?
    ensures Attempt(q, Scrape(q, Some(doc), send, stored).value, q(doc, ArticleSelector)[j]).None?
  {
    FilterMapKeeps(StepOf(q, send, stored.GetOr([])), q(doc, ArticleSelector), j);
  }

  /** On the second run, an article whose send raised the first time is sent
      again, with the same media group, unless another article on the page
      got its link saved. */
  lemma RerunRetriesFailed(q: Query, doc: Node, send: Send, stored: Option<seq<string>>, j: nat)
    requires j < |q(doc, ArticleSelector)|
    requires var x := q(doc, ArticleSelector)[j];
      && Attempt(q, stored.GetOr([]), x).Some?
      && !send(Attempt(q, stored.GetOr([]), x).value)
      && forall k :: 0 <= k < |q(doc, ArticleSelector)| ==>
           Step(q, send, stored.GetOr([]), q(doc, ArticleSelector)[k]) != Some(ItemOf(q, x).value.link)
    ensures var x := q(doc, ArticleSelector)[j];
      Attempt(q, Scrape(q, Some(doc), send, stored).value, x) == Attempt(q, stored.GetOr([]), x)
  {
    var articles := q(doc, ArticleSelector);
    var posted := stored.GetOr([]);
    var link := ItemOf(q, articles[j]).value.link;
    if link in NewLinks(q, send, posted, articles) {
      FilterMapFrom(StepOf(q, send, posted), articles, link);
    }
  }
}

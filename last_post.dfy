/**
 * main.py: scrape the GameRant listing into cards, post the first card not
 * yet posted while walking the list from its end, and remember that card's
 * link in a one-line file so the next run skips it.
 */
module LastPostBot {
  import opened Wrappers
  import opened Strings
  import opened Seqs
  import opened Html
  import opened Cascade
  import opened Template

  const PageUrl := "https://gamerant.com/gaming/"
  const SiteOrigin := "https://gamerant.com"
  const CardSelector := "div.browse-card"
  const TitleSelector := "h3.browse-title"
  const SummarySelector := "p.browse-excerpt"
  const ImageSelector := "img.browse-image"
  const LinkSelector := "a.browse-link"
  const Signature := "\U{1F341} | @GamediaNews_acn"
  const PostSeps: seq<string> := ["<b>\U{26A1} ", "</b>\n\n<i>", "</i>\n\n" + Signature]

  /** `requests.get(url)` with `raise_for_status()` and parsing: `None` when
      either raises. */
  type Fetch = string -> Option<Node>

  /** One entry of the `articles` list. */
  datatype Card = Card(title: string, summary: string, image: string, link: string)

  // ---------------------------------------------------------------- scrape

  /** The prefix conditionals: a root-relative URL gets the site's origin in
      front, any other value is kept as it is. */
  function Absolute(u: string): (r: string)
    ensures !StartsWith(r, "/")
    ensures EndsWith(r, u)
    ensures r == u <==> !StartsWith(u, "/")
  {
    if StartsWith(u, "/") then
      var r := SiteOrigin + u;
      assert r[0] == 'h' && r[|r| - |u|..] == u;
      r
    else u
  }

  /** The `try` block of the card loop: `None` when an element or an
      attribute it reads is missing, so that the card is skipped. */
  function CardOf(q: Query, card: Node): (r: Option<Card>)
    ensures r.Some? <==>
      && SelectOne(q, card, TitleSelector).Some?
      && SelectOne(q, card, SummarySelector).Some?
      && SelectOne(q, card, ImageSelector).Some?
      && Attr(SelectOne(q, card, ImageSelector).value, "src").Some?
      && SelectOne(q, card, LinkSelector).Some?
      && Attr(SelectOne(q, card, LinkSelector).value, "href").Some?
    ensures r.Some? ==> r.value == Card(
      GetTextStripped(SelectOne(q, card, TitleSelector).value),
      GetTextStripped(SelectOne(q, card, SummarySelector).value),
      Absolute(Attr(SelectOne(q, card, ImageSelector).value, "src").value),
      Absolute(Attr(SelectOne(q, card, LinkSelector).value, "href").value))
    ensures r.Some? ==> !StartsWith(r.value.image, "/") && !StartsWith(r.value.link, "/")
    ensures r.Some? ==> EndsWith(r.value.image, Attr(SelectOne(q, card, ImageSelector).value, "src").value)
    ensures r.Some? ==> EndsWith(r.value.link, Attr(SelectOne(q, card, LinkSelector).value, "href").value)
  {
    var title := SelectOne(q, card, TitleSelector);
    var summary := SelectOne(q, card, SummarySelector);
    var image := SelectOne(q, card, ImageSelector);
    var link := SelectOne(q, card, LinkSelector);
    if title.None? || summary.None? || image.None? || link.None? then None
    else
      match (Attr(image.value, "src"), Attr(link.value, "href"))
      case (Some(src), Some(href)) =>
        Some(Card(GetTextStripped(title.value), GetTextStripped(summary.value), Absolute(src), Absolute(href)))
      case _ => None
  }

  function CardReader(q: Query): Node -> Option<Card> {
    (card: Node) => CardOf(q, card)
  }

  /** The cards the loop collects from a list of card elements, in page order. */
  function CardsOf(q: Query, cards: seq<Node>): seq<Card> {
    FilterMap(CardReader(q), cards)
  }

  /** `scrape_gamerant()`: any failure of the request gives no articles. */
  function Scrape(q: Query, fetch: Fetch): seq<Card> {
    match fetch(PageUrl)
    case None => []
    case Some(doc) => CardsOf(q, q(doc, CardSelector))
  }

  method ScrapeGamerant(q: Query, fetch: Fetch) returns (articles: seq<Card>)
    ensures articles == Scrape(q, fetch)
  {
    var response := fetch(PageUrl);
    if response.None? {
      return [];
    }
    var cards := q(response.value, CardSelector);
    articles := [];
    for i := 0 to |cards|
      invariant articles == CardsOf(q, cards[..i])
    {
      assert cards[..i + 1][..i] == cards[..i];
      var card := CardOf(q, cards[i]);
      if card.None? {
        continue;
      }
      articles := articles + [card.value];
    }
    assert cards[..|cards|] == cards;
  }

  /** A card element the `try` block rejects is skipped and changes nothing
      else: the other cards keep their order. */
  lemma CardsSkip(q: Query, a: seq<Node>, x: Node, b: seq<Node>)
    requires CardOf(q, x).None?
    ensures CardsOf(q, a + [x] + b) == CardsOf(q, a + b)
  {
    FilterMapSkip(CardReader(q), a, x, b);
  }

  // ---------------------------------------------------------------- format

  /** `format_post(article)`: the bold title line, a blank line, the italic
      summary, a blank line and the channel signature. Whenever the title
      holds no `<`, the message determines the title and the summary. */
  function FormatPost(c: Card): (r: string)
    ensures StartsWith(r, "<b>\U{26A1} ") && EndsWith(r, "</i>\n\n" + Signature)
    ensures '<' !in c.title ==> Parse(PostSeps, r) == Some([c.title, c.summary])
  {
    var fields := [c.title, c.summary];
    RenderFrame(PostSeps, fields);
    if '<' in c.title then Render(PostSeps, fields)
    else
      assert PostSeps[1][0] == '<' && Separable(PostSeps, fields);
      ParseRender(PostSeps, fields);
      Render(PostSeps, fields)
  }

  // ------------------------------------------------------------------ send

  /** Whether downloading the card's image and sending it as a photo both
      succeed: the channel's answer, supplied from outside. */
  type Deliver = Card -> bool

  /** What visiting one card yields: the card when it is posted, `None`
      when it is skipped as the cached link or its send raises. */
  function PostReader(cache: string, deliver: Deliver): Card -> Option<Card> {
    (c: Card) => if c.link != cache && deliver(c) then Some(c) else None
  }

  /** The position of the card `send_to_telegram` posts: the first one met
      walking the list from its end that is not the cached link and whose
      send succeeds. */
  function PostedAt(articles: seq<Card>, cache: string, deliver: Deliver): (r: Option<nat>)
    ensures r.Some? ==> r.value < |articles|
  {
    match FirstValue(PostReader(cache, deliver), Reverse(articles))
    case None => None
    case Some(h) => Some(|articles| - 1 - h.index)
  }

  /** The cards actually posted: none or one. */
  function SentOf(articles: seq<Card>, cache: string, deliver: Deliver): (r: seq<Card>)
    ensures |r| <= 1
  {
    match PostedAt(articles, cache, deliver)
    case None => []
    case Some(k) => [articles[k]]
  }

  /** The value `send_to_telegram` returns. */
  function NewLastPost(articles: seq<Card>, cache: string, deliver: Deliver): string {
    match PostedAt(articles, cache, deliver)
    case None => cache
    case Some(k) => articles[k].link
  }

  /** The card met `j`-th walking from the end is the one posted. */
  lemma PostedHit(articles: seq<Card>, cache: string, deliver: Deliver, j: nat, c: Card)
    requires j < |articles| && FirstValue(PostReader(cache, deliver), Reverse(articles)) == Some(Hit(j, c))
    ensures c == articles[|articles| - 1 - j]
    ensures SentOf(articles, cache, deliver) == [c] && NewLastPost(articles, cache, deliver) == c.link
  {
    var read := PostReader(cache, deliver);
    var x := Reverse(articles)[j];
    assert x == articles[|articles| - 1 - j];
    assert read(x) == Some(c);
    assert read(x) == if x.link != cache && deliver(x) then Some(x) else None;
  }

  method SendToTelegram(articles: seq<Card>, cache: string, deliver: Deliver)
    returns (newLastPost: string, sent: seq<Card>)
    ensures newLastPost == NewLastPost(articles, cache, deliver)
    ensures sent == SentOf(articles, cache, deliver)
  {
    newLastPost := cache;
    sent := [];
    ghost var visit := Reverse(articles);
    ghost var read := PostReader(cache, deliver);
    for j := 0 to |articles|
      invariant FirstValue(read, visit[..j]).None?
      invariant newLastPost == cache && sent == []
    {
      var article := articles[|articles| - 1 - j];
      assert article == visit[j];
      // a card with the cached link is skipped before any send is tried
      if article.link != cache && deliver(article) {
        sent := [article];
        newLastPost := article.link;
        FirstValueAfterNone(read, visit, j, article);
        PostedHit(articles, cache, deliver, j, article);
        return;
      }
      FirstValueExtendNone(read, visit, j);
    }
    assert visit[..|articles|] == visit;
  }

  /** The card posted is the last card in list order that is not the cached
      link and whose send succeeds; every card after it was skipped or
      failed. When nothing is posted, every card was skipped or failed. */
  lemma PostedChoice(articles: seq<Card>, cache: string, deliver: Deliver)
    ensures match PostedAt(articles, cache, deliver)
      case Some(k) =>
        && articles[k].link != cache && deliver(articles[k])
        && forall j :: k < j < |articles| ==> articles[j].link == cache || !deliver(articles[j])
      case None =>
        forall j :: 0 <= j < |articles| ==> articles[j].link == cache || !deliver(articles[j])
  {
    var visit := Reverse(articles);
    var read := PostReader(cache, deliver);
    match FirstValue(read, visit)
    case None =>
      forall j | 0 <= j < |articles| ensures articles[j].link == cache || !deliver(articles[j]) {
        assert visit[|articles| - 1 - j] == articles[j];
        assert read(visit[|articles| - 1 - j]).None?;
      }
    case Some(h) =>
      var k := |articles| - 1 - h.index;
      assert visit[h.index] == articles[k];
      forall j | k < j < |articles| ensures articles[j].link == cache || !deliver(articles[j]) {
        assert visit[|articles| - 1 - j] == articles[j];
        assert read(visit[|articles| - 1 - j]).None?;
      }
  }

  // ------------------------------------------------------------------ main

  /** `read_last_post()`: the file's content stripped, `""` when it does not
      exist. */
  function ReadLastPost(file: Option<string>): (r: string)
    ensures Stripped(r)
    ensures file.None? ==> r == ""
  {
    Strip(file.GetOr(""))
  }

  /** `write_last_post(link)` followed by `read_last_post()` gives the link
      back, provided it carries no surrounding whitespace. */
  lemma WriteRead(link: string)
    requires Stripped(link)
    ensures ReadLastPost(Some(link)) == link
  {
    StripKeepsStripped(link);
  }

  /** What one run posts and the last-post file it leaves. */
  datatype MainResult = MainResult(sent: seq<Card>, file: Option<string>)

  /** `main()`: `configured` says whether both environment variables are
      set; `file` is the last-post file, `None` when it does not exist. */
  function MainRun(configured: bool, q: Query, fetch: Fetch, deliver: Deliver, file: Option<string>): MainResult {
    if !configured then MainResult([], file)
    else
      var last := ReadLastPost(file);
      var articles := Scrape(q, fetch);
      if articles == [] then MainResult([], file)
      else
        var newLast := NewLastPost(articles, last, deliver);
        MainResult(SentOf(articles, last, deliver), if newLast != last then Some(newLast) else file)
  }

  method RunMain(configured: bool, q: Query, fetch: Fetch, deliver: Deliver, file: Option<string>)
    returns (r: MainResult)
    ensures r == MainRun(configured, q, fetch, deliver, file)
  {
    if !configured {
      return MainResult([], file);
    }
    var lastPost := ReadLastPost(file);
    var articles := ScrapeGamerant(q, fetch);
    if articles == [] {
      return MainResult([], file);
    }
    var newLastPost, sent := SendToTelegram(articles, lastPost, deliver);
    var written := file;
    if newLastPost != lastPost {
      written := Some(newLastPost);
    }
    return MainResult(sent, written);
  }

  /** The file is rewritten only after a post, and then holds the posted
      card's link; a run that posts nothing leaves the file alone. */
  lemma MainWritesOnPost(configured: bool, q: Query, fetch: Fetch, deliver: Deliver, file: Option<string>)
    ensures var r := MainRun(configured, q, fetch, deliver, file);
      && (r.file != file ==> |r.sent| == 1 && r.file == Some(r.sent[0].link))
      && (r.sent == [] ==> r.file == file)
      && (r.sent != [] ==> r.sent[0].link != ReadLastPost(file) && r.file == Some(r.sent[0].link))
  {
    var r := MainRun(configured, q, fetch, deliver, file);
    if configured && Scrape(q, fetch) != [] {
      PostedChoice(Scrape(q, fetch), ReadLastPost(file), deliver);
    }
  }

  /** On a page of two cards whose sends succeed, the run posts the second
      card unless it is the remembered one, and then the first. */
  lemma RunOnTwo(q: Query, fetch: Fetch, deliver: Deliver, file: Option<string>, a: Card, b: Card)
    requires Scrape(q, fetch) == [a, b]
    requires a.link != b.link && deliver(a) && deliver(b)
    ensures var r := MainRun(true, q, fetch, deliver, file);
      var posted := if ReadLastPost(file) != b.link then b else a;
      r.sent == [posted] && r.file == Some(posted.link)
  {
    PostedOnTwo(a, b, ReadLastPost(file), deliver);
  }

  lemma PostedOnTwo(a: Card, b: Card, cache: string, deliver: Deliver)
    requires a.link != b.link && deliver(a) && deliver(b)
    ensures PostedAt([a, b], cache, deliver) == Some(if cache != b.link then 1 else 0)
  {
    var cards := [a, b];
    PostedChoice(cards, cache, deliver);
    assert cards[0] == a && cards[1] == b;
    var posts := (j: nat) requires j < 2 => cards[j].link != cache && deliver(cards[j]);
    assert posts(0) || posts(1);
    if cache != b.link {
      assert posts(1);
    } else {
      assert !posts(1);
    }
  }

  /** A single remembered link does not stop reposts: with an unchanged page
      of two cards whose sends succeed, successive runs post the second
      card, then the first, then the second again. */
  lemma RepostsAlternately(q: Query, fetch: Fetch, deliver: Deliver, file: Option<string>, a: Card, b: Card)
    requires Scrape(q, fetch) == [a, b]
    requires a.link != b.link && Stripped(a.link) && Stripped(b.link)
    requires deliver(a) && deliver(b)
    requires ReadLastPost(file) != b.link
    ensures var run1 := MainRun(true, q, fetch, deliver, file);
      var run2 := MainRun(true, q, fetch, deliver, run1.file);
      var run3 := MainRun(true, q, fetch, deliver, run2.file);
      run1.sent == [b] && run2.sent == [a] && run3.sent == [b]
  {
    RunOnTwo(q, fetch, deliver, file, a, b);
    WriteRead(b.link);
    RunOnTwo(q, fetch, deliver, Some(b.link), a, b);
    WriteRead(a.link);
    RunOnTwo(q, fetch, deliver, Some(a.link), a, b);
  }
}

/**
 * gamerant_scraper.py: read the GameRant listing cards, keep the ones
 * dated today, skip titles already posted today, send each new one to the
 * channel with up to three attempts, and append it to the posted log.
 */
module GamerantScraper {
  import opened Wrappers
  import opened Strings
  import opened Seqs
  import opened Html
  import opened Cascade
  import opened Template
  import opened PostedLog

  const PageUrl := "https://gamerant.com/gaming/"
  const SiteOrigin := "https://gamerant.com"
  const CardSelector := "div.display-card.article"
  const DateSelector := "time, [class*='date']"
  const DateFormats: seq<string> := ["%B %d, %Y", "%Y-%m-%d", "%b %d, %Y"]
  const TitleSelector := "h5, h3, [class*='title']"
  const SummarySelector := "p.synopsis, p, [class*='excerpt']"
  const ImageSelector := "img[data-src], img[src]"
  const SummaryLimit := 150
  const NoSummary := "No summary available."
  const MaxRetries := 3
  const RetryDelay := 2
  const PostWithoutImage := true
  const DefaultMaxArticles := 5

  /** `requests.get(url)` with `raise_for_status()` and parsing; `None`
      when it raises. */
  type Fetch = string -> Option<Node>

  // ----------------------------------------------------------- card limit

  /** Python's `s[:k]`: a negative `k` counts from the end. */
  function Take<T>(s: seq<T>, k: int): (r: seq<T>)
    ensures |r| <= |s| && r == s[..|r|]
    ensures 0 <= k ==> |r| == if k < |s| then k else |s|
    ensures k < 0 ==> |r| == if |s| + k < 0 then 0 else |s| + k
  {
    if 0 <= k then (if k < |s| then s[..k] else s)
    else if |s| + k < 0 then [] else s[..|s| + k]
  }

  // -------------------------------------------------------------- escaping

  function EscapeChar(c: char): (r: string)
    ensures r != []
    ensures c !in "&<>\"'" ==> r == [c]
  {
    if c == '&' then "&amp;"
    else if c == '<' then "&lt;"
    else if c == '>' then "&gt;"
    else if c == '"' then "&quot;"
    else if c == '\'' then "&#x27;"
    else [c]
  }

  /** `html.escape(s)` with its default `quote=True`. */
  function HtmlEscape(s: string): (r: string)
    ensures |r| >= |s|
    decreases |s|
  {
    if s == [] then []
    else EscapeChar(s[0]) + HtmlEscape(s[1..])
  }

  /** `escape_html(text)`: empty text stays empty. */
  function EscapeHtml(text: string): string {
    if text == "" then "" else HtmlEscape(text)
  }

  /** The entity `s` starts with, if any: the character it stands for and
      its length. */
  function EntityAt(s: string): (r: Option<(char, nat)>)
    ensures r.Some? ==> 0 < r.value.1 <= |s|
  {
    if StartsWith(s, "&amp;") then Some(('&', 5))
    else if StartsWith(s, "&lt;") then Some(('<', 4))
    else if StartsWith(s, "&gt;") then Some(('>', 4))
    else if StartsWith(s, "&quot;") then Some(('"', 6))
    else if StartsWith(s, "&#x27;") then Some(('\'', 6))
    else None
  }

  /** The entity decoding a Telegram HTML reader applies. */
  function Unescape(s: string): string
    decreases |s|
  {
    if s == [] then []
    else
      match EntityAt(s)
      case Some((c, n)) => [c] + Unescape(s[n..])
      case None => [s[0]] + Unescape(s[1..])
  }

  /** The escape of a character is recognised as the entity for it, and
      an ordinary character starts no entity. */
  lemma EntityOfEscape(c: char, rest: string)
    ensures EntityAt(EscapeChar(c) + rest) ==
      if c in "&<>\"'" then Some((c, |EscapeChar(c)|)) else None
  {
    var e := EscapeChar(c) + rest;
    assert e[..|EscapeChar(c)|] == EscapeChar(c);
    if c !in "&<>\"'" {
      assert e[0] == c;
    } else if c != '&' {
      assert e[0] == '&' && e[1] == EscapeChar(c)[1] && e[2] == EscapeChar(c)[2];
    }
  }

  lemma UnescapeChar(c: char, rest: string)
    ensures Unescape(EscapeChar(c) + rest) == [c] + Unescape(rest)
  {
    var e := EscapeChar(c) + rest;
    EntityOfEscape(c, rest);
    assert e[|EscapeChar(c)|..] == rest;
    if c !in "&<>\"'" {
      assert e[0] == c;
    }
  }

  /** Escaped text holds none of the characters HTML treats specially,
      except `&`, which only starts entities. */
  predicate Safe(c: char) {
    c != '<' && c != '>' && c != '"' && c != '\''
  }

  predicate AllSafe(s: string) {
    forall i :: 0 <= i < |s| ==> Safe(s[i])
  }

  lemma EscapeCharSafe(c: char)
    ensures AllSafe(EscapeChar(c))
  {
  }

  lemma AllSafeAppend(a: string, b: string)
    requires AllSafe(a) && AllSafe(b)
    ensures AllSafe(a + b)
  {
    forall i | 0 <= i < |a + b| ensures Safe((a + b)[i]) {
      if i >= |a| {
        assert (a + b)[i] == b[i - |a|];
      }
    }
  }

  lemma {:induction false} EscapeSafe(s: string)
    ensures AllSafe(HtmlEscape(s))
    decreases |s|
  {
    if s != [] {
      EscapeSafe(s[1..]);
      EscapeCharSafe(s[0]);
      AllSafeAppend(EscapeChar(s[0]), HtmlEscape(s[1..]));
    }
  }

  /** `escape_html` leaves no `<` to open a tag. */
  lemma EscapedNoTag(s: string)
    ensures '<' !in EscapeHtml(s)
  {
    var r := EscapeHtml(s);
    if s != "" {
      EscapeSafe(s);
      forall i | 0 <= i < |r| ensures r[i] != '<' {
        assert Safe(r[i]);
      }
    }
  }

  /** Escaping loses nothing: the reader gets the text back. */
  lemma {:induction false} EscapeRoundTrip(s: string)
    ensures Unescape(EscapeHtml(s)) == s
    decreases |s|
  {
    if s != [] {
      EscapeRoundTrip(s[1..]);
      UnescapeChar(s[0], HtmlEscape(s[1..]));
      if s[1..] == [] {
        assert HtmlEscape(s[1..]) == [];
      }
      assert [s[0]] + s[1..] == s;
    }
  }

  // --------------------------------------------------------------- message

  const Signature := "\U{1F341} | @GamediaNews_acn"

  /** The message template as the file holds it: the lightning and maple
      leaf emoji appear as the characters their UTF-8 bytes spell in Mac
      Roman. */
  const MessageSepsAsWritten: seq<string> :=
    ["<b>", "</b> \U{201A}\U{F6}\U{B0}\n\n<i>", "</i>\n\n\U{F8FF}\U{FC}\U{E7}\U{C5} | @GamediaNews_acn"]

  /** The template as intended, with the signature the other scripts use. */
  const MessageSeps: seq<string> := ["<b>", "</b> \U{26A1}\n\n<i>", "</i>\n\n" + Signature]

  function MessageAsWritten(title: string, summary: string): string {
    Render(MessageSepsAsWritten, [EscapeHtml(title), EscapeHtml(summary)])
  }

  function Message(title: string, summary: string): string {
    Render(MessageSeps, [EscapeHtml(title), EscapeHtml(summary)])
  }

  /** The message as written never ends with the channel signature. */
  lemma MessageAsWrittenLacksSignature(title: string, summary: string)
    ensures !EndsWith(MessageAsWritten(title, summary), Signature)
  {
    var m := MessageAsWritten(title, summary);
    var last := MessageSepsAsWritten[2];
    RenderFrame(MessageSepsAsWritten, [EscapeHtml(title), EscapeHtml(summary)]);
    assert m[|m| - |Signature|] == last[|last| - |Signature|];
    assert last[|last| - |Signature|] == '\U{C5}';
  }

  lemma MessageSigned(title: string, summary: string)
    ensures EndsWith(Message(title, summary), Signature)
  {
    RenderFrame(MessageSeps, [EscapeHtml(title), EscapeHtml(summary)]);
    EndsWithTail(Message(title, summary), "</i>\n\n", Signature);
  }

  /** The corrected message ends with the signature, and the title and
      summary can be read back from it whatever they contain. */
  lemma MessageRoundTrip(title: string, summary: string)
    ensures EndsWith(Message(title, summary), Signature)
    ensures match Parse(MessageSeps, Message(title, summary))
      case Some(fs) => |fs| == 2 && Unescape(fs[0]) == title && Unescape(fs[1]) == summary
      case None => false
  {
    MessageSigned(title, summary);
    var fields := [EscapeHtml(title), EscapeHtml(summary)];
    assert MessageSeps[1][0] == '<';
    EscapedNoTag(title);
    assert Separable(MessageSeps, fields);
    ParseRender(MessageSeps, fields);
    EscapeRoundTrip(title);
    EscapeRoundTrip(summary);
  }

  // -------------------------------------------------------------- sending

  /** What one Bot API call did: went through, raised `TimedOut`, raised
      `BadRequest`, or raised anything else. */
  datatype Attempt = Delivered | TimedOut | BadRequest | Failed

  /** A `send_photo` (with the downloaded image, named by its URL) or a
      `send_message` call. */
  datatype Post = Post(message: string, photo: Option<string>)

  /** The outcome of attempt number `k` (from 1) of a post. */
  type Telegram = (Post, nat) -> Attempt

  datatype SendReport = SendReport(attempts: nat, sleeps: nat, delivered: bool)

  /** The retry loop from attempt `attempt` on. */
  function SendFrom(p: Post, tg: Telegram, attempt: nat): (r: SendReport)
    requires 1 <= attempt <= MaxRetries
    ensures attempt <= r.attempts <= MaxRetries
    ensures forall k :: attempt <= k < r.attempts ==> tg(p, k) == TimedOut
    ensures r.delivered <==> tg(p, r.attempts) == Delivered
    ensures r.attempts < MaxRetries ==> tg(p, r.attempts) != TimedOut
    ensures r.sleeps == r.attempts - attempt
    decreases MaxRetries - attempt
  {
    match tg(p, attempt)
    case TimedOut =>
      if attempt < MaxRetries then
        var r := SendFrom(p, tg, attempt + 1);
        r.(sleeps := r.sleeps + 1)
      else SendReport(attempt, 0, false)
    case Delivered => SendReport(attempt, 0, true)
    case BadRequest => SendReport(attempt, 0, false)
    case Failed => SendReport(attempt, 0, false)
  }

  function Send(p: Post, tg: Telegram): SendReport {
    SendFrom(p, tg, 1)
  }

  /** `send_to_telegram`: `photo` is the downloaded image, if any. */
  method SendToTelegram(title: string, summary: string, photo: Option<string>, tg: Telegram) returns (r: SendReport)
    ensures r == Send(Post(Message(title, summary), photo), tg)
  {
    var p := Post(Message(title, summary), photo);
    var sleeps := 0;
    for attempt := 1 to MaxRetries + 1
      invariant forall k :: 1 <= k < attempt ==> tg(p, k) == TimedOut
      invariant sleeps == if attempt <= MaxRetries then attempt - 1 else MaxRetries - 1
      invariant attempt <= MaxRetries ==> Send(p, tg) == SendFrom(p, tg, attempt).(sleeps := SendFrom(p, tg, attempt).sleeps + sleeps)
      invariant attempt > MaxRetries ==> Send(p, tg) == SendReport(MaxRetries, MaxRetries - 1, false)
    {
      var outcome := tg(p, attempt);
      if outcome == Delivered {
        return SendReport(attempt, sleeps, true);
      } else if outcome == TimedOut {
        if attempt < MaxRetries {
          sleeps := sleeps + 1;
        }
      } else {
        return SendReport(attempt, sleeps, false);
      }
    }
    return SendReport(MaxRetries, sleeps, false);
  }

  /** What the retry policy promises: at most three attempts, all but the
      last timed out, the post got through only on the last one, and a
      two-second pause came after every timed-out attempt but the third, so
      the pauses of one send add up to at most four seconds. */
  lemma SendPolicy(p: Post, tg: Telegram)
    ensures var r := Send(p, tg);
      && 1 <= r.attempts <= MaxRetries
      && (forall k :: 1 <= k < r.attempts ==> tg(p, k) == TimedOut)
      && (r.delivered <==> tg(p, r.attempts) == Delivered)
      && (r.attempts < MaxRetries ==> tg(p, r.attempts) != TimedOut)
      && r.sleeps == r.attempts - 1
      && r.sleeps * RetryDelay <= (MaxRetries - 1) * RetryDelay
  {
  }

  // ----------------------------------------------------------------- card

  function DateReader(strptime: Strptime, text: string): string -> Option<Date> {
    (format: string) => strptime(text, format)
  }

  /** `parse_article_date`: the first format that parses the date element's
      stripped text, or today when there is no such element, its text is
      empty or no format fits. */
  function ArticleDate(q: Query, strptime: Strptime, today: Date, card: Node): Date {
    match SelectOne(q, card, DateSelector)
    case None => today
    case Some(e) =>
      if TextOf(e) == "" then today
      else
        match FirstValue(DateReader(strptime, Strip(TextOf(e))), DateFormats)
        case Some(h) => h.value
        case None => today
  }

  /** The loop of `parse_article_date`: the value of the first format that
      parses `text`. */
  method TryFormats(strptime: Strptime, text: string, formats: seq<string>) returns (r: Option<Date>)
    ensures r.Some? <==> FirstValue(DateReader(strptime, text), formats).Some?
    ensures r.Some? ==> r.value == FirstValue(DateReader(strptime, text), formats).value.value
  {
    for i := 0 to |formats|
      invariant forall j :: 0 <= j < i ==> DateReader(strptime, text)(formats[j]).None?
    {
      var parsed := strptime(text, formats[i]);
      if parsed.Some? {
        FirstValueAt(DateReader(strptime, text), formats, i, parsed.value);
        return parsed;
      }
    }
    return None;
  }

  method ParseArticleDate(q: Query, strptime: Strptime, today: Date, card: Node) returns (d: Date)
    ensures d == ArticleDate(q, strptime, today, card)
  {
    var dateElem := SelectOne(q, card, DateSelector);
    if dateElem.Some? && TextOf(dateElem.value) != "" {
      var parsed := TryFormats(strptime, Strip(TextOf(dateElem.value)), DateFormats);
      if parsed.Some? {
        return parsed.value;
      }
    }
    return today;
  }

  /** The date is the one given by the first format that parses, and today
      when none does. */
  lemma ArticleDateChoice(q: Query, strptime: Strptime, today: Date, card: Node, e: Node, i: nat)
    requires SelectOne(q, card, DateSelector) == Some(e) && TextOf(e) != ""
    requires i <= |DateFormats|
    requires forall j :: 0 <= j < i ==> strptime(Strip(TextOf(e)), DateFormats[j]).None?
    ensures i < |DateFormats| && strptime(Strip(TextOf(e)), DateFormats[i]).Some? ==>
      ArticleDate(q, strptime, today, card) == strptime(Strip(TextOf(e)), DateFormats[i]).value
    ensures i == |DateFormats| ==> ArticleDate(q, strptime, today, card) == today
  {
    var text := Strip(TextOf(e));
    if i < |DateFormats| && strptime(text, DateFormats[i]).Some? {
      FirstValueAt(DateReader(strptime, text), DateFormats, i, strptime(text, DateFormats[i]).value);
    }
  }

  /** The stripped text of the title element; `None` when there is none or
      it is blank. */
  function CardTitle(q: Query, card: Node): (r: Option<string>)
    ensures r.Some? <==>
      SelectOne(q, card, TitleSelector).Some? && Strip(TextOf(SelectOne(q, card, TitleSelector).value)) != ""
    ensures r.Some? ==> r.value == Strip(TextOf(SelectOne(q, card, TitleSelector).value))
    ensures r.Some? ==> r.value != "" && Stripped(r.value)
  {
    match SelectOne(q, card, TitleSelector)
    case None => None
    case Some(e) =>
      var t := Strip(TextOf(e));
      if t == "" then None else Some(t)
  }

  /** The first 150 characters of a text and an ellipsis: the whole text
      when it is short enough, otherwise exactly 150 of its characters. */
  function Abbreviate(text: string): (r: string)
    ensures EndsWith(r, "...") && |r| <= SummaryLimit + 3 && |r| - 3 <= |text|
    ensures r[..|r| - 3] == text[..|r| - 3]
    ensures |text| <= SummaryLimit ==> r == text + "..."
    ensures |text| > SummaryLimit ==> |r| == SummaryLimit + 3
  {
    var r := (if |text| <= SummaryLimit then text else text[..SummaryLimit]) + "...";
    assert r[..|r| - 3] == text[..|r| - 3];
    r
  }

  /** The abbreviated stripped summary text, or the fixed sentence when the
      card has no summary element. */
  function CardSummary(q: Query, card: Node): (r: string)
    ensures SelectOne(q, card, SummarySelector).None? ==> r == NoSummary
    ensures SelectOne(q, card, SummarySelector).Some? ==>
      r == Abbreviate(Strip(TextOf(SelectOne(q, card, SummarySelector).value)))
  {
    match SelectOne(q, card, SummarySelector)
    case None => NoSummary
    case Some(e) => Abbreviate(Strip(TextOf(e)))
  }

  /** `data-src` when it is non-empty, else `src`. */
  function ImageRef(img: Node): Option<string> {
    var dataSrc := Attr(img, "data-src");
    if dataSrc.Some? && dataSrc.value != "" then dataSrc else Attr(img, "src")
  }

  /** `urljoin(PageUrl, ref)` for the reference forms an image address takes:
      absolute, scheme-relative, root-relative or relative to the page. */
  function UrlJoin(ref: Option<string>): (r: string)
    ensures StartsWith(r, "http")
    ensures ref.None? || ref == Some("") ==> r == PageUrl
    ensures ref.Some? ==> EndsWith(r, ref.value)
    ensures ref.Some? && Absolute(ref.value) ==> r == ref.value
  {
    match ref
    case None =>
      assert PageUrl[..4] == "http";
      PageUrl
    case Some(u) =>
      JoinedForms(u);
      Base(u) + u
  }

  predicate Absolute(u: string) {
    StartsWith(u, "http://") || StartsWith(u, "https://")
  }

  /** What `urljoin` puts before a reference: nothing before an absolute
      one, the scheme before a scheme-relative one, the site before a
      root-relative one and the page URL before anything else. */
  function Base(u: string): string {
    if u != "" && Absolute(u) then ""
    else if StartsWith(u, "//") then "https:"
    else if StartsWith(u, "/") then SiteOrigin
    else PageUrl
  }

  lemma JoinedForms(u: string)
    ensures StartsWith(Base(u) + u, "http") && EndsWith(Base(u) + u, u)
    ensures u == "" ==> Base(u) + u == PageUrl
    ensures Absolute(u) ==> Base(u) + u == u
  {
    var b := Base(u);
    assert (b + u)[|b|..] == u;
    if u != "" && Absolute(u) {
      assert b + u == u;
      AbsoluteHttp(u);
    } else {
      assert b == "https:" || b == SiteOrigin || b == PageUrl;
      BasesHttp();
      assert (b + u)[..4] == b[..4];
    }
  }

  lemma AbsoluteHttp(u: string)
    requires Absolute(u)
    ensures StartsWith(u, "http")
  {
    assert u[..4] == u[..7][..4];
  }

  lemma BasesHttp()
    ensures "https:"[..4] == SiteOrigin[..4] == PageUrl[..4] == "http"
  {
  }

  function CardImageUrl(q: Query, card: Node): Option<string> {
    match SelectOne(q, card, ImageSelector)
    case None => None
    case Some(img) => Some(UrlJoin(ImageRef(img)))
  }

  /** The image sent with the post: the card's image when its download
      succeeded. */
  function Photo(download: string -> bool, imageUrl: Option<string>): (r: Option<string>)
    ensures r.Some? <==> imageUrl.Some? && download(imageUrl.value)
    ensures r.Some? ==> r == imageUrl
  {
    if imageUrl.Some? && download(imageUrl.value) then imageUrl else None
  }

  // ------------------------------------------------------------------ run

  /** The outside world of one run: selector engine, date parser, image
      downloads, Telegram, and the day the script started. */
  datatype Env = Env(q: Query, strptime: Strptime, download: string -> bool, tg: Telegram, today: Date)

  predicate IsDuplicate(title: string, posted: map<string, Date>, today: Date) {
    title in posted && posted[title] == today
  }

  /** The title of a card worth posting: dated today and titled. */
  function Candidate(env: Env, card: Node): Option<string> {
    if ArticleDate(env.q, env.strptime, env.today, card) != env.today then None
    else CardTitle(env.q, card)
  }

  datatype Delivery = Delivery(title: string, post: Post, report: SendReport)

  /** What the loop body sends for a card with a new title; since
      `POST_WITHOUT_IMAGE` is set, it always sends. */
  function Prepare(env: Env, card: Node, title: string): (d: Delivery)
    ensures d.title == title
    ensures d.post.message == Message(title, CardSummary(env.q, card))
    ensures d.report == Send(d.post, env.tg)
  {
    var post := Post(Message(title, CardSummary(env.q, card)), Photo(env.download, CardImageUrl(env.q, card)));
    Delivery(title, post, Send(post, env.tg))
  }

  /** A card chosen for sending: its position, the card and its title. */
  datatype Pick = Pick(index: nat, card: Node, title: string)

  /** The dedup part of the card loop, from card `i` on: `titles[i]` is the
      candidate title of card `i`, `None` when the card is skipped before
      the duplicate check. */
  function SelectFrom(posted: map<string, Date>, today: Date, cards: seq<Node>, titles: seq<Option<string>>, i: nat): seq<Pick>
    requires |titles| == |cards|
    decreases |titles| - i
  {
    if i >= |titles| then []
    else
      match titles[i]
      case None => SelectFrom(posted, today, cards, titles, i + 1)
      case Some(t) =>
        if IsDuplicate(t, posted, today) then SelectFrom(posted, today, cards, titles, i + 1)
        else [Pick(i, cards[i], t)] + SelectFrom(posted[t := today], today, cards, titles, i + 1)
  }

  function Candidates(env: Env, cards: seq<Node>): (titles: seq<Option<string>>)
    ensures |titles| == |cards| && forall i :: 0 <= i < |cards| ==> titles[i] == Candidate(env, cards[i])
  {
    seq(|cards|, i requires 0 <= i < |cards| => Candidate(env, cards[i]))
  }

  function PickTitles(picks: seq<Pick>): (ts: seq<string>)
    ensures |ts| == |picks| && forall k :: 0 <= k < |picks| ==> ts[k] == picks[k].title
  {
    seq(|picks|, k requires 0 <= k < |picks| => picks[k].title)
  }

  function PrepareOf(env: Env): Pick -> Delivery {
    (p: Pick) => Prepare(env, p.card, p.title)
  }

  /** The posted map after recording each title, in order. */
  function Recorded(posted: map<string, Date>, today: Date, titles: seq<string>): map<string, Date>
    decreases |titles|
  {
    if titles == [] then posted
    else Recorded(posted, today, titles[..|titles| - 1])[titles[|titles| - 1] := today]
  }

  /** The log after saving each title, in order. */
  function Appended(log: Option<string>, today: Date, titles: seq<string>): Option<string>
    decreases |titles|
  {
    if titles == [] then log
    else Some(Saved(Appended(log, today, titles[..|titles| - 1]), today, titles[|titles| - 1]))
  }

  datatype Outcome =
    | LoadFailed(error: LoadError)  // raised before the `try`: the script dies
    | FetchFailed
    | NoCards
    | Processed(deliveries: seq<Delivery>)

  datatype ScrapeResult = ScrapeResult(outcome: Outcome, log: Option<string>)

  /** `scrape_gamerant()`: `log` is the posted file's content, `None` when
      it does not exist; `maxArticles` is `MAX_ARTICLES`. */
  function Scrape(env: Env, fetch: Fetch, maxArticles: int, log: Option<string>): ScrapeResult {
    match Load(log, env.strptime)
    case Err(e) => ScrapeResult(LoadFailed(e), log)
    case Ok(posted) =>
      match fetch(PageUrl)
      case None => ScrapeResult(FetchFailed, log)
      case Some(doc) =>
        var cards := Take(env.q(doc, CardSelector), maxArticles);
        if cards == [] then ScrapeResult(NoCards, log)
        else
          var picks := SelectFrom(posted, env.today, cards, Candidates(env, cards), 0);
          ScrapeResult(Processed(Map(PrepareOf(env), picks)), Appended(log, env.today, PickTitles(picks)))
  }

  /** One card of the selection, unfolded. */
  lemma SelectStep(posted: map<string, Date>, today: Date, cards: seq<Node>, titles: seq<Option<string>>, i: nat)
    requires |titles| == |cards| && i < |titles|
    ensures titles[i].None? || IsDuplicate(titles[i].value, posted, today) ==>
      SelectFrom(posted, today, cards, titles, i) == SelectFrom(posted, today, cards, titles, i + 1)
    ensures titles[i].Some? && !IsDuplicate(titles[i].value, posted, today) ==>
      var t := titles[i].value;
      SelectFrom(posted, today, cards, titles, i) ==
        [Pick(i, cards[i], t)] + SelectFrom(posted[t := today], today, cards, titles, i + 1)
  {
  }

  /** Recording one more title updates the map and appends one line. */
  lemma RecordStep(posted: map<string, Date>, log: Option<string>, today: Date, picks: seq<Pick>, pick: Pick)
    ensures Recorded(posted, today, PickTitles(picks + [pick])) ==
      Recorded(posted, today, PickTitles(picks))[pick.title := today]
    ensures Appended(log, today, PickTitles(picks + [pick])) ==
      Some(Saved(Appended(log, today, PickTitles(picks)), today, pick.title))
  {
    assert PickTitles(picks + [pick])[..|picks|] == PickTitles(picks);
  }

  /** The card loop's state after the first `i` cards: the cards picked so
      far followed by those the rest of the loop picks are the run's picks,
      and the sends, the map and the log are those of the picks so far. */
  ghost predicate Progress(env: Env, posted0: map<string, Date>, log: Option<string>, cards: seq<Node>,
                           titles: seq<Option<string>>, i: nat, picks: seq<Pick>,
                           posted: map<string, Date>, deliveries: seq<Delivery>, file: Option<string>)
    requires |titles| == |cards|
  {
    && picks + SelectFrom(posted, env.today, cards, titles, i) == SelectFrom(posted0, env.today, cards, titles, 0)
    && deliveries == Map(PrepareOf(env), picks)
    && posted == Recorded(posted0, env.today, PickTitles(picks))
    && file == Appended(log, env.today, PickTitles(picks))
  }

  /** A card skipped before or at the duplicate check changes nothing. */
  lemma SkipStep(env: Env, posted0: map<string, Date>, log: Option<string>, cards: seq<Node>,
                 titles: seq<Option<string>>, i: nat, picks: seq<Pick>,
                 posted: map<string, Date>, deliveries: seq<Delivery>, file: Option<string>)
    requires |titles| == |cards| && i < |cards|
    requires Progress(env, posted0, log, cards, titles, i, picks, posted, deliveries, file)
    requires titles[i].None? || IsDuplicate(titles[i].value, posted, env.today)
    ensures Progress(env, posted0, log, cards, titles, i + 1, picks, posted, deliveries, file)
  {
    SelectStep(posted, env.today, cards, titles, i);
  }

  /** A card with a new title is sent and recorded. */
  lemma PickStep(env: Env, posted0: map<string, Date>, log: Option<string>, cards: seq<Node>,
                 titles: seq<Option<string>>, i: nat, picks: seq<Pick>,
                 posted: map<string, Date>, deliveries: seq<Delivery>, file: Option<string>, t: string)
    requires |titles| == |cards| && i < |cards|
    requires Progress(env, posted0, log, cards, titles, i, picks, posted, deliveries, file)
    requires titles[i] == Some(t) && !IsDuplicate(t, posted, env.today)
    ensures Progress(env, posted0, log, cards, titles, i + 1, picks + [Pick(i, cards[i], t)],
                     posted[t := env.today], deliveries + [Prepare(env, cards[i], t)],
                     Some(Saved(file, env.today, t)))
  {
    var pick := Pick(i, cards[i], t);
    SelectStep(posted, env.today, cards, titles, i);
    MapSnoc(PrepareOf(env), picks, pick);
    RecordStep(posted0, log, env.today, picks, pick);
    SnocThenAppend(picks, pick, SelectFrom(posted[t := env.today], env.today, cards, titles, i + 1));
  }

  /** The card loop of `scrape_gamerant()`, from the posted map and the log
      it was loaded from. */
  method ProcessCards(env: Env, posted0: map<string, Date>, cards: seq<Node>, log: Option<string>)
    returns (deliveries: seq<Delivery>, file: Option<string>)
    ensures var picks := SelectFrom(posted0, env.today, cards, Candidates(env, cards), 0);
      deliveries == Map(PrepareOf(env), picks) && file == Appended(log, env.today, PickTitles(picks))
  {
    ghost var titles := Candidates(env, cards);
    ghost var picks: seq<Pick> := [];
    var posted := posted0;
    deliveries := [];
    file := log;
    for i := 0 to |cards|
      invariant Progress(env, posted0, log, cards, titles, i, picks, posted, deliveries, file)
    {
      assert titles[i] == Candidate(env, cards[i]);
      var articleDate := ParseArticleDate(env.q, env.strptime, env.today, cards[i]);
      if articleDate != env.today {
        SkipStep(env, posted0, log, cards, titles, i, picks, posted, deliveries, file);
        continue;
      }
      var title := CardTitle(env.q, cards[i]);
      if title.None? || IsDuplicate(title.value, posted, env.today) {
        SkipStep(env, posted0, log, cards, titles, i, picks, posted, deliveries, file);
        continue;
      }
      var summary := CardSummary(env.q, cards[i]);
      var photo := Photo(env.download, CardImageUrl(env.q, cards[i]));
      var report := SendToTelegram(title.value, summary, photo, env.tg);
      var d := Delivery(title.value, Post(Message(title.value, summary), photo), report);
      PickStep(env, posted0, log, cards, titles, i, picks, posted, deliveries, file, title.value);
      file := Some(Saved(file, env.today, title.value));
      posted := posted[title.value := env.today];
      deliveries := deliveries + [d];
      picks := picks + [Pick(i, cards[i], title.value)];
    }
    assert picks == SelectFrom(posted0, env.today, cards, titles, 0);
  }

  method ScrapeGamerant(env: Env, fetch: Fetch, maxArticles: int, log: Option<string>) returns (r: ScrapeResult)
    ensures r == Scrape(env, fetch, maxArticles, log)
  {
    var loaded := LoadPostedArticles(log, env.strptime);
    if loaded.Err? {
      return ScrapeResult(LoadFailed(loaded.error), log);
    }
    var response := fetch(PageUrl);
    if response.None? {
      return ScrapeResult(FetchFailed, log);
    }
    var cards := Take(env.q(response.value, CardSelector), maxArticles);
    if cards == [] {
      return ScrapeResult(NoCards, log);
    }
    var deliveries, file := ProcessCards(env, loaded.value, cards, log);
    return ScrapeResult(Processed(deliveries), file);
  }

  // ------------------------------------------------------------ properties

  /** Picks follow the card order, from position `lo` on, and each is the
      card at its position with that card's candidate title. */
  predicate InCardOrder(picks: seq<Pick>, cards: seq<Node>, titles: seq<Option<string>>, lo: nat)
    requires |titles| == |cards|
  {
    && (forall k :: 0 <= k < |picks| ==> lo <= picks[k].index < |titles|)
    && (forall k :: 0 <= k < |picks| && picks[k].index < |titles| ==>
          titles[picks[k].index] == Some(picks[k].title) && cards[picks[k].index] == picks[k].card)
    && (forall k, l :: 0 <= k < l < |picks| ==> picks[k].index < picks[l].index)
  }

  lemma {:induction false} SelectOrder(posted: map<string, Date>, today: Date, cards: seq<Node>, titles: seq<Option<string>>, i: nat)
    requires |titles| == |cards|
    ensures InCardOrder(SelectFrom(posted, today, cards, titles, i), cards, titles, i)
    decreases |titles| - i
  {
    if i < |titles| {
      SelectStep(posted, today, cards, titles, i);
      if titles[i].None? || IsDuplicate(titles[i].value, posted, today) {
        SelectOrder(posted, today, cards, titles, i + 1);
      } else {
        var t := titles[i].value;
        SelectOrder(posted[t := today], today, cards, titles, i + 1);
        var rest := SelectFrom(posted[t := today], today, cards, titles, i + 1);
        var picks := [Pick(i, cards[i], t)] + rest;
        forall k | 0 < k < |picks| ensures picks[k] == rest[k - 1] {
        }
      }
    }
  }

  /** No title twice, and none already posted today. */
  predicate Fresh(ts: seq<string>, posted: map<string, Date>, today: Date) {
    && (forall k :: 0 <= k < |ts| ==> !IsDuplicate(ts[k], posted, today))
    && (forall k, l :: 0 <= k < l < |ts| ==> ts[k] != ts[l])
  }

  /** Within one run no title is sent twice, and no title already posted
      today is sent again. */
  lemma {:induction false} SelectFresh(posted: map<string, Date>, today: Date, cards: seq<Node>, titles: seq<Option<string>>, i: nat)
    requires |titles| == |cards|
    ensures Fresh(PickTitles(SelectFrom(posted, today, cards, titles, i)), posted, today)
    decreases |titles| - i
  {
    if i < |titles| {
      var ts := PickTitles(SelectFrom(posted, today, cards, titles, i));
      if titles[i].None? || IsDuplicate(titles[i].value, posted, today) {
        SelectFresh(posted, today, cards, titles, i + 1);
        assert ts == PickTitles(SelectFrom(posted, today, cards, titles, i + 1));
      } else {
        var t := titles[i].value;
        var posted' := posted[t := today];
        SelectFresh(posted', today, cards, titles, i + 1);
        var rest := PickTitles(SelectFrom(posted', today, cards, titles, i + 1));
        assert ts == [t] + rest;
        assert Fresh(rest, posted', today);
        forall k | 0 <= k < |rest| ensures rest[k] != t && !IsDuplicate(rest[k], posted, today) {
          assert !IsDuplicate(rest[k], posted', today);
        }
      }
    }
  }

  /** Every title posted today in `small` is posted today in `big`. */
  ghost predicate CoversToday(small: map<string, Date>, big: map<string, Date>, today: Date) {
    forall t :: IsDuplicate(t, small, today) ==> IsDuplicate(t, big, today)
  }

  /** A run starting from a map that already holds, as posted today, every
      title another run from `posted` would send or skip as a duplicate,
      sends nothing. */
  lemma {:induction false} SelectCovered(posted: map<string, Date>, big: map<string, Date>, today: Date, cards: seq<Node>, titles: seq<Option<string>>, i: nat)
    requires |titles| == |cards|
    requires CoversToday(posted, big, today)
    requires forall t :: t in PickTitles(SelectFrom(posted, today, cards, titles, i)) ==> IsDuplicate(t, big, today)
    ensures SelectFrom(big, today, cards, titles, i) == []
    decreases |titles| - i
  {
    if i < |titles| {
      match titles[i]
      case None =>
        SelectCovered(posted, big, today, cards, titles, i + 1);
      case Some(t) =>
        if IsDuplicate(t, posted, today) {
          SelectCovered(posted, big, today, cards, titles, i + 1);
        } else {
          var posted' := posted[t := today];
          var ts := PickTitles(SelectFrom(posted, today, cards, titles, i));
          var rest := PickTitles(SelectFrom(posted', today, cards, titles, i + 1));
          assert ts == [t] + rest;
          forall u | u in rest ensures IsDuplicate(u, big, today) {
            assert u in ts;
          }
          SelectCovered(posted', big, today, cards, titles, i + 1);
        }
    }
  }

  lemma {:induction false} RecordedCovers(posted: map<string, Date>, today: Date, titles: seq<string>)
    ensures CoversToday(posted, Recorded(posted, today, titles), today)
    ensures forall t :: t in titles ==> IsDuplicate(t, Recorded(posted, today, titles), today)
    decreases |titles|
  {
    if titles != [] {
      var init := titles[..|titles| - 1];
      var last := titles[|titles| - 1];
      RecordedCovers(posted, today, init);
      var before := Recorded(posted, today, init);
      assert Recorded(posted, today, titles) == before[last := today];
      forall t | t in titles ensures IsDuplicate(t, before[last := today], today) {
        if t != last {
          var k :| 0 <= k < |titles| && titles[k] == t;
          assert k < |titles| - 1 && init[k] == t;
          assert IsDuplicate(t, before, today);
        }
      }
    }
  }

  /** Running the card loop again on the same cards the same day, from the
      map the first pass left, sends nothing. */
  lemma SelectRerun(posted: map<string, Date>, today: Date, cards: seq<Node>, titles: seq<Option<string>>)
    requires |titles| == |cards|
    ensures SelectFrom(Recorded(posted, today, PickTitles(SelectFrom(posted, today, cards, titles, 0))), today, cards, titles, 0) == []
  {
    var ts := PickTitles(SelectFrom(posted, today, cards, titles, 0));
    RecordedCovers(posted, today, ts);
    SelectCovered(posted, Recorded(posted, today, ts), today, cards, titles, 0);
  }

  /** Titles that the log stores and reads back unchanged. */
  predicate SafeTitles(ts: seq<string>) {
    forall i :: 0 <= i < |ts| ==> LineSafe(ts[i])
  }

  /** The log written by a run reloads to the map the run ended with. */
  lemma {:induction false} AppendedLoads(log: Option<string>, posted: map<string, Date>, today: Date, titles: seq<string>, strptime: Strptime)
    requires Load(log, strptime) == Ok(posted)
    requires log.None? || WellTerminated(log.value)
    requires SafeTitles(titles) && ParsesIso(strptime, today)
    ensures Load(Appended(log, today, titles), strptime) == Ok(Recorded(posted, today, titles))
    ensures var a := Appended(log, today, titles); a.None? || WellTerminated(a.value)
    decreases |titles|
  {
    if titles != [] {
      var init := titles[..|titles| - 1];
      var t := titles[|titles| - 1];
      AppendedLoads(log, posted, today, init, strptime);
      SaveStep(Appended(log, today, init), Recorded(posted, today, init), today, t, strptime);
    }
  }

  /** One save on a log, present or not, that loads to `posted`. */
  lemma SaveStep(log: Option<string>, posted: map<string, Date>, today: Date, t: string, strptime: Strptime)
    requires Load(log, strptime) == Ok(posted)
    requires log.None? || WellTerminated(log.value)
    requires LineSafe(t) && ParsesIso(strptime, today)
    ensures Load(Some(Saved(log, today, t)), strptime) == Ok(posted[t := today])
    ensures WellTerminated(Saved(log, today, t))
  {
    var content := log.GetOr("");
    if log.None? {
      assert Lines("") == [""];
    }
    SaveLoad(content, today, t, strptime);
    assert Saved(log, today, t) == Saved(Some(content), today, t);
  }

  /** A second run the same day, on the same listing, sends nothing: every
      title the first run sent was saved and is now a duplicate. */
  lemma ScrapeTwiceSameDay(env: Env, fetch: Fetch, maxArticles: int, log: Option<string>)
    requires log.None? || WellTerminated(log.value)
    requires ParsesIso(env.strptime, env.today)
    requires var r := Scrape(env, fetch, maxArticles, log);
      r.outcome.Processed? ==> SafeTitles(Titles(r.outcome.deliveries))
    ensures var second := Scrape(env, fetch, maxArticles, Scrape(env, fetch, maxArticles, log).log);
      second.outcome.Processed? ==> second.outcome.deliveries == []
  {
    var r := Scrape(env, fetch, maxArticles, log);
    if r.outcome.Processed? {
      var posted := Load(log, env.strptime).value;
      var cards := Take(env.q(fetch(PageUrl).value, CardSelector), maxArticles);
      var titles := Candidates(env, cards);
      var picks := SelectFrom(posted, env.today, cards, titles, 0);
      assert Titles(r.outcome.deliveries) == PickTitles(picks);
      AppendedLoads(log, posted, env.today, PickTitles(picks), env.strptime);
      SelectRerun(posted, env.today, cards, titles);
    }
  }

  /** The titles of a list of deliveries. */
  function Titles(ds: seq<Delivery>): (ts: seq<string>)
    ensures |ts| == |ds| && forall i :: 0 <= i < |ds| ==> ts[i] == ds[i].title
  {
    seq(|ds|, i requires 0 <= i < |ds| => ds[i].title)
  }
}

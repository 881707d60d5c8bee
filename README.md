# GameRant news bots, modelled in Dafny

The repository holds four small Python scripts that post gaming news to a
Telegram channel. Each one scrapes an HTML page, picks the articles it
has not posted yet, formats a message and sends it through the Bot API.
Each one also keeps some record of what it posted:

- `gamerant_telegram_bot.py` posts the newest GameRant article. It finds
  the listing, title, link, summary and image through ordered selector
  lists. It sends a photo first and falls back to a text message. It
  remembers the last URL in a file.
- `gamerant_scraper.py` posts every card dated today. It keeps a
  `date|title` log, skips titles already posted today, makes at
  most three attempts per send (two retries, only after `TimedOut`), and
  appends each processed title
  to the log.
- `main.py` collects complete cards. It walks them from the end of the
  list, posts the first one whose link is not the remembered link and
  whose send succeeds, and stops after that post.
- `scraper.py` sends every article whose link is not in a JSON list of
  posted links as a media group, with hashtags drawn from the title. It
  then extends the list with the links whose send did not raise.

The model keeps the decision logic of these scripts: selector cascades,
field extraction, message templates, deduplication records, the retry
loop and the run loops. The outside world enters as parameters:

- the CSS selector engine (`Html.Query`);
- page fetches (`Fetch`);
- `strptime` (`PostedLog.Strptime`);
- image downloads;
- the answers of the Telegram API, as scripted outcomes;
- the current date.

Every loop of the scripts is a Dafny method. Each method is proved equal
to a specification function, and the lemmas are stated about those
functions.

Modules:

- Shared:
  - `Wrappers`: Option and Result.
  - `Strings`: `strip`, `lower`, `find`, `in`, `join` and `split` on `seq<char>`.
  - `Seqs`: comprehensions and `reversed`.
  - `Html`: the parsed tree and the bs4 accessors.
  - `Cascade`: first candidate that yields a value.
  - `Template`: f-string messages and their parsing.
- Per script:
  - `TelegramBot`: `gamerant_telegram_bot.py`.
  - `PostedLog` and `GamerantScraper`: `gamerant_scraper.py`.
  - `LastPostBot`: `main.py`.
  - `NewsScraper`: `scraper.py`.

## Model

| member | source | states |
|---|---|---|
| Cascade.FirstValue | gamerant_telegram_bot.py:57-62 | the selector loop's answer is the first candidate, in list order, that yields a value, and every earlier candidate yielded none; the answer is absent exactly when no candidate yields a value |
| Cascade.FirstValueIgnoresLater | gamerant_telegram_bot.py:57-62 | the `break` means candidates after the winning one are never consulted: changing what they would yield leaves the answer unchanged |
| Cascade.FirstValueAt | gamerant_scraper.py:55-59 | a candidate that yields a value after candidates that all failed is the cascade's answer |
| Strings.Strip | gamerant_scraper.py:35-36 | `strip()` gives a string with no whitespace at either end and no longer than the original |
| Strings.TrimInfix | gamerant_scraper.py:36 | the stripped string occurs inside the original, right after the leading whitespace |
| Strings.StripKeepsStripped | gamerant_telegram_bot.py:285 | `strip()` leaves a string without surrounding whitespace unchanged |
| Strings.StripKeepsOut | gamerant_scraper.py:36 | `strip()` never introduces a character that was not there |
| Strings.IndexOf | gamerant_scraper.py:36 | `find` returns the first occurrence of the separator, or reports that there is none anywhere |
| Strings.Lower | scraper.py:37 | `lower()` keeps the length and lower-cases the ASCII letters position by position |
| Strings.JoinFirst | scraper.py:37 | a space-joined list starts with its first element |
| Strings.SplitJoin | scraper.py:37 | splitting a joined list on the separator gives the list back when no element contains the separator |
| Strings.SplitAfterSeparator | gamerant_scraper.py:33-34 | splitting a text whose first part ends with the separator gives the pieces of that part, without its empty last piece, followed by the pieces of the rest |
| Seqs.Filter | gamerant_telegram_bot.py:67 | the list comprehension keeps exactly the elements that pass the test |
| Seqs.FilterMap | main.py:29-50 | the collecting loop yields at most one value per element |
| Seqs.FilterMapAppend | main.py:29-52 | the collected values of a concatenation are those of its parts, in order |
| Seqs.FilterMapSkip | main.py:48-50 | an element whose `try` block fails adds nothing and disturbs nothing else |
| Seqs.FilterMapTwice | scraper.py:47-73 | an element that yields a value, present twice, contributes that value twice |
| Seqs.FilterMapKeeps | scraper.py:73 | every element that yields a value contributes it |
| Seqs.FilterMapFrom | scraper.py:73 | every collected value comes from some element |
| Seqs.FilterMapNone | scraper.py:47-76 | elements that all fail give nothing |
| Seqs.Map | scraper.py:66-69 | a comprehension has one entry per element, each the image of that element |
| Html.NonEmptyStripped | main.py:31 | the pieces `get_text(strip=True)` joins are exactly the non-blank text strings, each stripped, in document order |
| Html.NonEmptyStrippedPieces | main.py:31 | every piece `get_text(strip=True)` joins is non-empty and has no surrounding whitespace |
| Template.ParseRender | main.py:58-63 | an f-string message parses back to its fields when no field holds the first character of the fixed text after it |
| Template.RenderFrame | main.py:58-63 | a rendered message starts with the template's opening text and ends with its closing text |
| TelegramBot.GamingLinks | gamerant_telegram_bot.py:66-67 | the link fallback holds exactly the descendant `<a href>` elements whose `href` contains `/gaming/` |
| TelegramBot.GamingLinksInOrder | gamerant_telegram_bot.py:66-67 | the link fallback is the document-order subsequence of the descendants that are `<a href>` elements pointing into /gaming/ |
| TelegramBot.GamingLinksFirst | gamerant_telegram_bot.py:66-78 | the first fallback article, the one that gets posted, is the first such link in document order |
| TelegramBot.ListingOf | gamerant_telegram_bot.py:53-76 | a listing found by a selector or by the link fallback is never empty |
| TelegramBot.FindArticles | gamerant_telegram_bot.py:53-70 | the selector loop plus the link fallback computes the listing |
| TelegramBot.ListingFirstMatch | gamerant_telegram_bot.py:57-62 | the first listing selector with a non-empty match wins, and its whole match is the article list |
| TelegramBot.ListingIgnoresLater | gamerant_telegram_bot.py:57-62 | listing selectors after the winning one do not influence the result |
| TelegramBot.ListingFallback | gamerant_telegram_bot.py:64-76 | with no selector matching, the articles are the /gaming/ links, or there are none and the fetch fails |
| TelegramBot.TitleElement | gamerant_telegram_bot.py:81-98 | the title element is the link itself in fallback mode, else the first title selector's match, else the article element |
| TelegramBot.AbsoluteUrl | gamerant_telegram_bot.py:121-122 | the URL starts with `http` and ends with the `href`; it equals the `href` exactly when the `href` already starts with `http` |
| TelegramBot.SummaryMiss | gamerant_telegram_bot.py:150-162 | a selector without a usable value keeps the loop's state: its element becomes the current one, and `summary` is assigned the empty content only at a matched meta description |
| TelegramBot.SummaryFound | gamerant_telegram_bot.py:150-162 | the selector where the loop stops, after selectors without a value, gives the summary |
| TelegramBot.SummaryExhausted | gamerant_telegram_bot.py:164-166 | with no selector giving a value, the summary is the fixed sentence when the last element is missing or `summary` holds the empty content, and absent (unbound `summary`) otherwise |
| TelegramBot.FindSummary | gamerant_telegram_bot.py:136-168 | the summary loop computes the summary of the page, with the unbound-`summary` exception as the absent case |
| TelegramBot.SummaryCascade | gamerant_telegram_bot.py:151-168 | the summary is the value of the first selector that yields non-empty text or content, and it is not empty |
| TelegramBot.ScanImages | gamerant_telegram_bot.py:193-202 | the inner loop finds the first element with an allowed `src`, and finds one exactly when there is one |
| TelegramBot.FindImage | gamerant_telegram_bot.py:171-204 | the image loop computes the image of the page |
| TelegramBot.ImageFromFirst | gamerant_telegram_bot.py:182-204 | the image loop from any empty start keeps the first non-empty value offered, and ends empty when none is offered |
| TelegramBot.ImageChoice | gamerant_telegram_bot.py:182-206 | the image is the first non-empty value in selector order; a found image is either an allowed `src` (no icon, logo or avatar) or the og:image content |
| TelegramBot.GetLatestArticle | gamerant_telegram_bot.py:21-219 | `get_latest_article` computes the article or None along every failure path |
| TelegramBot.ArticleShape | gamerant_telegram_bot.py:100-214 | a returned article has a non-empty stripped title, an `http` URL and a non-empty summary |
| TelegramBot.ArticleOfShape | gamerant_telegram_bot.py:78-214 | an article built from the first listed element has a non-empty stripped title, an `http` URL and a non-empty summary |
| TelegramBot.SummaryNonEmpty | gamerant_telegram_bot.py:150-168 | a summary, found or the fixed sentence, is never empty |
| TelegramBot.CaptionRoundTrip | gamerant_telegram_bot.py:228-230 | the Markdown message gives back the title and summary when the title holds no `*` |
| TelegramBot.Delivery | gamerant_telegram_bot.py:232-274 | at most two requests; a photo is tried first exactly when there is an image URL; the text request carries the URL; success means the last request was accepted and every earlier one was refused |
| TelegramBot.SendTelegramMessage | gamerant_telegram_bot.py:221-274 | the send procedure makes the requests and returns the verdict of the delivery function |
| TelegramBot.RunBot | gamerant_telegram_bot.py:289-316 | one run of `main` computes the stored URL and the requests of the run |
| TelegramBot.RunDedup | gamerant_telegram_bot.py:304-316 | nothing is sent exactly when the stored URL equals the article's; the stored URL changes only to the article's URL after a successful send |
| TelegramBot.RunIdempotent | gamerant_telegram_bot.py:276-316 | after a run that stored a URL, a second run on the same page sends nothing, provided the URL has no surrounding whitespace |
| PostedLog.IsoText | gamerant_scraper.py:42 | `str(TODAY)` is at least ten characters, all digits or dashes |
| PostedLog.TranslateNoCr | gamerant_scraper.py:33-34 | text-mode reading leaves no carriage return and changes nothing in text without one |
| PostedLog.LoadPostedArticles | gamerant_scraper.py:30-38 | the load loop computes the posted map, or the error that stops the script |
| PostedLog.LoadOne | gamerant_scraper.py:35-37 | the loop body on one line computes one load step: blank lines keep the map, a line without `\|` or with a bad date is an error, any other line sets its title |
| PostedLog.LoadStep | gamerant_scraper.py:34-37 | one more line is one more step of the load loop |
| PostedLog.LoadErrorSticks | gamerant_scraper.py:36-37 | a line without `\|` or with a bad date ends the load with that error, whatever follows |
| PostedLog.LoadBlankLast | gamerant_scraper.py:35 | a blank last line, such as the empty piece after the final line break, leaves the load as it is |
| PostedLog.LoadLinesSnoc | gamerant_scraper.py:34-37 | loading one more line is the load of the earlier lines followed by one step, and an earlier error stays |
| PostedLog.LinesAppend | gamerant_scraper.py:33-34 | the lines of a log with one more whole line are the old lines followed by the new one |
| PostedLog.LoadAppendLine | gamerant_scraper.py:34-37 | loading a log with one more whole line is one more load step on the old map |
| PostedLog.IsoTextPlain | gamerant_scraper.py:42 | the written date holds no `\|`, line break or surrounding whitespace |
| PostedLog.EntryStripped | gamerant_scraper.py:36 | `strip()` leaves a written entry unchanged |
| PostedLog.EntrySplit | gamerant_scraper.py:36 | `split("\|", 1)` splits an entry at the bar after the date, even when the title holds `\|` |
| PostedLog.LoadEntry | gamerant_scraper.py:36-37 | a written entry loads as `posted[title] = date`, overwriting an earlier value for the title |
| PostedLog.SaveLoad | gamerant_scraper.py:40-42 | appending `TODAY\|title` and reloading gives the old map with `title` set to today, for any title without a line break or trailing whitespace |
| PostedLog.SaveLoadFresh | gamerant_scraper.py:40-42 | saving into a missing log and loading gives the one-entry map |
| PostedLog.SavedBrokenTitle | gamerant_scraper.py:42 | a title holding a newline is written as two lines |
| PostedLog.SaveNewlineTitleBreaksLoad | gamerant_scraper.py:36 | after saving such a title, the next load fails on the second half, which has no `\|` |
| PostedLog.NoSeparator | gamerant_scraper.py:36 | a line without `\|` has no separator to split at |
| GamerantScraper.Take | gamerant_scraper.py:100 | `[:MAX_ARTICLES]` is a prefix, with Python's length rule for negative limits |
| GamerantScraper.EscapeChar | gamerant_scraper.py:48 | each special character becomes a non-empty entity and every other character is kept |
| GamerantScraper.HtmlEscape | gamerant_scraper.py:48 | the escaped text is at least as long as the input |
| GamerantScraper.EscapeSafe | gamerant_scraper.py:48 | the escaped text holds no `<`, `>`, `"` or `'`, and every `&` in it starts an entity |
| GamerantScraper.EscapedNoTag | gamerant_scraper.py:47-48 | `escape_html` never returns text holding `<`, so escaped fields cannot open a tag of the message |
| GamerantScraper.EntityOfEscape | gamerant_scraper.py:48 | the text an escaped character starts begins with the entity of that character exactly when it is special, and with no entity otherwise |
| GamerantScraper.EscapeRoundTrip | gamerant_scraper.py:47-48 | decoding the entities of `escape_html(text)` gives the text back, the empty text included |
| GamerantScraper.MessageAsWrittenLacksSignature | gamerant_scraper.py:67 | the message as the file spells it never ends with the channel signature |
| GamerantScraper.MessageSigned | gamerant_scraper.py:65-67 | the intended message ends with the channel signature |
| GamerantScraper.MessageRoundTrip | gamerant_scraper.py:65-67 | the intended message ends with the signature, and the title and summary are recovered from it whatever they contain |
| GamerantScraper.SendFrom | gamerant_scraper.py:69-87 | from any attempt on: at most three attempts; every attempt before the last timed out; delivery only on the last; stopping early means a non-timeout; one sleep per retried attempt |
| GamerantScraper.SendToTelegram | gamerant_scraper.py:64-87 | the retry loop computes the report of the retry policy |
| GamerantScraper.SendPolicy | gamerant_scraper.py:69-87 | at most `MAX_RETRIES` attempts, only `TimedOut` leads to another one, `RETRY_DELAY` is slept after each timeout except on the last attempt, so one send pauses at most four seconds |
| GamerantScraper.TryFormats | gamerant_scraper.py:55-59 | the format loop returns a date exactly when some format parses the text, and then the parse of the first such format |
| GamerantScraper.ParseArticleDate | gamerant_scraper.py:50-62 | the date function computes the first format's parse, or today |
| GamerantScraper.ArticleDateChoice | gamerant_scraper.py:55-62 | the date is the parse of the first format that accepts the text, and today when none does |
| GamerantScraper.CardTitle | gamerant_scraper.py:113-117 | the title is the stripped text of the first title element; there is none exactly when no element matches or its stripped text is empty |
| GamerantScraper.Abbreviate | gamerant_scraper.py:124 | a prefix of the text of at most 150 characters followed by `...`: all of the text when it is short enough, exactly 150 characters otherwise |
| GamerantScraper.CardSummary | gamerant_scraper.py:123-124 | without a summary element, the fixed sentence; otherwise the abbreviation of the element's stripped text |
| GamerantScraper.UrlJoin | gamerant_scraper.py:130 | for the reference forms listed under Left out, the image URL starts with `http` and ends with the reference; an absolute reference is kept and a missing or empty one gives the page URL |
| GamerantScraper.JoinedForms | gamerant_scraper.py:130 | a reference joined to its base starts with `http` and ends with the reference; the empty reference gives the page URL and an absolute one is kept |
| GamerantScraper.Photo | gamerant_scraper.py:132-139 | an image is sent exactly when the card has an image URL and its download succeeded |
| GamerantScraper.Prepare | gamerant_scraper.py:140-141 | each processed card sends the escaped message of its title and summary through the retry loop |
| GamerantScraper.Candidates | gamerant_scraper.py:107-117 | the candidate title of each card is the title of a card dated today, in card order |
| GamerantScraper.SelectStep | gamerant_scraper.py:107-121 | a card without a candidate title, or with a duplicate one, is skipped; otherwise it is picked and recorded |
| GamerantScraper.RecordStep | gamerant_scraper.py:143-144 | processing a card sets its title to today in the map and appends one line to the log |
| GamerantScraper.SkipStep | gamerant_scraper.py:107-121 | a card skipped for its date, its missing title or a duplicate title keeps the loop's invariant without a send or a log line |
| GamerantScraper.PickStep | gamerant_scraper.py:119-144 | a picked card extends the picks, the sends and the log by its own entry and keeps the loop's invariant |
| GamerantScraper.ProcessCards | gamerant_scraper.py:107-144 | the card loop's sends and log are those of the picked cards, in card order |
| GamerantScraper.ScrapeGamerant | gamerant_scraper.py:89-147 | `scrape_gamerant` computes its outcome and the log it leaves |
| GamerantScraper.SelectOrder | gamerant_scraper.py:107-121 | picks follow the page order, and each is a card with its own candidate title |
| GamerantScraper.SelectFresh | gamerant_scraper.py:119-121 | within one run no title is sent twice, and no title already posted today is sent |
| GamerantScraper.RecordedCovers | gamerant_scraper.py:143-144 | recording keeps every title posted today and adds each recorded title |
| GamerantScraper.SelectCovered | gamerant_scraper.py:119-121 | a run from a map that already covers every title a run would pick picks nothing |
| GamerantScraper.SelectRerun | gamerant_scraper.py:107-144 | rerunning the card loop on the same cards the same day, from the map it left, picks nothing |
| GamerantScraper.AppendedLoads | gamerant_scraper.py:30-44 | the log a run writes reloads to the map the run ended with |
| GamerantScraper.ScrapeTwiceSameDay | gamerant_scraper.py:89-147 | a second run the same day on the same listing sends nothing |
| GamerantScraper.Titles | gamerant_scraper.py:141 | the sent titles are the titles of the deliveries, in order |
| LastPostBot.Absolute | main.py:37-40 | a value starting with `/` gets the origin in front, any other value is unchanged; no result starts with `/` |
| LastPostBot.CardOf | main.py:30-47 | a card is produced exactly when title, summary, image `src` and link `href` are all found; title and summary are the `get_text(strip=True)` of their elements, and image and link are the prefixed `src` and `href`, so neither starts with `/` |
| LastPostBot.ScrapeGamerant | main.py:15-56 | the scrape loop computes the complete cards of the page, or none when the request fails |
| LastPostBot.CardsSkip | main.py:29-52 | a card missing a field is skipped without affecting the others, which keep page order |
| LastPostBot.FormatPost | main.py:58-63 | the post starts with the bold lightning line and ends with the signature; title and summary are read back when the title holds no `<` |
| LastPostBot.PostedAt | main.py:71-94 | the posted position, when there is one, is a position of the list |
| LastPostBot.SentOf | main.py:82-94 | at most one article is posted per call |
| LastPostBot.PostedHit | main.py:71-94 | the card the reverse loop stops at is the card at the mirrored position; it is the only card sent and its link becomes the last post |
| LastPostBot.SendToTelegram | main.py:65-103 | the reverse loop posts what the specification picks and returns the new last post |
| LastPostBot.PostedChoice | main.py:71-98 | the posted card is the last in list order whose link is not the cached one and whose send succeeds; every later card was skipped or failed; with no post, every card was |
| LastPostBot.ReadLastPost | main.py:105-110 | the value read is stripped, and empty without a file |
| LastPostBot.WriteRead | main.py:105-114 | writing a link and reading it back gives the link when it has no surrounding whitespace |
| LastPostBot.RunMain | main.py:116-140 | one run of `main` computes what it posts and the file it leaves |
| LastPostBot.MainWritesOnPost | main.py:136-140 | the file is rewritten only after a post and then holds the posted link, which differs from the one read; a run that posts nothing leaves it alone |
| LastPostBot.PostedOnTwo | main.py:71-94 | with two cards whose sends succeed, the second is posted unless its link is the cached one, and then the first |
| LastPostBot.RunOnTwo | main.py:116-140 | a run on a page of two such cards posts the second unless the file holds its link, then the first, and stores the posted link |
| LastPostBot.RepostsAlternately | main.py:65-140 | with an unchanged page of two cards whose sends succeed, successive runs post the second card, then the first, then the second again |
| NewsScraper.Matched | scraper.py:36-37 | a keyword is kept exactly when its lower-case form occurs in the lower-cased title |
| NewsScraper.ExtractHashtags | scraper.py:35-37 | the result is empty exactly when no keyword matches; otherwise splitting it on spaces gives `#keyword` for the matching keywords, in keyword order |
| NewsScraper.TagsSpaceFree | scraper.py:36-37 | no hashtag holds a space or is empty |
| NewsScraper.ImageUrls | scraper.py:53-55 | the list is never empty; it is `[FALLBACK_IMAGE]` when no image has a `src`, and otherwise the `src` values in order |
| NewsScraper.MediaGroup | scraper.py:66-69 | one entry per image URL, in order; only the first carries the message as caption, the others `''` |
| NewsScraper.Message | scraper.py:63 | the message starts with the bold lightning line and ends with the signature |
| NewsScraper.MessageRoundTrip | scraper.py:63 | title, summary and hashtags are read back from the message when title and summary hold no `<` |
| NewsScraper.ItemOf | scraper.py:49-55 | an article is read exactly when it has an `h3 a` element with an `href` and a `p` element; title and summary are the stripped texts of those elements, the link is the `href`, and the image URLs are those of the article's images |
| NewsScraper.Step | scraper.py:48-76 | an article adds its link exactly when it is read, its link was not loaded at start, and its send does not raise |
| NewsScraper.NewLinks | scraper.py:47-76 | no new link is one of the links loaded at start |
| NewsScraper.Attempt | scraper.py:49-70 | a media group is sent for an article exactly when it is read and its link was not loaded at start, and the group is built from that article |
| NewsScraper.ScrapeNews | scraper.py:40-80 | the loop sends the media groups of the read articles whose link was not loaded at start, in page order, and saves the loaded list followed by the new links; a failed request sends and saves nothing |
| NewsScraper.PostedNotSent | scraper.py:48-61 | an article that raises before the send, or whose link was loaded at start, is not sent and does not disturb the other sends |
| NewsScraper.FailureIsolated | scraper.py:47-76 | an article whose processing raises adds no link and does not disturb the others |
| NewsScraper.DuplicateOnPageSentTwice | scraper.py:44-73 | the same new article twice on one page is sent twice and its link recorded twice |
| NewsScraper.RerunKeepsList | scraper.py:40-80 | a second run on the same page, with the list the first run saved and the same channel answers, saves the list unchanged |
| NewsScraper.RerunSkipsSent | scraper.py:58-73 | on a second run, an article whose send went through the first time is not sent again |
| NewsScraper.RerunRetriesFailed | scraper.py:58-76 | on a second run, an article whose send raised the first time is sent again with the same media group, unless another article on the page had its link saved |

## Left out

- HTTP requests and their failures are modelled only as a parsed page or
  `None`. This covers timeouts, headers, `raise_for_status`, the debug
  logging of response previews and the image download bytes; a
  downloaded image is identified by its URL.
- The Telegram Bot API and the `python-telegram-bot` client are modelled
  only as scripted outcomes per call. Parse modes, the media-group
  size rules and whether a coroutine is awaited are not modelled.
- The bot object is not modelled. In `scraper.py` and
  `gamerant_scraper.py` it is created at import time, so a failure there
  happens before any of the modelled logic runs. In `main.py` it is
  created inside `send_to_telegram`, after the last post is read and the
  page is scraped, and outside its `try`. A failing construction there
  ends the script with nothing posted and nothing written, which the
  model covers only as a run in which every send fails.
- CSS selector matching and HTML parsing are not modelled. `select` is an
  uninterpreted parameter, and `select_one` is its first match.
- `datetime.strptime` is not modelled: it is a parameter. `date.today()`
  is a parameter too.
- `urljoin` is modelled only for the reference forms an image address
  takes: absolute, scheme-relative, root-relative, relative to the page,
  empty or missing. Queries and fragments relative to the page come out
  as `urljoin` gives them. Dot segments (`../`) are not resolved, and a
  reference with a scheme other than http or https is put after the page
  URL, where `urljoin` keeps it as it is. That is why UrlJoin's result
  always starts with `http`.
- File I/O is modelled only as the file's content before and after a run.
  JSON encoding and decoding of the posted-links list are not modelled:
  the list is a sequence, and a file that is not a JSON list is not
  covered. Write failures, encodings and the `gamerant.html` debug dump
  are not modelled.
- `asyncio`, `time` and `asyncio.sleep` are not modelled. Pauses are
  counted, not timed.
- Logging, environment-variable loading and the `__main__` entry points
  are plumbing. The credential checks are reduced to a boolean.
- `str.lower` is modelled on ASCII letters only. Python also lower-cases
  other Unicode letters.
- TelegramBot.ArticleShape: it does not state which selector produced
  the title or summary. That is covered by SummaryCascade and
  TitleElement.
- GamerantScraper.Message: the model escapes the text and renders the
  intended template. The template as written is kept as MessageAsWritten
  (see Findings).

## Findings

| source | as written | input that shows it | evidently intended | confidence | as-written member | corrected member |
|---|---|---|---|---|---|---|
| gamerant_scraper.py:67 | the message template holds the UTF-8 bytes of ⚡ and 🍁 decoded as Mac Roman (`‚ö°`, `üçÅ`), so every message ends in mojibake instead of the channel signature | any title and summary, e.g. `("a", "b")`: the message ends with `\U{F8FF}\U{FC}\U{E7}\U{C5} \| @GamediaNews_acn`, not `🍁 \| @GamediaNews_acn` | the same ⚡ and 🍁 signature the other three scripts use | high (not executed) | GamerantScraper.MessageAsWrittenLacksSignature | GamerantScraper.MessageRoundTrip |

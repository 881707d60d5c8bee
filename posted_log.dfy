/**
 * The posted-articles log of gamerant_scraper.py: one `YYYY-MM-DD|title`
 * line per posted article, appended on save and folded into a
 * title -> date map on load.
 */
module PostedLog {
  import opened Wrappers
  import opened Strings

  /** A calendar date, as `datetime.date` holds it. */
  datatype Date = Date(year: nat, month: nat, day: nat)

  /** `datetime.strptime(text, format).date()`; `None` when it raises
      `ValueError`. */
  type Strptime = (string, string) -> Option<Date>

  const IsoFormat := "%Y-%m-%d"

  function DigitChar(d: nat): (c: char)
    requires d < 10
    ensures '0' <= c <= '9'
  {
    ['0', '1', '2', '3', '4', '5', '6', '7', '8', '9'][d]
  }

  /** The decimal digits of `n`, most significant first. */
  function Digits(n: nat): (r: string)
    ensures r != []
    ensures forall i :: 0 <= i < |r| ==> '0' <= r[i] <= '9'
  {
    if n < 10 then [DigitChar(n)] else Digits(n / 10) + [DigitChar(n % 10)]
  }

  /** `%0<width>d`. */
  function ZeroPad(n: nat, width: nat): (r: string)
    ensures |r| >= width
    ensures forall i :: 0 <= i < |r| ==> '0' <= r[i] <= '9'
  {
    var ds := Digits(n);
    if |ds| >= width then ds else seq(width - |ds|, _ => '0') + ds
  }

  predicate IsoChar(c: char) {
    '0' <= c <= '9' || c == '-'
  }

  /** `str(date)`, i.e. `date.isoformat()`: `YYYY-MM-DD`. */
  function IsoText(d: Date): (r: string)
    ensures |r| >= 10
    ensures forall i :: 0 <= i < |r| ==> IsoChar(r[i])
  {
    ZeroPad(d.year, 4) + "-" + ZeroPad(d.month, 2) + "-" + ZeroPad(d.day, 2)
  }

  /** One log entry: the save date, a bar, the title. */
  function Entry(today: Date, title: string): string {
    IsoText(today) + "|" + title
  }

  /** The line `save_posted_article` appends. */
  function LogLine(today: Date, title: string): string {
    Entry(today, title) + "\n"
  }

  /** Universal-newline translation done by reading in text mode: `\r\n`
      and a lone `\r` both become `\n`. */
  function Translate(s: string): string
    decreases |s|
  {
    if s == [] then []
    else if s[0] == '\r' then
      "\n" + Translate(if |s| > 1 && s[1] == '\n' then s[2..] else s[1..])
    else [s[0]] + Translate(s[1..])
  }

  /** The text of the lines `for line in f` yields, terminators dropped
      (every use strips them anyway); a final empty piece is harmless since
      blank lines are skipped. */
  function Lines(content: string): seq<string> {
    Split(Translate(content), '\n')
  }

  datatype LoadError =
    | MissingSeparator(line: string)  // the two-name unpacking raises ValueError
    | BadDate(text: string)           // strptime raises ValueError

  /** One iteration of the load loop. */
  function LoadLine(posted: map<string, Date>, line: string, strptime: Strptime): Result<map<string, Date>, LoadError> {
    var s := Strip(line);
    if s == "" then Ok(posted)
    else
      match IndexOf(s, "|")
      case None => Err(MissingSeparator(s))
      case Some(i) =>
        match strptime(s[..i], IsoFormat)
        case None => Err(BadDate(s[..i]))
        case Some(d) => Ok(posted[s[i + 1..] := d])
  }

  /** The load loop over a list of lines, stopping at the first error. */
  function LoadLines(lines: seq<string>, strptime: Strptime): Result<map<string, Date>, LoadError>
    decreases |lines|
  {
    if lines == [] then Ok(map[])
    else
      match LoadLines(lines[..|lines| - 1], strptime)
      case Err(e) => Err(e)
      case Ok(posted) => LoadLine(posted, lines[|lines| - 1], strptime)
  }

  /** `load_posted_articles()`: `file` is the log's content, `None` when it
      does not exist. */
  function Load(file: Option<string>, strptime: Strptime): Result<map<string, Date>, LoadError> {
    match file
    case None => Ok(map[])
    case Some(content) => LoadLines(Lines(content), strptime)
  }

  /** The load stops at the first bad line: later lines do not matter. */
  lemma {:induction false} LoadErrorSticks(lines: seq<string>, j: nat, strptime: Strptime)
    requires j <= |lines| && LoadLines(lines[..j], strptime).Err?
    ensures LoadLines(lines, strptime) == LoadLines(lines[..j], strptime)
    decreases |lines| - j
  {
    if j < |lines| {
      assert lines[..j + 1][..j] == lines[..j];
      LoadErrorSticks(lines, j + 1, strptime);
    } else {
      assert lines[..j] == lines;
    }
  }

  /** One more line through the load loop. */
  lemma LoadStep(lines: seq<string>, i: nat, strptime: Strptime)
    requires i < |lines| && LoadLines(lines[..i], strptime).Ok?
    ensures LoadLines(lines[..i + 1], strptime) == LoadLine(LoadLines(lines[..i], strptime).value, lines[i], strptime)
  {
    assert lines[..i + 1][..i] == lines[..i];
  }

  /** The body of the load loop for one line. */
  method LoadOne(posted: map<string, Date>, line: string, strptime: Strptime)
    returns (r: Result<map<string, Date>, LoadError>)
    ensures r == LoadLine(posted, line, strptime)
  {
    var text := Strip(line);
    if text == "" {
      return Ok(posted);
    }
    var sep := IndexOf(text, "|");
    if sep.None? {
      return Err(MissingSeparator(text));
    }
    var dateStr, title := text[..sep.value], text[sep.value + 1..];
    var d := strptime(dateStr, IsoFormat);
    if d.None? {
      return Err(BadDate(dateStr));
    }
    return Ok(posted[title := d.value]);
  }

  method LoadPostedArticles(file: Option<string>, strptime: Strptime) returns (r: Result<map<string, Date>, LoadError>)
    ensures r == Load(file, strptime)
  {
    var posted: map<string, Date> := map[];
    if file.None? {
      return Ok(posted);
    }
    var lines := Lines(file.value);
    for i := 0 to |lines|
      invariant LoadLines(lines[..i], strptime) == Ok(posted)
    {
      LoadStep(lines, i, strptime);
      r := LoadOne(posted, lines[i], strptime);
      if r.Err? {
        LoadErrorSticks(lines, i + 1, strptime);
        return;
      }
      posted := r.value;
    }
    assert lines[..|lines|] == lines;
    return Ok(posted);
  }

  /** The log after `save_posted_article(title)`; opening in append mode
      creates the file. */
  function Saved(file: Option<string>, today: Date, title: string): string {
    file.GetOr("") + LogLine(today, title)
  }

  /** A log whose lines were all written whole. */
  predicate WellTerminated(content: string) {
    content == [] || content[|content| - 1] == '\n'
  }

  /** A title that reads back as written: no line break inside, and no
      trailing whitespace for `line.strip()` to remove. */
  predicate LineSafe(title: string) {
    '\n' !in title && '\r' !in title && (title == [] || !IsSpace(title[|title| - 1]))
  }

  /** A date text that survives `strip()` and `split("|", 1)` unchanged. */
  predicate PlainDate(text: string) {
    text != [] && !IsSpace(text[0]) && '|' !in text && '\n' !in text && '\r' !in text
  }

  /** The parser accepts what `str(date)` prints. */
  predicate ParsesIso(strptime: Strptime, d: Date) {
    strptime(IsoText(d), IsoFormat) == Some(d)
  }

  /** Translation leaves no carriage return, and text without one as it
      is. */
  lemma {:induction false} TranslateNoCr(s: string)
    ensures '\r' !in Translate(s)
    ensures '\r' !in s ==> Translate(s) == s
    decreases |s|
  {
    if s != [] {
      var n := if s[0] == '\r' && |s| > 1 && s[1] == '\n' then 2 else 1;
      TranslateNoCr(s[n..]);
      if '\r' !in s {
        assert s == [s[0]] + s[1..];
      }
    }
  }

  /** What one step of the translation does with the first one or two
      characters of `s`, and how many it consumes. */
  function Head(s: string): string
    requires s != []
  {
    if s[0] == '\r' then "\n" else [s[0]]
  }

  function HeadLength(s: string): nat
    requires s != []
  {
    if s[0] == '\r' && |s| > 1 && s[1] == '\n' then 2 else 1
  }

  lemma TranslateUnfold(s: string)
    requires s != []
    ensures HeadLength(s) <= |s|
    ensures Translate(s) == Head(s) + Translate(s[HeadLength(s)..])
  {
  }

  /** Translation works piece by piece, provided the first piece does not
      end in the middle of a `\r\n` pair. */
  lemma {:induction false} TranslateAppend(a: string, b: string)
    requires a == [] || a[|a| - 1] != '\r'
    ensures Translate(a + b) == Translate(a) + Translate(b)
    decreases |a|
  {
    if a == [] {
      assert a + b == b;
    } else {
      var n := HeadLength(a);
      assert HeadLength(a + b) == n && Head(a + b) == Head(a);
      assert (a + b)[n..] == a[n..] + b;
      TranslateUnfold(a);
      TranslateUnfold(a + b);
      TranslateAppend(a[n..], b);
      var h, t, u := Head(a), Translate(a[n..]), Translate(b);
      assert h + (t + u) == (h + t) + u;
    }
  }

  lemma {:induction false} TranslateTerminated(a: string)
    requires WellTerminated(a)
    ensures WellTerminated(Translate(a))
    decreases |a|
  {
    if a != [] && |a| > 1 {
      if a[0] == '\r' {
        if a[1] == '\n' {
          TranslateTerminated(a[2..]);
        } else {
          TranslateTerminated(a[1..]);
        }
      } else {
        TranslateTerminated(a[1..]);
      }
    }
  }

  /** Splitting text made of whole lines followed by one more line. */
  lemma SplitAppendLine(x: string, line: string)
    requires WellTerminated(x) && '\n' !in line
    ensures var xs := Split(x, '\n');
      xs[|xs| - 1] == "" && Split(x + (line + "\n"), '\n') == xs[..|xs| - 1] + [line, ""]
  {
    SplitField(line, '\n', "");
    assert line + "\n" == line + ['\n'] + "";
    if x == [] {
      assert x + (line + "\n") == line + "\n";
    } else {
      SplitAfterSeparator(x, line + "\n", '\n');
    }
  }

  /** Lines of a log with one more line saved. */
  lemma LinesAppend(content: string, line: string)
    requires WellTerminated(content) && '\n' !in line && '\r' !in line
    ensures var ls := Lines(content);
      ls[|ls| - 1] == "" && Lines(content + (line + "\n")) == ls[..|ls| - 1] + [line, ""]
  {
    TranslateTerminated(content);
    TranslateAppend(content, line + "\n");
    assert '\r' !in line + "\n";
    TranslateNoCr(line + "\n");
    SplitAppendLine(Translate(content), line);
  }

  /** The load loop over one more line. */
  lemma LoadLinesSnoc(ls: seq<string>, x: string, strptime: Strptime)
    ensures LoadLines(ls + [x], strptime) ==
      match LoadLines(ls, strptime)
      case Err(e) => Err(e)
      case Ok(posted) => LoadLine(posted, x, strptime)
  {
    assert (ls + [x])[..|ls|] == ls;
  }

  /** Blank lines leave the map as it is. */
  lemma LoadBlankLast(lines: seq<string>, strptime: Strptime)
    ensures LoadLines(lines + [""], strptime) == LoadLines(lines, strptime)
  {
    LoadLinesSnoc(lines, "", strptime);
    if LoadLines(lines, strptime).Ok? {
      LoadLineBlank(LoadLines(lines, strptime).value, strptime);
    }
  }

  lemma LoadLineBlank(posted: map<string, Date>, strptime: Strptime)
    ensures LoadLine(posted, "", strptime) == Ok(posted)
  {
    assert Strip("") == "";
  }

  /** Loading a log with one more whole line is one more step of the load
      loop. */
  lemma LoadAppendLine(content: string, line: string, strptime: Strptime)
    requires WellTerminated(content) && '\n' !in line && '\r' !in line
    ensures Load(Some(content + (line + "\n")), strptime) ==
      match Load(Some(content), strptime)
      case Err(e) => Err(e)
      case Ok(posted) => LoadLine(posted, line, strptime)
  {
    LinesAppend(content, line);
    var ls := Lines(content);
    var prefix := ls[..|ls| - 1];
    assert ls == prefix + [""];
    LoadAroundLine(prefix, line, strptime);
  }

  /** The lines of a log before and after one more line is appended, each
      ending with the empty piece after the last terminator. */
  lemma LoadAroundLine(prefix: seq<string>, line: string, strptime: Strptime)
    ensures LoadLines(prefix + [line, ""], strptime) ==
      match LoadLines(prefix + [""], strptime)
      case Err(e) => Err(e)
      case Ok(posted) => LoadLine(posted, line, strptime)
  {
    assert prefix + [line, ""] == (prefix + [line]) + [""];
    LoadBlankLast(prefix, strptime);
    LoadBlankLast(prefix + [line], strptime);
    LoadLinesSnoc(prefix, line, strptime);
  }

  /** `str(date)` is made of digits and dashes only. */
  lemma IsoTextPlain(d: Date)
    ensures PlainDate(IsoText(d))
  {
    var iso := IsoText(d);
    forall i | 0 <= i < |iso| ensures iso[i] != '|' && iso[i] != '\n' && iso[i] != '\r' {
      assert IsoChar(iso[i]);
    }
    assert IsoChar(iso[0]);
  }

  lemma EntryNoBreak(date: string, title: string)
    requires PlainDate(date) && '\n' !in title && '\r' !in title
    ensures var line := date + "|" + title; '\n' !in line && '\r' !in line
  {
    var line := date + "|" + title;
    forall i | 0 <= i < |line| ensures line[i] != '\n' && line[i] != '\r' {
      if i < |date| {
        assert line[i] == date[i];
      } else if i > |date| {
        assert line[i] == title[i - |date| - 1];
      }
    }
  }

  lemma EntryStripped(date: string, title: string)
    requires PlainDate(date) && LineSafe(title)
    ensures Strip(date + "|" + title) == date + "|" + title
  {
    var line := date + "|" + title;
    assert line[0] == date[0];
    if title == [] {
      assert line[|line| - 1] == '|';
    } else {
      assert line[|line| - 1] == title[|title| - 1];
    }
    StripKeepsStripped(line);
  }

  lemma EntrySplit(date: string, title: string)
    requires PlainDate(date)
    ensures var line := date + "|" + title;
      && IndexOf(line, "|") == Some(|date|)
      && line[..|date|] == date && line[|date| + 1..] == title
  {
    IndexOfAfterField(date, "|", title);
    var line := date + "|" + title;
    assert line[..|date|] == date;
    assert line[|date| + 1..] == title;
  }

  /** The load loop reads a written entry back. */
  lemma LoadEntry(posted: map<string, Date>, date: string, title: string, d: Date, strptime: Strptime)
    requires PlainDate(date) && LineSafe(title) && strptime(date, IsoFormat) == Some(d)
    ensures LoadLine(posted, date + "|" + title, strptime) == Ok(posted[title := d])
  {
    EntryStripped(date, title);
    EntrySplit(date, title);
  }

  /** Saving then loading: the reloaded map is the old one with the title
      now mapped to the save date. This is what lets the duplicate check
      survive a restart. */
  lemma SaveLoad(content: string, today: Date, title: string, strptime: Strptime)
    requires WellTerminated(content) && LineSafe(title) && ParsesIso(strptime, today)
    ensures Load(Some(Saved(Some(content), today, title)), strptime) ==
      match Load(Some(content), strptime)
      case Err(e) => Err(e)
      case Ok(posted) => Ok(posted[title := today])
  {
    IsoTextPlain(today);
    EntryNoBreak(IsoText(today), title);
    LoadAppendLine(content, Entry(today, title), strptime);
    if Load(Some(content), strptime).Ok? {
      LoadEntry(Load(Some(content), strptime).value, IsoText(today), title, today, strptime);
    }
  }

  /** Saving into a missing log creates a one-entry map. */
  lemma SaveLoadFresh(today: Date, title: string, strptime: Strptime)
    requires LineSafe(title) && ParsesIso(strptime, today)
    ensures Load(Some(Saved(None, today, title)), strptime) == Ok(map[title := today])
  {
    SaveLoad("", today, title, strptime);
    assert Lines("") == [""];
  }

  /** A title holding a line break is saved as two lines. */
  lemma SavedBrokenTitle(content: string, today: Date, head: string, tail: string)
    ensures Saved(Some(content), today, head + "\n" + tail) ==
      content + (Entry(today, head) + "\n") + (tail + "\n")
  {
    var iso := IsoText(today);
    assert Entry(today, head + "\n" + tail) == iso + "|" + (head + "\n" + tail);
    assert Entry(today, head) == iso + "|" + head;
    assert iso + "|" + (head + "\n" + tail) + "\n" == (iso + "|" + head + "\n") + (tail + "\n");
  }

  /** A title with a line break in it corrupts the log: the part after the
      break becomes a line of its own, and loading fails on it when it has
      no `|`. */
  lemma SaveNewlineTitleBreaksLoad(content: string, today: Date, head: string, tail: string, strptime: Strptime)
    requires WellTerminated(content) && ParsesIso(strptime, today)
    requires Load(Some(content), strptime).Ok?
    requires LineSafe(head) && LineSafe(tail) && '|' !in tail && Strip(tail) != ""
    ensures Load(Some(Saved(Some(content), today, head + "\n" + tail)), strptime) == Err(MissingSeparator(Strip(tail)))
  {
    var first := Entry(today, head);
    IsoTextPlain(today);
    EntryNoBreak(IsoText(today), head);
    var withFirst := content + (first + "\n");
    SavedBrokenTitle(content, today, head, tail);
    LoadAppendLine(content, first, strptime);
    LoadAppendLine(withFirst, tail, strptime);
    LoadEntry(Load(Some(content), strptime).value, IsoText(today), head, today, strptime);
    StripKeepsOut(tail, '|');
    NoSeparator(Strip(tail));
  }

  lemma NoSeparator(s: string)
    requires '|' !in s
    ensures IndexOf(s, "|").None?
  {
    forall j | 0 <= j ensures !OccursAt(s, "|", j) {
      if j + 1 <= |s| {
        assert s[j..j + 1][0] == s[j];
      }
    }
  }
}

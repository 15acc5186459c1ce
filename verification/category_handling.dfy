/**
 The bot's handler for a category link (src/bot/handlers/category_handling.py):
 the format check of the link and the splitting of the report into
 Telegram-sized replies. The category run and the Bot API are passed in as
 what they gave.
 */
module CategoryHandling {
  import opened Text
  import Records
  import CategoryParser

  const CategoryPrefix := "https://www.ozon.ru/category/"
  /** The longest reply the handler sends in one piece. */
  const ChunkSize := 4000

  /** The fixed replies of the handler: the format help, the status message, the error. */
  datatype Notice = InvalidFormat | Starting | Failure(error: string)

  function NoticeText(n: Notice): string {
    match n
      case InvalidFormat =>
        "❌ Неверный формат ссылки!\n\nПожалуйста, отправьте ссылку на категорию Ozon в формате:\n"
        + "`https://www.ozon.ru/category/название-категории-ID/`\n\n"
        + "Например: `https://www.ozon.ru/category/kruizery-11080/`"
      case Starting =>
        "🔄 **Начинаем парсинг категории...**\n\n⏳ Это может занять несколько минут\n"
        + "📊 Будем собирать информацию о продавцах и их товарах"
      case Failure(e) =>
        "❌ **Ошибка при парсинге категории**\n\nОписание ошибки: " + e + "\n\nПопробуйте позже или с другой категорией"
  }

  // ---------------------------------------------------------------------------
  // Chunking (lines 46-55)
  // ---------------------------------------------------------------------------

  /** `[s[i:i+4000] for i in range(0, len(s), 4000)]`. */
  function Chunks(s: string): (parts: seq<string>)
    ensures |parts| == (|s| + ChunkSize - 1) / ChunkSize
    ensures forall i | 0 <= i < |parts| :: 0 < |parts[i]| <= ChunkSize
    ensures forall i | 0 <= i < |parts| - 1 :: |parts[i]| == ChunkSize
    decreases |s|
  {
    if s == [] then []
    else if |s| <= ChunkSize then [s]
    else [s[..ChunkSize]] + Chunks(s[ChunkSize..])
  }

  /** The pieces put back together give the text. */
  lemma {:induction false} ChunksFlatten(s: string)
    ensures Flatten(Chunks(s)) == s
    decreases |s|
  {
    if |s| > ChunkSize {
      var rest := s[ChunkSize..];
      ChunksFlatten(rest);
      assert Chunks(s)[1..] == Chunks(rest);
      assert s[..ChunkSize] + rest == s;
    }
  }

  /** Piece `i` is the slice `s[4000 * i : 4000 * (i + 1)]`, as the comprehension takes it. */
  lemma {:induction false} ChunkAt(s: string, i: nat)
    requires i < |Chunks(s)|
    ensures var hi := if ChunkSize * (i + 1) < |s| then ChunkSize * (i + 1) else |s|;
      ChunkSize * i < hi && Chunks(s)[i] == s[ChunkSize * i..hi]
    decreases |s|
  {
    if i > 0 {
      var rest := s[ChunkSize..];
      assert Chunks(s)[i] == Chunks(rest)[i - 1];
      ChunkAt(rest, i - 1);
      var lo := ChunkSize * (i - 1);
      var hi := if ChunkSize * i < |rest| then ChunkSize * i else |rest|;
      SliceOfSuffix(s, ChunkSize, lo, hi);
    }
  }

  /** A slice of a suffix is a slice of the whole, shifted by where the suffix starts. */
  lemma SliceOfSuffix(s: string, n: nat, lo: nat, hi: nat)
    requires n <= |s| && lo <= hi <= |s| - n
    ensures s[n..][lo..hi] == s[n + lo..n + hi]
  {
    forall k | 0 <= k < hi - lo
      ensures s[n..][lo..hi][k] == s[n + lo..n + hi][k]
    {
      assert s[n..][lo..hi][k] == s[n + lo + k];
    }
  }

  /** A reply: its text, and whether the main keyboard comes with it. */
  datatype Reply = Reply(text: string, keyboard: bool)

  function Texts(replies: seq<Reply>): (r: seq<string>)
    ensures |r| == |replies| && forall i | 0 <= i < |r| :: r[i] == replies[i].text
  {
    seq(|replies|, i requires 0 <= i < |replies| => replies[i].text)
  }

  /** The replies carrying the report: one when it fits, else the pieces with the keyboard on
      the first only. */
  function ResultReplies(results: string): (r: seq<Reply>)
    ensures r != [] && r[0].keyboard
    ensures forall i | 0 < i < |r| :: !r[i].keyboard
    ensures forall i | 0 <= i < |r| :: |r[i].text| <= ChunkSize || |r| == 1
    ensures |r| == 1 <==> |results| <= ChunkSize
  {
    if |results| > ChunkSize then
      var parts := Chunks(results);
      seq(|parts|, i requires 0 <= i < |parts| => Reply(parts[i], i == 0))
    else [Reply(results, true)]
  }

  /** The replies spell out the report exactly, in order; each is at most 4000 characters long
      unless the report is sent whole, and there are as many as 4000-character pieces. */
  lemma ResultRepliesCover(results: string)
    ensures Flatten(Texts(ResultReplies(results))) == results
    ensures |results| > ChunkSize ==>
      |ResultReplies(results)| == (|results| + ChunkSize - 1) / ChunkSize
      && forall i | 0 <= i < |ResultReplies(results)| :: |ResultReplies(results)[i].text| <= ChunkSize
  {
    var r := ResultReplies(results);
    if |results| > ChunkSize {
      assert Texts(r) == Chunks(results);
      ChunksFlatten(results);
    } else {
      assert Texts(r) == [results];
    }
  }

  // ---------------------------------------------------------------------------
  // handle_category_url (lines 12-71)
  // ---------------------------------------------------------------------------

  /** What the handler does, in order. */
  datatype Action =
    | Say(reply: Reply)
    | Notify(notice: Notice, keyboard: bool)
    | ClearState
    | RunParser(url: string)
    | DeleteStatus

  /** What the category run gave: the dictionary `parse_category` returned, or the text of an
      exception raised around it. */
  datatype RunOutcome = Finished(data: CategoryParser.SellersData) | Raised(error: string)

  /** Each reply sent in turn. */
  function SayAll(replies: seq<Reply>): (r: seq<Action>)
    ensures |r| == |replies| && forall i | 0 <= i < |r| :: r[i] == Say(replies[i])
  {
    seq(|replies|, i requires 0 <= i < |replies| => Say(replies[i]))
  }

  /** What follows the parser run, given what formatting gave: on an exception the status is
      deleted (a failure of that deletion is swallowed) and the failure reported; otherwise
      the status is deleted, and the report replies follow unless the deletion failed. */
  function AfterRun(formatted: CategoryParser.Formatted, deleteError: Option<string>): (r: seq<Action>)
    ensures |r| >= 2 && r[0] == DeleteStatus
    ensures formatted.FormatError? ==> r == [DeleteStatus, Notify(Failure(formatted.error), true)]
    ensures formatted.Formatted? && deleteError.None? ==> r[1..] == SayAll(ResultReplies(formatted.text))
  {
    match formatted
      case FormatError(e) => [DeleteStatus, Notify(Failure(e), true)]
      case Formatted(t) =>
        match deleteError
          case Some(e) => [DeleteStatus, DeleteStatus, Notify(Failure(e), true)]
          case None => [DeleteStatus] + SayAll(ResultReplies(t))
  }

  /** The handler's first steps for a category link. */
  function Head(url: string): seq<Action> {
    [ClearState, Notify(Starting, false), RunParser(url)]
  }

  /** The actions for an accepted link: the first steps, then what follows the run. */
  function Accepted(url: string, formatted: CategoryParser.Formatted, deleteError: Option<string>): (r: seq<Action>)
    ensures |r| >= 5 && r[..4] == [ClearState, Notify(Starting, false), RunParser(url), DeleteStatus]
    ensures r[4..] == AfterRun(formatted, deleteError)[1..]
  {
    var tail := AfterRun(formatted, deleteError);
    assert (Head(url) + tail)[4..] == tail[1..];
    Head(url) + tail
  }

  /** `handle_category_url` as written: the report is `format_results` of the whole
      dictionary. `deleteError` is the failure, if any, of deleting the status message after
      formatting. */
  function HandleCategoryUrlAsWritten(text: string, outcome: RunOutcome, deleteError: Option<string>): (r: seq<Action>)
    ensures !StartsWith(Strip(text), CategoryPrefix) ==> r == [Notify(InvalidFormat, false)]
    ensures StartsWith(Strip(text), CategoryPrefix) ==>
      |r| >= 5 && r[..4] == [ClearState, Notify(Starting, false), RunParser(Strip(text)), DeleteStatus]
    ensures StartsWith(Strip(text), CategoryPrefix) && outcome.Finished? && outcome.data.files.Some? ==>
      r[4..] == [Notify(Failure(CategoryParser.MissingCountError), true)]
  {
    var url := Strip(text);
    if !StartsWith(url, CategoryPrefix) then [Notify(InvalidFormat, false)]
    else
      var formatted :=
        if outcome.Raised? then CategoryParser.FormatError(outcome.error)
        else CategoryParser.FormatResultsAsWritten(outcome.data);
      Accepted(url, formatted, deleteError)
  }

  /** As written, a run that found sellers never reaches the report: formatting raises on the
      `_files` entry and the user gets the failure notice with `'products_count'`. The report
      replies are sent only for a run without sellers, and then say "no sellers". */
  lemma FoundSellersEndInFailure(text: string, url: string, links: seq<string>,
                                 observe: string -> CategoryParser.Observation,
                                 excel: Option<string>, txt: Option<string>, deleteError: Option<string>)
    requires StartsWith(Strip(text), CategoryPrefix)
    ensures var d := CategoryParser.ParseCategory(url, links, observe, excel, txt);
      var r := HandleCategoryUrlAsWritten(text, Finished(d), deleteError);
      && (d.sellers != [] ==>
            r == Head(Strip(text)) + [DeleteStatus, Notify(Failure(CategoryParser.MissingCountError), true)])
      && (d.sellers == [] && deleteError.None? ==>
            r == Head(Strip(text)) + [DeleteStatus, Say(Reply(CategoryParser.NoSellersMessage, true))])
  {
    var d := CategoryParser.ParseCategory(url, links, observe, excel, txt);
    CategoryParser.OnlyEmptyRunsFormat(url, links, observe, excel, txt);
    if d.sellers == [] {
      assert |CategoryParser.NoSellersMessage| <= ChunkSize;
    }
  }

  /** `handle_category_url` with the report made of the seller entries alone, leaving out the
      `_files` entry as the footer's "files are sent separately" intends. */
  function HandleCategoryUrl(text: string, outcome: RunOutcome, deleteError: Option<string>): (r: seq<Action>)
    ensures !StartsWith(Strip(text), CategoryPrefix) ==> r == [Notify(InvalidFormat, false)]
    ensures StartsWith(Strip(text), CategoryPrefix) ==>
      |r| >= 5 && r[..4] == [ClearState, Notify(Starting, false), RunParser(Strip(text)), DeleteStatus]
    ensures outcome.Finished? && deleteError.None? && StartsWith(Strip(text), CategoryPrefix) ==>
      r[4..] == SayAll(ResultReplies(CategoryParser.FormatResults(outcome.data.sellers)))
  {
    var url := Strip(text);
    if !StartsWith(url, CategoryPrefix) then [Notify(InvalidFormat, false)]
    else
      var formatted :=
        if outcome.Raised? then CategoryParser.FormatError(outcome.error)
        else CategoryParser.Formatted(CategoryParser.FormatResults(outcome.data.sellers));
      Accepted(url, formatted, deleteError)
  }

  /** The two agree wherever the dictionary holds no `_files` entry. */
  lemma HandleAgreesWithoutFiles(text: string, outcome: RunOutcome, deleteError: Option<string>)
    requires outcome.Finished? ==> outcome.data.files.None?
    ensures HandleCategoryUrl(text, outcome, deleteError) == HandleCategoryUrlAsWritten(text, outcome, deleteError)
  {
  }

  /** The state is cleared, and a parser run, exactly when the stripped text is a category
      link: a rejected message leaves the conversation as it was. */
  lemma RejectedBeforeClearing(text: string, outcome: RunOutcome, deleteError: Option<string>)
    ensures var r := HandleCategoryUrl(text, outcome, deleteError);
      (ClearState in r <==> StartsWith(Strip(text), CategoryPrefix))
      && ((exists i | 0 <= i < |r| :: r[i].RunParser?) <==> StartsWith(Strip(text), CategoryPrefix))
  {
    var r := HandleCategoryUrl(text, outcome, deleteError);
    if StartsWith(Strip(text), CategoryPrefix) {
      assert r[0] == ClearState && r[2].RunParser?;
    }
  }

  /** Leading and trailing blanks around a link do not matter. */
  lemma SurroundingBlanksIgnored(text: string, outcome: RunOutcome, deleteError: Option<string>)
    ensures HandleCategoryUrl(text, outcome, deleteError) == HandleCategoryUrl(Strip(text), outcome, deleteError)
  {
    StripIdempotent(text);
  }
}
